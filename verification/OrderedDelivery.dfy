/** Parallel items delivered to a sequential callback in index order: slots guarded by a mutex and a
    condition variable each, and one panic flag, as an interleaved step system. */
module OrderedDelivery {
  import opened Wrappers

  type Item = int

  /** One item's journey through the parallel iterator.  `Wrote` is the moment between storing the
      value (with the slot lock released again) and notifying. */
  datatype Producer = Computing | Wrote | Done | Panicked

  datatype WakePhase = BeforeLock | Locked | Notified

  /** The spawned task: waiting for the parallel iterator to return, then, after a panic, locking
      and notifying every slot in turn. */
  datatype Root = Joining | Waking(k: nat, phase: WakePhase) | Returned

  /** The calling thread.  It holds the lock of slot `i` in `Checking`, `Testing` and `Parking`. */
  datatype Consumer =
    | Locking(i: nat)
    | Checking(i: nat)
    | Testing(i: nat)
    | Parking(i: nat)
    | Asleep(i: nat)
    | Woken(i: nat)
    | Delivering(i: nat, item: Item)
    | Finished
    | Stopped(i: nat)

  datatype State = State(
    items: seq<Item>,
    slots: seq<Option<Item>>,
    panicked: bool,
    producers: seq<Producer>,
    root: Root,
    consumer: Consumer,
    delivered: seq<Item>)

  datatype Action =
    | Write(p: nat) | Notify(p: nat) | Panic(p: nat)
    | Join | RaiseFlag | WakeLock | WakeNotify | WakeUnlock
    | Lock | CheckValue | CheckFlag | Wait | Relock | Deliver
    | Spurious

  function Initial(items: seq<Item>): State
    requires items != []
  {
    State(items, seq(|items|, _ => None), false, seq(|items|, _ => Computing), Joining, Locking(0), [])
  }

  predicate ConsumerHolds(s: State, i: nat) {
    (s.consumer.Checking? || s.consumer.Testing? || s.consumer.Parking?) && s.consumer.i == i
  }

  predicate RootHolds(s: State, i: nat) {
    s.root.Waking? && s.root.k == i && !s.root.phase.BeforeLock?
  }

  predicate Free(s: State, i: nat) {
    !ConsumerHolds(s, i) && !RootHolds(s, i)
  }

  /** The parallel iterator unwinds only after every item in progress has stopped, and returns
      normally only when every item is done. */
  predicate Enabled(s: State, a: Action) {
    var n := |s.items|;
    match a
    case Write(p) => s.root.Joining? && p < |s.producers| && s.producers[p].Computing? && Free(s, p)
    case Panic(p) => s.root.Joining? && p < |s.producers| && s.producers[p].Computing?
    case Notify(p) => p < |s.producers| && s.producers[p].Wrote?
    case Join => s.root.Joining? && forall p :: 0 <= p < |s.producers| ==> s.producers[p].Done?
    case RaiseFlag =>
      && s.root.Joining?
      && (exists p :: 0 <= p < |s.producers| && s.producers[p].Panicked?)
      && (forall p :: 0 <= p < |s.producers| ==> !s.producers[p].Wrote?)
    case WakeLock => s.root.Waking? && s.root.phase.BeforeLock? && Free(s, s.root.k)
    case WakeNotify => s.root.Waking? && s.root.phase.Locked?
    case WakeUnlock => s.root.Waking? && s.root.phase.Notified?
    case Lock => s.consumer.Locking? && Free(s, s.consumer.i)
    case CheckValue => s.consumer.Checking? && s.consumer.i < |s.slots|
    case CheckFlag => s.consumer.Testing?
    case Wait => s.consumer.Parking?
    case Relock => s.consumer.Woken? && Free(s, s.consumer.i)
    case Deliver => s.consumer.Delivering?
    case Spurious => s.consumer.Asleep?
  }

  /** A notification reaches the consumer only if it is asleep on that very slot. */
  function Wake(c: Consumer, i: nat): Consumer {
    if c == Asleep(i) then Woken(i) else c
  }

  function Apply(s: State, a: Action): State
    requires Enabled(s, a) && |s.slots| == |s.producers| == |s.items|
  {
    match a
    case Write(p) => s.(slots := s.slots[p := Some(s.items[p])], producers := s.producers[p := Wrote])
    case Panic(p) => s.(producers := s.producers[p := Panicked])
    case Notify(p) => s.(producers := s.producers[p := Done], consumer := Wake(s.consumer, p))
    case Join => s.(root := Returned)
    case RaiseFlag => s.(panicked := true, root := Waking(0, BeforeLock))
    case WakeLock => s.(root := s.root.(phase := Locked))
    case WakeNotify => s.(root := s.root.(phase := Notified), consumer := Wake(s.consumer, s.root.k))
    case WakeUnlock => s.(root := if s.root.k + 1 < |s.items| then Waking(s.root.k + 1, BeforeLock) else Returned)
    case Lock => s.(consumer := Checking(s.consumer.i))
    case CheckValue =>
      if s.slots[s.consumer.i].Some?
      then s.(consumer := Delivering(s.consumer.i, s.slots[s.consumer.i].value), slots := s.slots[s.consumer.i := None])
      else s.(consumer := Testing(s.consumer.i))
    case CheckFlag => s.(consumer := if s.panicked then Stopped(s.consumer.i) else Parking(s.consumer.i))
    case Wait => s.(consumer := Asleep(s.consumer.i))
    case Relock => s.(consumer := Checking(s.consumer.i))
    case Deliver =>
      s.(delivered := s.delivered + [s.consumer.item],
         consumer := if s.consumer.i + 1 < |s.items| then Locking(s.consumer.i + 1) else Finished)
    case Spurious => s.(consumer := Woken(s.consumer.i))
  }

  // ---- What every interleaving keeps ----

  predicate Written(ps: seq<Producer>, i: nat)
    requires i < |ps|
  {
    ps[i].Wrote? || ps[i].Done?
  }

  /** How many slots the consumer has emptied. */
  function Taken(s: State): nat {
    match s.consumer
    case Finished => |s.items|
    case Delivering(i, _) => i + 1
    case _ => s.consumer.i
  }

  /** The wake-up loop has not yet notified slot `i`. */
  predicate StillToNotify(r: Root, i: nat) {
    r.Waking? && (r.k < i || (r.k == i && !r.phase.Notified?))
  }

  predicate Sized(s: State) {
    && |s.slots| == |s.producers| == |s.items| > 0
    && Taken(s) <= |s.items| && (!s.consumer.Finished? ==> s.consumer.i < |s.items|)
    && (s.root.Waking? ==> s.root.k < |s.items|)
  }

  /** A slot is full exactly when its item was written and not yet taken. */
  predicate SlotsAgree(s: State)
    requires Sized(s)
  {
    && (forall i :: 0 <= i < Taken(s) ==> Written(s.producers, i))
    && (forall i :: 0 <= i < |s.items| ==>
          s.slots[i] == if Written(s.producers, i) && i >= Taken(s) then Some(s.items[i]) else None)
  }

  predicate RootAgrees(s: State) {
    && (s.root.Joining? ==> !s.panicked)
    && (s.root.Waking? ==> s.panicked)
    && (s.root.Returned? && !s.panicked ==> forall p :: 0 <= p < |s.producers| ==> s.producers[p].Done?)
    && (!s.root.Joining? ==> forall p :: 0 <= p < |s.producers| ==> !s.producers[p].Wrote?)
    && (s.panicked ==> exists p :: 0 <= p < |s.producers| && s.producers[p].Panicked?)
  }

  /** Delivery so far, and why a waiting or stopped consumer is right to wait or stop. */
  predicate ConsumerAgrees(s: State)
    requires Sized(s)
  {
    match s.consumer
    case Delivering(i, item) => s.delivered == s.items[..i] && item == s.items[i]
    case Finished => s.delivered == s.items
    case Testing(i) => s.delivered == s.items[..i] && s.slots[i].None?
    case Parking(i) =>
      && s.delivered == s.items[..i] && s.slots[i].None?
      && (s.panicked ==> StillToNotify(s.root, i) && !RootHolds(s, i))
    case Asleep(i) =>
      && s.delivered == s.items[..i]
      && (s.slots[i].Some? ==> s.producers[i].Wrote?)
      && (s.panicked ==> StillToNotify(s.root, i))
    case Stopped(i) => s.delivered == s.items[..i] && s.slots[i].None? && s.panicked
    case _ => s.delivered == s.items[..s.consumer.i]
  }

  /** No slot lock is held twice. */
  predicate Exclusive(s: State) {
    s.root.Waking? ==> !(ConsumerHolds(s, s.root.k) && RootHolds(s, s.root.k))
  }

  predicate Inv(s: State) {
    Sized(s) && Exclusive(s) && SlotsAgree(s) && RootAgrees(s) && ConsumerAgrees(s)
  }

  lemma {:induction false} InitialInv(items: seq<Item>)
    requires items != []
    ensures Inv(Initial(items))
  {
  }

  lemma {:induction false} WriteKeepsInv(s: State, p: nat)
    requires Inv(s) && Enabled(s, Write(p))
    ensures Inv(Apply(s, Write(p)))
  {
    var t := Apply(s, Write(p));
    assert !Written(s.producers, p);
    forall i | 0 <= i < |t.items|
      ensures t.slots[i] == if Written(t.producers, i) && i >= Taken(t) then Some(t.items[i]) else None
    {
      assert i != p ==> (Written(t.producers, i) <==> Written(s.producers, i));
    }
    forall i | 0 <= i < Taken(t) ensures Written(t.producers, i) { assert Written(s.producers, i); }
  }

  lemma {:induction false} ProducerKeepsInv(s: State, a: Action)
    requires Inv(s) && Enabled(s, a) && (a.Notify? || a.Panic?)
    ensures Inv(Apply(s, a))
  {
    var t := Apply(s, a);
    assert forall i :: 0 <= i < |s.items| ==> (Written(t.producers, i) <==> Written(s.producers, i));
  }

  lemma {:induction false} RootKeepsInv(s: State, a: Action)
    requires Inv(s) && Enabled(s, a)
    requires a.Join? || a.RaiseFlag? || a.WakeLock? || a.WakeNotify? || a.WakeUnlock?
    ensures Inv(Apply(s, a))
  {
    var t := Apply(s, a);
    assert t.producers == s.producers;
  }

  lemma {:induction false} CheckValueKeepsInv(s: State)
    requires Inv(s) && Enabled(s, CheckValue)
    ensures Inv(Apply(s, CheckValue))
  {
    var t := Apply(s, CheckValue);
    var c := s.consumer.i;
    assert s.slots[c].Some? ==> Written(s.producers, c);
    forall i | 0 <= i < |t.items|
      ensures t.slots[i] == if Written(t.producers, i) && i >= Taken(t) then Some(t.items[i]) else None
    {
      assert Written(t.producers, i) <==> Written(s.producers, i);
    }
  }

  lemma {:induction false} ConsumerKeepsInv(s: State, a: Action)
    requires Inv(s) && Enabled(s, a)
    requires a.Lock? || a.CheckFlag? || a.Wait? || a.Relock? || a.Deliver? || a.Spurious?
    ensures Inv(Apply(s, a))
  {
    var t := Apply(s, a);
    assert t.producers == s.producers && t.slots == s.slots && Taken(t) == Taken(s);
    if a.Deliver? {
      assert s.items[..s.consumer.i] + [s.items[s.consumer.i]] == s.items[..s.consumer.i + 1];
    }
  }

  lemma {:induction false} StepKeepsInv(s: State, a: Action)
    requires Inv(s) && Enabled(s, a)
    ensures Inv(Apply(s, a)) && Apply(s, a).items == s.items
  {
    match a
    case Write(p) => WriteKeepsInv(s, p);
    case Notify(_) | Panic(_) => ProducerKeepsInv(s, a);
    case Join | RaiseFlag | WakeLock | WakeNotify | WakeUnlock => RootKeepsInv(s, a);
    case CheckValue => CheckValueKeepsInv(s);
    case _ => ConsumerKeepsInv(s, a);
  }

  predicate Run(s: State, actions: seq<Action>, end: State)
    requires |s.slots| == |s.producers| == |s.items|
    decreases |actions|
  {
    if actions == [] then end == s
    else Enabled(s, actions[0]) && Run(Apply(s, actions[0]), actions[1..], end)
  }

  lemma {:induction false} RunKeepsInv(s: State, actions: seq<Action>, end: State)
    requires Inv(s) && Run(s, actions, end)
    ensures Inv(end) && end.items == s.items
    decreases |actions|
  {
    if actions != [] {
      StepKeepsInv(s, actions[0]);
      RunKeepsInv(Apply(s, actions[0]), actions[1..], end);
    }
  }

  lemma {:induction false} Reachable(items: seq<Item>, actions: seq<Action>, s: State)
    requires items != [] && Run(Initial(items), actions, s)
    ensures Inv(s) && s.items == items
  {
    InitialInv(items);
    RunKeepsInv(Initial(items), actions, s);
  }

  // ---- No lost wake-up ----

  /** A consumer asleep on slot `i` with no notification on its way: the slot is empty, and either
      no panic is flagged or the wake-up loop has yet to lock and notify that slot. */
  lemma {:induction false} NoLostWakeup(items: seq<Item>, actions: seq<Action>, s: State)
    requires items != [] && Run(Initial(items), actions, s) && s.consumer.Asleep?
    ensures s.consumer.i < |s.slots| == |s.producers|
    ensures !s.producers[s.consumer.i].Wrote? ==> s.slots[s.consumer.i].None?
    ensures s.panicked ==> StillToNotify(s.root, s.consumer.i)
    ensures !s.root.Returned?
  {
    Reachable(items, actions, s);
    var i := s.consumer.i;
    if s.root.Returned? {
      assert s.producers[i].Done?;
      assert Written(s.producers, i);
    }
  }

  predicate Terminal(s: State) {
    s.root.Returned? && (s.consumer.Finished? || s.consumer.Stopped?)
  }

  /** In every reachable state that is not final, some real step is possible. */
  lemma {:induction false} NoDeadlock(items: seq<Item>, actions: seq<Action>, s: State) returns (a: Action)
    requires items != [] && Run(Initial(items), actions, s) && !Terminal(s)
    ensures Enabled(s, a) && !a.Spurious?
  {
    Reachable(items, actions, s);
    match s.consumer {
      case Checking(_) => a := CheckValue;
      case Testing(_) => a := CheckFlag;
      case Parking(_) => a := Wait;
      case Delivering(_, _) => a := Deliver;
      case _ =>
        match s.root {
          case Joining => a := JoiningMoves(s);
          case Waking(_, phase) =>
            a := if phase.BeforeLock? then WakeLock else if phase.Locked? then WakeNotify else WakeUnlock;
          case Returned =>
            if s.consumer.Asleep? {
              NoLostWakeup(items, actions, s);
            }
            a := if s.consumer.Locking? then Lock else Relock;
        }
    }
  }

  lemma {:induction false} JoiningMoves(s: State) returns (a: Action)
    requires Inv(s) && s.root.Joining?
    requires !(s.consumer.Checking? || s.consumer.Testing? || s.consumer.Parking?)
    ensures Enabled(s, a) && !a.Spurious?
  {
    if p :| 0 <= p < |s.producers| && s.producers[p].Wrote? {
      a := Notify(p);
    } else if p :| 0 <= p < |s.producers| && s.producers[p].Computing? {
      a := Write(p);
    } else if p :| 0 <= p < |s.producers| && s.producers[p].Panicked? {
      a := RaiseFlag;
    } else {
      a := Join;
    }
  }

  // ---- Every run of real steps is finite ----

  function ProducerWork(ps: seq<Producer>): nat {
    if ps == [] then 0
    else (match ps[0] case Computing => 2 case Wrote => 1 case _ => 0) + ProducerWork(ps[1..])
  }

  function RootWork(r: Root, n: nat): int {
    match r
    case Joining => 3 * n + 1
    case Waking(k, phase) => 3 * (n - k) - (match phase case BeforeLock => 0 case Locked => 1 case Notified => 2)
    case Returned => 0
  }

  function ConsumerWork(c: Consumer, n: nat): int {
    match c
    case Locking(i) => 8 * (n - i) + 7
    case Woken(i) => 8 * (n - i) + 6
    case Checking(i) => 8 * (n - i) + 5
    case Testing(i) => 8 * (n - i) + 4
    case Parking(i) => 8 * (n - i) + 3
    case Asleep(i) => 8 * (n - i) + 2
    case Delivering(i, _) => 8 * (n - i) + 1
    case Finished | Stopped(_) => 0
  }

  /** Steps that can still happen, a notification paying for the wake-up it may cause. */
  function Work(s: State): int {
    5 * ProducerWork(s.producers) + 5 * RootWork(s.root, |s.items|) + ConsumerWork(s.consumer, |s.items|)
  }

  lemma {:induction false} ProducerStepWork(ps: seq<Producer>, p: nat, x: Producer)
    requires p < |ps|
    ensures ProducerWork(ps[p := x]) ==
              ProducerWork(ps) - ProducerWork([ps[p]]) + ProducerWork([x])
  {
    if p == 0 {
      assert ps[p := x][1..] == ps[1..];
    } else {
      assert ps[p := x][1..] == ps[1..][p - 1 := x];
      ProducerStepWork(ps[1..], p - 1, x);
    }
  }

  lemma {:induction false} ProducerDoesWork(s: State, a: Action)
    requires Sized(s) && Enabled(s, a) && (a.Write? || a.Notify? || a.Panic?)
    ensures Work(Apply(s, a)) < Work(s)
  {
    match a
    case Write(p) => ProducerStepWork(s.producers, p, Wrote);
    case Notify(p) => ProducerStepWork(s.producers, p, Done);
    case Panic(p) => ProducerStepWork(s.producers, p, Panicked);
  }

  lemma {:induction false} StepDoesWork(s: State, a: Action)
    requires Sized(s) && Enabled(s, a) && Sized(Apply(s, a))
    ensures if a.Spurious? then Work(Apply(s, a)) <= Work(s) + 4 else Work(Apply(s, a)) < Work(s)
  {
    if a.Write? || a.Notify? || a.Panic? { ProducerDoesWork(s, a); }
  }

  function Count(actions: seq<Action>, spurious: bool): nat {
    if actions == [] then 0
    else (if actions[0].Spurious? == spurious then 1 else 0) + Count(actions[1..], spurious)
  }

  lemma {:induction false} RunDoesWork(s: State, actions: seq<Action>, end: State)
    requires Inv(s) && Run(s, actions, end)
    ensures Count(actions, false) + Work(end) <= Work(s) + 4 * Count(actions, true)
    decreases |actions|
  {
    if actions != [] {
      StepKeepsInv(s, actions[0]);
      StepDoesWork(s, actions[0]);
      RunDoesWork(Apply(s, actions[0]), actions[1..], end);
    }
  }

  lemma {:induction false} InitialProducerWork(n: nat)
    ensures ProducerWork(seq(n, _ => Computing)) == 2 * n
  {
    if n > 0 {
      assert seq(n, _ => Computing)[1..] == seq(n - 1, _ => Computing);
      InitialProducerWork(n - 1);
    }
  }

  /** The number of real steps is linear in the number of items, so, with a step always available
      before the end, every run finishes unless it wakes spuriously for ever. */
  lemma {:induction false} RunsAreFinite(items: seq<Item>, actions: seq<Action>, s: State)
    requires items != [] && Run(Initial(items), actions, s)
    ensures Count(actions, false) <= 33 * |items| + 12 + 4 * Count(actions, true)
  {
    Reachable(items, actions, s);
    InitialInv(items);
    RunDoesWork(Initial(items), actions, s);
    InitialProducerWork(|items|);
    assert Initial(items).producers == seq(|items|, _ => Computing);
  }

  // ---- What the callback sees ----

  /** At every moment the callback has seen a prefix of the items, in order and without repeats. */
  lemma {:induction false} DeliversInOrder(items: seq<Item>, actions: seq<Action>, s: State)
    requires items != [] && Run(Initial(items), actions, s)
    ensures s.delivered <= items
  {
    Reachable(items, actions, s);
  }

  /** The final outcome does not depend on the interleaving: the callback has seen exactly the
      longest prefix of items that were produced, which is all of them when nothing panicked. */
  lemma {:induction false} OutcomeIsLongestProducedPrefix(items: seq<Item>, actions: seq<Action>, s: State)
    requires items != [] && Run(Initial(items), actions, s) && Terminal(s)
    ensures |s.producers| == |items| && s.delivered <= items
    ensures forall i :: 0 <= i < |s.delivered| ==> Written(s.producers, i)
    ensures |s.delivered| < |items| ==> !Written(s.producers, |s.delivered|)
    ensures (forall p :: 0 <= p < |s.producers| ==> !s.producers[p].Panicked?) ==> s.delivered == items
  {
    Reachable(items, actions, s);
    if s.consumer.Stopped? {
      assert s.slots[s.consumer.i].None?;
    }
  }
}
