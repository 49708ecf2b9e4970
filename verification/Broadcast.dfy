/** Slot claiming in a pool broadcast: threads race on one counter by weak compare-and-swap. */
module Broadcast {

  datatype Thread =
    | Start                 // before its first load
    | Loaded(current: nat)  // holds the counter value it last saw
    | Claimed               // owns a slot, closure not yet run
    | Ran
    | Skipped

  datatype State = State(remaining: nat, threads: seq<Thread>)

  /** `spurious` lets the weak compare-and-swap fail although the value matches. */
  datatype Action = Load(t: nat) | GiveUp(t: nat) | Swap(t: nat, spurious: bool) | Execute(t: nat)

  /** With enough slots every thread runs the closure outright; otherwise they compete. */
  function Initial(slots: nat, pool: nat): State {
    State(slots, seq(pool, _ => if slots >= pool then Claimed else Start))
  }

  predicate Enabled(s: State, a: Action) {
    && a.t < |s.threads|
    && match a
       case Load(t) => s.threads[t] == Start
       case GiveUp(t) => s.threads[t] == Loaded(0)
       case Swap(t, _) => s.threads[t].Loaded? && s.threads[t].current > 0
       case Execute(t) => s.threads[t] == Claimed
  }

  function Apply(s: State, a: Action): State
    requires Enabled(s, a)
  {
    match a
    case Load(t) => s.(threads := s.threads[t := Loaded(s.remaining)])
    case GiveUp(t) => s.(threads := s.threads[t := Skipped])
    case Swap(t, spurious) =>
      if s.remaining == s.threads[t].current && !spurious
      then State(s.remaining - 1, s.threads[t := Claimed])
      else s.(threads := s.threads[t := Loaded(s.remaining)])
    case Execute(t) => s.(threads := s.threads[t := Ran])
  }

  predicate IsRun(s: State, actions: seq<Action>)
    decreases actions
  {
    actions == [] || (Enabled(s, actions[0]) && IsRun(Apply(s, actions[0]), actions[1..]))
  }

  function Final(s: State, actions: seq<Action>): State
    requires IsRun(s, actions)
    decreases actions
  {
    if actions == [] then s else Final(Apply(s, actions[0]), actions[1..])
  }

  // ---- Counting ----

  predicate Owns(t: Thread) { t.Claimed? || t.Ran? }

  function Owners(threads: seq<Thread>): nat {
    if threads == [] then 0 else (if Owns(threads[0]) then 1 else 0) + Owners(threads[1..])
  }

  lemma {:induction false} OwnersUpdate(threads: seq<Thread>, t: nat, x: Thread)
    requires t < |threads|
    ensures Owners(threads[t := x]) == Owners(threads) - (if Owns(threads[t]) then 1 else 0) + if Owns(x) then 1 else 0
  {
    if t == 0 {
      assert threads[t := x][1..] == threads[1..];
    } else {
      assert threads[t := x][1..] == threads[1..][t - 1 := x];
      OwnersUpdate(threads[1..], t - 1, x);
    }
  }

  lemma {:induction false} OwnersBound(threads: seq<Thread>)
    ensures Owners(threads) <= |threads|
    ensures Owners(threads) == |threads| <==> forall t :: 0 <= t < |threads| ==> Owns(threads[t])
  {
    if threads != [] {
      OwnersBound(threads[1..]);
      assert threads == [threads[0]] + threads[1..];
      if forall t :: 0 <= t < |threads| ==> Owns(threads[t]) {
        forall t | 0 <= t < |threads[1..]| ensures Owns(threads[1..][t]) { assert Owns(threads[t + 1]); }
      }
    }
  }

  lemma {:induction false} NobodyOwns(threads: seq<Thread>)
    requires forall t :: 0 <= t < |threads| ==> threads[t] == Start
    ensures Owners(threads) == 0
  {
    if threads != [] { NobodyOwns(threads[1..]); }
  }

  // ---- The invariant ----

  /** A value seen is never below the counter; whoever gave up saw it at zero. */
  predicate Sees(t: Thread, remaining: nat, slots: nat) {
    && (t.Loaded? ==> remaining <= t.current <= slots)
    && (t.Skipped? ==> remaining == 0)
  }

  predicate Inv(s: State, slots: nat, pool: nat) {
    && |s.threads| == pool
    && if slots >= pool then forall t :: 0 <= t < pool ==> Owns(s.threads[t])
       else
         && s.remaining + Owners(s.threads) == slots
         && forall t :: 0 <= t < pool ==> Sees(s.threads[t], s.remaining, slots)
  }

  lemma {:induction false} StepKeepsInv(s: State, a: Action, slots: nat, pool: nat)
    requires Inv(s, slots, pool) && Enabled(s, a)
    ensures Inv(Apply(s, a), slots, pool)
  {
    OwnersUpdate(s.threads, a.t, Apply(s, a).threads[a.t]);
  }

  lemma {:induction false} RunKeepsInv(s: State, actions: seq<Action>, slots: nat, pool: nat)
    requires Inv(s, slots, pool) && IsRun(s, actions)
    ensures Inv(Final(s, actions), slots, pool)
    decreases actions
  {
    if actions != [] {
      StepKeepsInv(s, actions[0], slots, pool);
      RunKeepsInv(Apply(s, actions[0]), actions[1..], slots, pool);
    }
  }

  lemma {:induction false} InitialInv(slots: nat, pool: nat)
    ensures Inv(Initial(slots, pool), slots, pool)
  {
    if slots < pool { NobodyOwns(Initial(slots, pool).threads); }
  }

  // ---- What every run comes to ----

  predicate Finished(s: State) {
    forall t :: 0 <= t < |s.threads| ==> s.threads[t].Ran? || s.threads[t].Skipped?
  }

  function RanSet(s: State): set<nat> {
    set t: nat | t < |s.threads| && s.threads[t].Ran?
  }

  lemma {:induction false} OwnersAreRan(threads: seq<Thread>, ran: set<nat>)
    requires forall t :: 0 <= t < |threads| ==> threads[t].Ran? || threads[t].Skipped?
    requires ran == set t: nat | t < |threads| && threads[t].Ran?
    ensures Owners(threads) == |ran|
    decreases |threads|
  {
    if threads == [] {
      assert ran == {};
    } else {
      var n := |threads| - 1;
      var rest := set t: nat | t < n && threads[..n][t].Ran?;
      OwnersAreRan(threads[..n], rest);
      OwnersAppend(threads[..n], threads[n]);
      assert threads == threads[..n] + [threads[n]];
      assert ran == if threads[n].Ran? then rest + {n} else rest;
    }
  }

  lemma {:induction false} OwnersAppend(threads: seq<Thread>, x: Thread)
    ensures Owners(threads + [x]) == Owners(threads) + if Owns(x) then 1 else 0
  {
    if threads == [] {
      assert threads + [x] == [x];
      assert [x][1..] == [];
    } else {
      assert (threads + [x])[1..] == threads[1..] + [x];
      OwnersAppend(threads[1..], x);
    }
  }

  /** In every interleaving, once all threads are done exactly min(slots, pool) of them ran the closure. */
  lemma {:induction false} ExactlyTheSlotsRan(slots: nat, pool: nat, actions: seq<Action>)
    requires IsRun(Initial(slots, pool), actions) && Finished(Final(Initial(slots, pool), actions))
    ensures |RanSet(Final(Initial(slots, pool), actions))| == if slots < pool then slots else pool
  {
    var end := Final(Initial(slots, pool), actions);
    InitialInv(slots, pool);
    RunKeepsInv(Initial(slots, pool), actions, slots, pool);
    OwnersAreRan(end.threads, RanSet(end));
    OwnersBound(end.threads);
    if slots < pool {
      var t :| 0 <= t < pool && !Owns(end.threads[t]);
      assert end.threads[t].Skipped?;
    }
  }

  /** Some thread can always move until all are done. */
  lemma {:induction false} NeverStuck(s: State)
    requires !Finished(s)
    ensures exists a :: Enabled(s, a)
  {
    var t: nat :| t < |s.threads| && !s.threads[t].Ran? && !s.threads[t].Skipped?;
    match s.threads[t] {
      case Start => assert Enabled(s, Load(t));
      case Loaded(c) => assert Enabled(s, if c == 0 then GiveUp(t) else Swap(t, false));
      case Claimed => assert Enabled(s, Execute(t));
    }
  }

  // ---- Runs are finite but for spurious failures ----

  function Work(t: Thread, slots: nat): nat {
    match t
    case Start => slots + 3
    case Loaded(c) => c + 2
    case Claimed => 1
    case _ => 0
  }

  function TotalWork(threads: seq<Thread>, slots: nat): nat {
    if threads == [] then 0 else Work(threads[0], slots) + TotalWork(threads[1..], slots)
  }

  lemma {:induction false} WorkUpdate(threads: seq<Thread>, t: nat, x: Thread, slots: nat)
    requires t < |threads|
    ensures TotalWork(threads[t := x], slots) == TotalWork(threads, slots) - Work(threads[t], slots) + Work(x, slots)
  {
    if t == 0 {
      assert threads[t := x][1..] == threads[1..];
    } else {
      assert threads[t := x][1..] == threads[1..][t - 1 := x];
      WorkUpdate(threads[1..], t - 1, x, slots);
    }
  }

  predicate Spurious(a: Action) { a.Swap? && a.spurious }

  function SpuriousCount(actions: seq<Action>): nat {
    if actions == [] then 0 else (if Spurious(actions[0]) then 1 else 0) + SpuriousCount(actions[1..])
  }

  lemma {:induction false} StepDoesWork(s: State, a: Action, slots: nat, pool: nat)
    requires Inv(s, slots, pool) && slots < pool && Enabled(s, a)
    ensures TotalWork(Apply(s, a).threads, slots) <= TotalWork(s.threads, slots) - if Spurious(a) then 0 else 1
  {
    WorkUpdate(s.threads, a.t, Apply(s, a).threads[a.t], slots);
    OwnersBound(s.threads);
    assert Sees(s.threads[a.t], s.remaining, slots);
  }

  lemma {:induction false} RunBound(s: State, actions: seq<Action>, slots: nat, pool: nat)
    requires Inv(s, slots, pool) && slots < pool && IsRun(s, actions)
    ensures |actions| <= TotalWork(s.threads, slots) + SpuriousCount(actions)
    decreases actions
  {
    if actions != [] {
      StepDoesWork(s, actions[0], slots, pool);
      StepKeepsInv(s, actions[0], slots, pool);
      RunBound(Apply(s, actions[0]), actions[1..], slots, pool);
    }
  }

  lemma {:induction false} AllStart(threads: seq<Thread>, slots: nat)
    requires forall t :: 0 <= t < |threads| ==> threads[t] == Start
    ensures TotalWork(threads, slots) == |threads| * (slots + 3)
  {
    if threads != [] { AllStart(threads[1..], slots); }
  }

  /** A genuine failure means the counter has dropped, so each thread retries at most `slots` times. */
  lemma {:induction false} RunsAreFinite(slots: nat, pool: nat, actions: seq<Action>)
    requires slots < pool && IsRun(Initial(slots, pool), actions)
    ensures |actions| <= pool * (slots + 3) + SpuriousCount(actions)
  {
    InitialInv(slots, pool);
    RunBound(Initial(slots, pool), actions, slots, pool);
    AllStart(Initial(slots, pool).threads, slots);
  }
}
