/** Fork identifiers: a hash of the activation points passed so far, and the next one. */
module ForkId {
  import opened Wrappers

  datatype Condition =
    | Block(block: nat)
    | TTD(activationBlock: nat, totalDifficulty: nat, forkBlock: Option<nat>)
    | Timestamp(time: nat)
    | Never

  datatype Head = Head(number: nat, timestamp: nat, totalDifficulty: nat)

  /** The checksum as the data it was folded from: the genesis hash and then each point. */
  datatype ForkHash = ForkHash(genesis: nat, applied: seq<nat>)

  datatype ForkIdentifier = ForkIdentifier(hash: ForkHash, next: nat)

  // ---- Activation points ----

  datatype Point = AtBlock(value: nat) | AtTime(value: nat)

  predicate Active(p: Point, head: Head) {
    match p
    case AtBlock(n) => head.number >= n
    case AtTime(t) => head.timestamp >= t
  }

  /** Block forks, and a merge with a known block, activate at a block. */
  function BlockOf(cond: Condition): Option<nat> {
    match cond
    case Block(n) => Some(n)
    case TTD(_, _, forkBlock) => forkBlock
    case _ => None
  }

  /** The activation blocks in list order. */
  function BlockPoints(forks: seq<Condition>): seq<nat> {
    if forks == [] then [] else
      var rest := BlockPoints(forks[1..]);
      if BlockOf(forks[0]).Some? then [BlockOf(forks[0]).value] + rest else rest
  }

  /** The activation times after genesis, in list order. */
  function TimePoints(forks: seq<Condition>, genesisTime: nat): seq<nat> {
    if forks == [] then [] else
      var rest := TimePoints(forks[1..], genesisTime);
      match forks[0]
      case Timestamp(t) => if t > genesisTime then [t] + rest else rest
      case _ => rest
  }

  function Blocks(ns: seq<nat>): (ps: seq<Point>)
    ensures |ps| == |ns|
  {
    seq(|ns|, i requires 0 <= i < |ns| => AtBlock(ns[i]))
  }

  function Times(ts: seq<nat>): (ps: seq<Point>)
    ensures |ps| == |ts|
  {
    seq(|ts|, i requires 0 <= i < |ts| => AtTime(ts[i]))
  }

  function Points(forks: seq<Condition>, genesisTime: nat): seq<Point> {
    Blocks(BlockPoints(forks)) + Times(TimePoints(forks, genesisTime))
  }

  // ---- One walk over the points ----

  datatype Walked = Walked(applied: seq<nat>, next: nat)

  /** Folds in active points that differ from the last one folded in, up to the first inactive one. */
  function Walk(ps: seq<Point>, head: Head, current: nat): Walked {
    if ps == [] then Walked([], 0)
    else if !Active(ps[0], head) then Walked([], ps[0].value)
    else if ps[0].value == current then Walk(ps[1..], head, current)
    else
      var rest := Walk(ps[1..], head, ps[0].value);
      Walked([ps[0].value] + rest.applied, rest.next)
  }

  function After(applied: seq<nat>, rest: Walked): Walked {
    Walked(applied + rest.applied, rest.next)
  }

  lemma {:induction false} AfterOneMore(applied: seq<nat>, value: nat, rest: Walked)
    ensures After(applied, After([value], rest)) == After(applied + [value], rest)
  {
    assert applied + ([value] + rest.applied) == (applied + [value]) + rest.applied;
  }

  /** The two loops are one walk over blocks then times. */
  method ForkIdOf(forks: seq<Condition>, genesis: nat, genesisTime: nat, head: Head) returns (id: ForkIdentifier)
    ensures id.hash.genesis == genesis
    ensures Walked(id.hash.applied, id.next) == Walk(Points(forks, genesisTime), head, 0)
  {
    var forkhash := ForkHash(genesis, []);
    var current := 0;
    var stopped;
    BlocksFromIsPoints(forks, 0, Times(TimePoints(forks, genesisTime)));
    assert forks[0..] == forks;
    forkhash, current, stopped := ApplyBlocks(forks, forkhash, head, Times(TimePoints(forks, genesisTime)));
    if stopped.Some? { return ForkIdentifier(forkhash, stopped.value); }
    forkhash, stopped := ApplyTimes(forks, genesisTime, forkhash, current, head);
    id := ForkIdentifier(forkhash, if stopped.Some? then stopped.value else 0);
  }

  lemma {:induction false} TimesStep(forks: seq<Condition>, genesisTime: nat, i: nat)
    requires i < |forks|
    ensures Times(TimePoints(forks[i..], genesisTime)) ==
      if forks[i].Timestamp? && forks[i].time > genesisTime
      then [AtTime(forks[i].time)] + Times(TimePoints(forks[i + 1..], genesisTime))
      else Times(TimePoints(forks[i + 1..], genesisTime))
  {
    assert forks[i..][1..] == forks[i + 1..];
  }

  lemma {:induction false} WalkFirst(p: Point, ps: seq<Point>, head: Head, current: nat)
    ensures Walk([p] + ps, head, current) ==
      if !Active(p, head) then Walked([], p.value)
      else if p.value == current then Walk(ps, head, current)
      else After([p.value], Walk(ps, head, p.value))
  {
    assert ([p] + ps)[1..] == ps;
  }

  /** What the block loop still has to walk from index `i` on, with the times behind it. */
  function BlocksFrom(forks: seq<Condition>, i: nat, tail: seq<Point>): seq<Point>
    requires i <= |forks|
    decreases |forks| - i
  {
    if i == |forks| then tail
    else if BlockOf(forks[i]).Some? then [AtBlock(BlockOf(forks[i]).value)] + BlocksFrom(forks, i + 1, tail)
    else BlocksFrom(forks, i + 1, tail)
  }

  lemma {:induction false} BlocksFromIsPoints(forks: seq<Condition>, i: nat, tail: seq<Point>)
    requires i <= |forks|
    ensures BlocksFrom(forks, i, tail) == Blocks(BlockPoints(forks[i..])) + tail
    decreases |forks| - i
  {
    if i < |forks| {
      BlocksFromIsPoints(forks, i + 1, tail);
      assert forks[i..][1..] == forks[i + 1..];
    }
  }

  /** The loop over block forks: either it stops at the first inactive one, or what is left to do is
      the walk over `tail`. */
  method ApplyBlocks(forks: seq<Condition>, initial: ForkHash, head: Head, ghost tail: seq<Point>)
    returns (forkhash: ForkHash, current: nat, stopped: Option<nat>)
    requires initial.applied == []
    ensures forkhash.genesis == initial.genesis
    ensures Walk(BlocksFrom(forks, 0, tail), head, 0) ==
      if stopped.Some? then Walked(forkhash.applied, stopped.value)
      else After(forkhash.applied, Walk(tail, head, current))
  {
    forkhash, current, stopped := initial, 0, None;
    ghost var all := Walk(BlocksFrom(forks, 0, tail), head, 0);
    for i := 0 to |forks|
      invariant forkhash.genesis == initial.genesis
      invariant all == After(forkhash.applied, Walk(BlocksFrom(forks, i, tail), head, current))
    {
      var block := BlockOf(forks[i]);
      if block.Some? {
        WalkFirst(AtBlock(block.value), BlocksFrom(forks, i + 1, tail), head, current);
        if head.number >= block.value {
          if block.value != current {
            AfterOneMore(forkhash.applied, block.value, Walk(BlocksFrom(forks, i + 1, tail), head, block.value));
            forkhash := forkhash.(applied := forkhash.applied + [block.value]);
            current := block.value;
          }
        } else {
          return forkhash, current, Some(block.value);
        }
      }
    }
  }

  method ApplyTimes(forks: seq<Condition>, genesisTime: nat, initial: ForkHash, current0: nat, head: Head)
    returns (forkhash: ForkHash, stopped: Option<nat>)
    ensures forkhash.genesis == initial.genesis
    ensures After(initial.applied, Walk(Times(TimePoints(forks, genesisTime)), head, current0)) ==
      Walked(forkhash.applied, if stopped.Some? then stopped.value else 0)
  {
    forkhash, stopped := initial, None;
    var current := current0;
    ghost var all := After(initial.applied, Walk(Times(TimePoints(forks, genesisTime)), head, current0));
    assert forks[0..] == forks;
    for i := 0 to |forks|
      invariant forkhash.genesis == initial.genesis
      invariant all == After(forkhash.applied, Walk(Times(TimePoints(forks[i..], genesisTime)), head, current))
    {
      TimesStep(forks, genesisTime, i);
      if forks[i].Timestamp? && forks[i].time > genesisTime {
        var t := forks[i].time;
        WalkFirst(AtTime(t), Times(TimePoints(forks[i + 1..], genesisTime)), head, current);
        if head.timestamp >= t {
          if t != current {
            AfterOneMore(forkhash.applied, t, Walk(Times(TimePoints(forks[i + 1..], genesisTime)), head, t));
            forkhash := forkhash.(applied := forkhash.applied + [t]);
            current := t;
          }
        } else {
          return forkhash, Some(t);
        }
      }
    }
  }

  // ---- Larger heads ----

  /** Whatever the list, a later head folds in at least the same points, in the same order. */
  lemma {:induction false} LaterHeadExtends(ps: seq<Point>, head: Head, later: Head, current: nat)
    requires head.number <= later.number && head.timestamp <= later.timestamp
    ensures Walk(ps, head, current).applied <= Walk(ps, later, current).applied
  {
    if ps != [] && Active(ps[0], head) {
      LaterHeadExtends(ps[1..], head, later, ps[0].value);
    }
  }

  // ---- The identifier as the standard defines it ----

  predicate Ascending(ns: seq<nat>) {
    forall i, j :: 0 <= i < j < |ns| ==> ns[i] <= ns[j]
  }

  predicate StrictlyAscending(ns: seq<nat>) {
    forall i, j :: 0 <= i < j < |ns| ==> ns[i] < ns[j]
  }

  /** `ns` lists the values of `raw` other than `except`, each once, in ascending order. */
  ghost predicate Lists(ns: seq<nat>, raw: seq<nat>, except: nat) {
    StrictlyAscending(ns) && forall v :: v in ns <==> v in raw && v != except
  }

  function LeadingActive(ps: seq<Point>, head: Head): (k: nat)
    ensures k <= |ps| && forall i :: 0 <= i < k ==> Active(ps[i], head)
    ensures k < |ps| ==> !Active(ps[k], head)
  {
    if ps == [] || !Active(ps[0], head) then 0 else 1 + LeadingActive(ps[1..], head)
  }

  function Values(ps: seq<Point>): (r: seq<nat>)
    ensures |r| == |ps|
  {
    seq(|ps|, i requires 0 <= i < |ps| => ps[i].value)
  }

  /** All active points before the first inactive one, and that one's value, or 0. */
  function Canonical(ps: seq<Point>, head: Head): Walked {
    var k := LeadingActive(ps, head);
    Walked(Values(ps[..k]), if k < |ps| then ps[k].value else 0)
  }

  function Dedup(ns: seq<nat>, current: nat): seq<nat> {
    if ns == [] then []
    else if ns[0] == current then Dedup(ns[1..], current)
    else [ns[0]] + Dedup(ns[1..], ns[0])
  }

  lemma {:induction false} DedupLists(ns: seq<nat>, current: nat)
    requires Ascending(ns) && forall i :: 0 <= i < |ns| ==> current <= ns[i]
    ensures Lists(Dedup(ns, current), ns, current)
    ensures forall i :: 0 <= i < |Dedup(ns, current)| ==> current < Dedup(ns, current)[i]
  {
    if ns != [] {
      assert ns == [ns[0]] + ns[1..];
      DedupLists(ns[1..], ns[0]);
    }
  }

  lemma {:induction false} ListsIsUnique(a: seq<nat>, b: seq<nat>)
    requires StrictlyAscending(a) && StrictlyAscending(b) && forall v :: v in a <==> v in b
    ensures a == b
  {
    assert a == [] || a[0] in a;
    assert b == [] || b[0] in b;
    if a != [] {
      var j :| 0 <= j < |b| && b[j] == a[0];
      var i :| 0 <= i < |a| && a[i] == b[0];
      assert i == 0 && j == 0;
      forall v ensures v in a[1..] <==> v in b[1..] { TailMembers(a, v); TailMembers(b, v); }
      ListsIsUnique(a[1..], b[1..]);
      assert a == [a[0]] + a[1..] && b == [b[0]] + b[1..];
    }
  }

  lemma {:induction false} TailMembers(a: seq<nat>, v: nat)
    requires StrictlyAscending(a) && a != []
    ensures v in a[1..] <==> v in a && v != a[0]
  {
    if v in a && v != a[0] {
      var i :| 0 <= i < |a| && a[i] == v;
      assert a[1..][i - 1] == v;
    }
  }

  // ---- Walk and canonical form agree ----

  lemma {:induction false} CanonicalFirst(p: Point, ps: seq<Point>, head: Head)
    ensures Canonical([p] + ps, head) ==
      if !Active(p, head) then Walked([], p.value) else After([p.value], Canonical(ps, head))
  {
    var all, k := [p] + ps, LeadingActive([p] + ps, head);
    assert all[1..] == ps;
    if Active(p, head) {
      assert all[..k] == [p] + ps[..k - 1];
      assert Values(all[..k]) == [p.value] + Values(ps[..k - 1]);
    } else {
      assert Values(all[..0]) == [];
    }
  }

  /** Blocks with repetitions walk like the list without them, into any list of later points. */
  lemma {:induction false} BlocksWalk(ns: seq<nat>, tail: seq<Point>, head: Head, current: nat)
    requires head.number >= current
    ensures var last := if Dedup(ns, current) == [] then current else Dedup(ns, current)[|Dedup(ns, current)| - 1];
            Walk(Blocks(ns) + tail, head, current) ==
              Rewalked(Dedup(ns, current), Walk(tail, head, last), head)
  {
    if ns == [] {
      assert Blocks(ns) + tail == tail;
    } else {
      assert Blocks(ns) + tail == [AtBlock(ns[0])] + (Blocks(ns[1..]) + tail);
      WalkFirst(AtBlock(ns[0]), Blocks(ns[1..]) + tail, head, current);
      if head.number >= ns[0] { BlocksWalk(ns[1..], tail, head, ns[0]); }
    }
  }

  /** The walk over distinct blocks, continuing as `rest` once all are active. */
  function Rewalked(ns: seq<nat>, rest: Walked, head: Head): Walked {
    if ns == [] then rest
    else if head.number < ns[0] then Walked([], ns[0])
    else After([ns[0]], Rewalked(ns[1..], rest, head))
  }

  lemma {:induction false} RewalkedCanonical(ns: seq<nat>, tail: seq<Point>, head: Head)
    ensures Rewalked(ns, Canonical(tail, head), head) == Canonical(Blocks(ns) + tail, head)
  {
    if ns == [] {
      assert Blocks(ns) + tail == tail;
    } else {
      assert Blocks(ns) + tail == [AtBlock(ns[0])] + (Blocks(ns[1..]) + tail);
      CanonicalFirst(AtBlock(ns[0]), Blocks(ns[1..]) + tail, head);
      RewalkedCanonical(ns[1..], tail, head);
    }
  }

  predicate AllReached(ns: seq<nat>, head: Head) {
    ns == [] || head.number >= ns[|ns| - 1]
  }

  /** What follows the blocks matters exactly when all of them have been reached. */
  lemma {:induction false} RewalkedInjective(ns: seq<nat>, a: Walked, b: Walked, head: Head)
    requires StrictlyAscending(ns)
    ensures Rewalked(ns, a, head) == Rewalked(ns, b, head) <==> a == b || !AllReached(ns, head)
  {
    if ns != [] && head.number >= ns[0] {
      RewalkedInjective(ns[1..], a, b, head);
      assert AllReached(ns[1..], head) == AllReached(ns, head);
      var x, y := Rewalked(ns[1..], a, head), Rewalked(ns[1..], b, head);
      assert ([ns[0]] + x.applied)[1..] == x.applied && ([ns[0]] + y.applied)[1..] == y.applied;
    }
  }

  lemma {:induction false} TimesFirst(t: nat, ts: seq<nat>, head: Head)
    ensures Canonical(Times([t] + ts), head) ==
      if head.timestamp >= t then After([t], Canonical(Times(ts), head)) else Walked([], t)
  {
    assert Times([t] + ts) == [AtTime(t)] + Times(ts);
    CanonicalFirst(AtTime(t), Times(ts), head);
  }

  lemma {:induction false} TimesWalk(ts: seq<nat>, head: Head, current: nat)
    requires ts != [] && ts[0] == current ==> head.timestamp >= current
    ensures Walk(Times(ts), head, current) == Canonical(Times(Dedup(ts, current)), head)
  {
    if ts != [] {
      assert Times(ts) == [AtTime(ts[0])] + Times(ts[1..]);
      WalkFirst(AtTime(ts[0]), Times(ts[1..]), head, current);
      if head.timestamp >= ts[0] { TimesWalk(ts[1..], head, ts[0]); }
      if ts[0] != current { TimesFirst(ts[0], Dedup(ts[1..], ts[0]), head); }
    }
  }

  /** Starting the times from `last` instead of afresh makes a difference exactly when the first time
      equals `last` and is active. */
  lemma {:induction false} TimesAfter(ts: seq<nat>, head: Head, last: nat)
    requires forall i :: 0 <= i < |ts| ==> ts[i] > 0
    ensures Walk(Times(ts), head, last) == Canonical(Times(Dedup(ts, 0)), head) <==>
      !(ts != [] && ts[0] == last && head.timestamp >= last)
  {
    TimesWalk(ts, head, 0);
    if ts != [] {
      assert Times(ts) == [AtTime(ts[0])] + Times(ts[1..]);
      WalkFirst(AtTime(ts[0]), Times(ts[1..]), head, last);
      WalkFirst(AtTime(ts[0]), Times(ts[1..]), head, 0);
    }
  }

  /** The first activation time repeats the last activation block, and the head has passed both. */
  predicate Swallows(blocks: seq<nat>, times: seq<nat>, head: Head) {
    && blocks != [] && times != []
    && blocks[|blocks| - 1] == times[0]
    && head.number >= times[0] && head.timestamp >= times[0]
  }

  lemma {:induction false} TimePointsAreLate(forks: seq<Condition>, genesisTime: nat)
    ensures forall i :: 0 <= i < |TimePoints(forks, genesisTime)| ==> TimePoints(forks, genesisTime)[i] > genesisTime
  {
    if forks != [] { TimePointsAreLate(forks[1..], genesisTime); }
  }

  lemma {:induction false} ListsIsDedup(ns: seq<nat>, raw: seq<nat>)
    requires Ascending(raw) && Lists(ns, raw, 0)
    ensures ns == Dedup(raw, 0) && StrictlyAscending(ns)
  {
    DedupLists(raw, 0);
    ListsIsUnique(ns, Dedup(raw, 0));
  }

  /** Past all blocks the times walk differently exactly when the first one is swallowed. */
  lemma {:induction false} SwallowedTime(blocks: seq<nat>, ts: seq<nat>, head: Head)
    requires forall i :: 0 <= i < |ts| ==> ts[i] > 0
    ensures var last := if blocks == [] then 0 else blocks[|blocks| - 1];
            Walk(Times(ts), head, last) == Canonical(Times(Dedup(ts, 0)), head) || !AllReached(blocks, head) <==>
            !Swallows(blocks, Dedup(ts, 0), head)
  {
    TimesAfter(ts, head, if blocks == [] then 0 else blocks[|blocks| - 1]);
    assert ts != [] ==> ts[0] == Dedup(ts, 0)[0];
  }

  lemma {:induction false} WalkIsCanonicalIff(ns: seq<nat>, ts: seq<nat>, head: Head)
    requires StrictlyAscending(Dedup(ns, 0)) && forall i :: 0 <= i < |ts| ==> ts[i] > 0
    ensures Walk(Blocks(ns) + Times(ts), head, 0) == Canonical(Blocks(Dedup(ns, 0)) + Times(Dedup(ts, 0)), head) <==>
      !Swallows(Dedup(ns, 0), Dedup(ts, 0), head)
  {
    var blocks, times := Dedup(ns, 0), Dedup(ts, 0);
    var last := if blocks == [] then 0 else blocks[|blocks| - 1];
    var a, b := Walk(Times(ts), head, last), Canonical(Times(times), head);
    BlocksWalk(ns, Times(ts), head, 0);
    RewalkedCanonical(blocks, Times(times), head);
    RewalkedInjective(blocks, a, b, head);
    SwallowedTime(blocks, ts, head);
  }

  /** On ascending forks the walk is the identifier of EIP-2124 and EIP-6122, for every head except
      those that have passed a time equal to the last block. */
  lemma {:induction false} ForkIdIsCanonicalIff(
    forks: seq<Condition>, genesisTime: nat, head: Head, blocks: seq<nat>, times: seq<nat>)
    requires Ascending(BlockPoints(forks)) && Ascending(TimePoints(forks, genesisTime))
    requires Lists(blocks, BlockPoints(forks), 0) && Lists(times, TimePoints(forks, genesisTime), 0)
    ensures Walk(Points(forks, genesisTime), head, 0) == Canonical(Blocks(blocks) + Times(times), head) <==>
      !Swallows(blocks, times, head)
  {
    TimePointsAreLate(forks, genesisTime);
    ListsIsDedup(blocks, BlockPoints(forks));
    ListsIsDedup(times, TimePoints(forks, genesisTime));
    WalkIsCanonicalIff(BlockPoints(forks), TimePoints(forks, genesisTime), head);
  }

  /** The standard's identifier spelled out: with `i` of the blocks and `j` of the times reached, it has the
      reached blocks and the first one that is not; once all blocks are reached, also the reached times. */
  lemma {:induction false} CanonicalHasReachedPoints(
    blocks: seq<nat>, times: seq<nat>, head: Head, i: nat, j: nat)
    requires i <= |blocks| && (forall k :: 0 <= k < i ==> blocks[k] <= head.number)
    requires i < |blocks| ==> blocks[i] > head.number
    requires j <= |times| && (forall k :: 0 <= k < j ==> times[k] <= head.timestamp)
    requires j < |times| ==> times[j] > head.timestamp
    ensures Canonical(Blocks(blocks) + Times(times), head) ==
      if i < |blocks| then Walked(blocks[..i], blocks[i])
      else Walked(blocks + times[..j], if j < |times| then times[j] else 0)
  {
    var ps := Blocks(blocks) + Times(times);
    var n := if i < |blocks| then i else i + j;
    assert forall k :: 0 <= k < n ==> Active(ps[k], head);
    assert n < |ps| ==> !Active(ps[n], head);
    assert LeadingActive(ps, head) == n;
    assert Values(ps[..n]) == if i < |blocks| then blocks[..i] else blocks + times[..j];
  }

  /** A block fork and a time fork at the same value: a head past both lacks the second. */
  lemma {:induction false} RepeatedValueIsSwallowed()
    ensures var forks, head := [Block(5), Timestamp(5)], Head(5, 5, 0);
            && Walk(Points(forks, 0), head, 0) == Walked([5], 0)
            && Canonical([AtBlock(5), AtTime(5)], head) == Walked([5, 5], 0)
  {
    var forks, head := [Block(5), Timestamp(5)], Head(5, 5, 0);
    assert forks[1..] == [Timestamp(5)] && forks[1..][1..] == [];
    assert BlockPoints(forks) == [5] && TimePoints(forks, 0) == [5];
    var ps := [AtBlock(5), AtTime(5)];
    assert Points(forks, 0) == ps;
    assert ps[1..] == [AtTime(5)] && ps[1..][1..] == [];
    assert LeadingActive(ps, head) == 2 && ps[..2] == ps;
  }
}
