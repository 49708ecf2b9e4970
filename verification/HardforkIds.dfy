/** The identifier of a named fork, and the order in which a genesis file's forks are configured. */
module HardforkIds {
  import opened Wrappers
  import opened ForkId

  // ---- A head that satisfies a condition ----

  /** The block of the last fork before the merge or the first timestamp, looking one entry ahead. */
  function LastBlock(forks: seq<Condition>): Option<nat> {
    if |forks| < 2 then None
    else match forks[1]
      case TTD(_, _, Some(n)) => Some(n)
      case TTD(_, _, None) => if forks[0].Block? then Some(forks[0].block) else LastBlock(forks[1..])
      case Timestamp(_) => if forks[0].Block? then Some(forks[0].block) else LastBlock(forks[1..])
      case _ => LastBlock(forks[1..])
  }

  method LastBlockForkBeforeMergeOrTimestamp(forks: seq<Condition>) returns (r: Option<nat>)
    ensures r == LastBlock(forks)
  {
    var i := 0;
    assert forks[0..] == forks;
    while i < |forks|
      invariant 0 <= i <= |forks| && LastBlock(forks) == LastBlock(forks[i..])
    {
      if i + 1 < |forks| {
        match forks[i + 1] {
          case TTD(_, _, Some(n)) => return Some(n);
          case TTD(_, _, None) => if forks[i].Block? { return Some(forks[i].block); }
          case Timestamp(_) => if forks[i].Block? { return Some(forks[i].block); }
          case _ =>
        }
      }
      assert forks[i..][1..] == forks[i + 1..];
      i := i + 1;
    }
    r := None;
  }

  function Satisfy(forks: seq<Condition>, cond: Condition): Head
    requires !cond.Never?
  {
    match cond
    case Block(n) => Head(n, 0, 0)
    case Timestamp(t) => Head(LastBlock(forks).GetOr(0), t, 0)
    case TTD(_, difficulty, forkBlock) => Head(forkBlock.GetOr(0), 0, difficulty)
  }

  method HardforkForkId(
    forks: seq<Condition>, cond: Condition, genesis: nat, genesisTime: nat)
    returns (r: Option<ForkIdentifier>)
    ensures r == None <==> cond.Never?
    ensures r.Some? ==> r.value.hash.genesis == genesis
    ensures r.Some? ==>
      Walked(r.value.hash.applied, r.value.next) == Walk(Points(forks, genesisTime), Satisfy(forks, cond), 0)
  {
    if cond.Never? { return None; }
    var id := ForkIdOf(forks, genesis, genesisTime, Satisfy(forks, cond));
    r := Some(id);
  }

  // ---- Lists of blocks, then perhaps a merge, then times ----

  function BlockForks(ns: seq<nat>): (r: seq<Condition>)
    ensures |r| == |ns|
  {
    if ns == [] then [] else [Block(ns[0])] + BlockForks(ns[1..])
  }

  function TimeForks(ts: seq<nat>): (r: seq<Condition>)
    ensures |r| == |ts|
  {
    if ts == [] then [] else [Timestamp(ts[0])] + TimeForks(ts[1..])
  }

  /** At most one merge entry. */
  predicate IsMerge(merge: seq<Condition>) {
    |merge| <= 1 && (merge != [] ==> merge[0].TTD?)
  }

  function MergeBlock(merge: seq<Condition>): Option<nat>
    requires IsMerge(merge)
  {
    if merge == [] then None else merge[0].forkBlock
  }

  function Forks(ns: seq<nat>, merge: seq<Condition>, ts: seq<nat>): seq<Condition> {
    BlockForks(ns) + (merge + TimeForks(ts))
  }

  lemma {:induction false} ForksTail(ns: seq<nat>, merge: seq<Condition>, ts: seq<nat>)
    requires ns != []
    ensures Forks(ns, merge, ts) == [Block(ns[0])] + Forks(ns[1..], merge, ts)
    ensures Forks(ns, merge, ts)[1..] == Forks(ns[1..], merge, ts)
  {
  }

  lemma {:induction false} LastBlockStep(c: Condition, rest: seq<Condition>)
    requires rest != []
    ensures LastBlock([c] + rest) ==
      if rest[0].TTD? && rest[0].forkBlock.Some? then rest[0].forkBlock
      else if (rest[0].TTD? || rest[0].Timestamp?) && c.Block? then Some(c.block)
      else LastBlock(rest)
  {
    assert ([c] + rest)[1..] == rest;
  }

  lemma {:induction false} TimesHaveNoLastBlock(ts: seq<nat>)
    ensures LastBlock(TimeForks(ts)) == None
  {
    if |ts| >= 2 {
      LastBlockStep(Timestamp(ts[0]), TimeForks(ts[1..]));
      TimesHaveNoLastBlock(ts[1..]);
    }
  }

  lemma {:induction false} LastBlockAtMerge(merge: seq<Condition>, ts: seq<nat>)
    requires IsMerge(merge) && ts != []
    ensures LastBlock(merge + TimeForks(ts)) == None
  {
    TimesHaveNoLastBlock(ts);
    if merge == [] {
      assert merge + TimeForks(ts) == TimeForks(ts);
    } else {
      assert merge + TimeForks(ts) == [merge[0]] + TimeForks(ts);
      LastBlockStep(merge[0], TimeForks(ts));
    }
  }

  /** With a block fork in front, the look-ahead finds the merge block, or else the last block fork;
      a merge that comes first is never looked at. */
  lemma {:induction false} LastBlockOfForks(ns: seq<nat>, merge: seq<Condition>, ts: seq<nat>)
    requires IsMerge(merge) && ts != []
    ensures LastBlock(Forks(ns, merge, ts)) ==
      if ns == [] then None else if MergeBlock(merge).Some? then MergeBlock(merge) else Some(ns[|ns| - 1])
  {
    if ns == [] {
      LastBlockAtMerge(merge, ts);
      assert Forks(ns, merge, ts) == merge + TimeForks(ts);
    } else {
      ForksTail(ns, merge, ts);
      LastBlockStep(Block(ns[0]), Forks(ns[1..], merge, ts));
      if |ns| >= 2 {
        ForksTail(ns[1..], merge, ts);
        LastBlockOfForks(ns[1..], merge, ts);
      } else {
        assert Forks(ns[1..], merge, ts) == merge + TimeForks(ts);
      }
    }
  }

  lemma {:induction false} TimesHaveNoBlocks(ts: seq<nat>)
    ensures BlockPoints(TimeForks(ts)) == []
  {
    if ts != [] {
      assert TimeForks(ts)[1..] == TimeForks(ts[1..]);
      TimesHaveNoBlocks(ts[1..]);
    }
  }

  lemma {:induction false} TimesOf(ts: seq<nat>, genesisTime: nat)
    ensures forall t :: t in TimePoints(TimeForks(ts), genesisTime) <==> t in ts && t > genesisTime
  {
    if ts != [] {
      assert TimeForks(ts)[1..] == TimeForks(ts[1..]);
      assert ts == [ts[0]] + ts[1..];
      TimesOf(ts[1..], genesisTime);
    }
  }

  lemma {:induction false} TimesAscend(ts: seq<nat>, genesisTime: nat)
    requires Ascending(ts)
    ensures Ascending(TimePoints(TimeForks(ts), genesisTime))
  {
    if ts != [] {
      assert TimeForks(ts)[1..] == TimeForks(ts[1..]);
      TimesAscend(ts[1..], genesisTime);
      TimesOf(ts[1..], genesisTime);
      var rest := TimePoints(TimeForks(ts[1..]), genesisTime);
      forall i | 0 <= i < |rest| ensures ts[0] <= rest[i] { assert rest[i] in rest; }
    }
  }

  lemma {:induction false} PointsOfForks(ns: seq<nat>, merge: seq<Condition>, ts: seq<nat>, genesisTime: nat)
    requires IsMerge(merge)
    ensures BlockPoints(Forks(ns, merge, ts)) == ns + if MergeBlock(merge).Some? then [MergeBlock(merge).value] else []
    ensures TimePoints(Forks(ns, merge, ts), genesisTime) == TimePoints(TimeForks(ts), genesisTime)
  {
    var forks := Forks(ns, merge, ts);
    if ns != [] {
      ForksTail(ns, merge, ts);
      PointsOfForks(ns[1..], merge, ts, genesisTime);
      assert ns == [ns[0]] + ns[1..];
    } else {
      TimesHaveNoBlocks(ts);
      if merge == [] {
        assert forks == TimeForks(ts);
      } else {
        assert forks == [merge[0]] + TimeForks(ts);
        assert forks[1..] == TimeForks(ts);
      }
    }
  }

  // ---- Which points a walk folds in ----

  lemma {:induction false} SameActivitySameWalk(ps: seq<Point>, a: Head, b: Head, current: nat)
    requires forall i :: 0 <= i < |ps| ==> Active(ps[i], a) == Active(ps[i], b)
    ensures Walk(ps, a, current) == Walk(ps, b, current)
  {
    if ps != [] { SameActivitySameWalk(ps[1..], a, b, ps[0].value); }
  }

  lemma {:induction false} SameActivity(forks: seq<Condition>, genesisTime: nat, a: Head, b: Head)
    requires a.timestamp == b.timestamp
    requires forall n :: n in BlockPoints(forks) ==> n <= a.number && n <= b.number
    ensures Walk(Points(forks, genesisTime), a, 0) == Walk(Points(forks, genesisTime), b, 0)
  {
    var ns, ps := BlockPoints(forks), Points(forks, genesisTime);
    forall i | 0 <= i < |ps| ensures Active(ps[i], a) == Active(ps[i], b) {
      if i < |ns| { assert ps[i] == AtBlock(ns[i]) && ns[i] in ns; }
    }
    SameActivitySameWalk(ps, a, b, 0);
  }

  lemma {:induction false} ReachedIsFoldedIn(ps: seq<Point>, head: Head, current: nat, i: nat)
    requires i < |ps| && forall j :: 0 <= j <= i ==> Active(ps[j], head)
    ensures ps[i].value in Walk(ps, head, current).applied || ps[i].value == current
  {
    if i > 0 { ReachedIsFoldedIn(ps[1..], head, ps[0].value, i - 1); }
  }

  /** The look-ahead clears every block fork, unless the list starts with a merge at a positive block. */
  predicate Clears(ns: seq<nat>, merge: seq<Condition>)
    requires IsMerge(merge)
  {
    ns != [] || MergeBlock(merge).GetOr(0) == 0
  }

  predicate Ordered(ns: seq<nat>, merge: seq<Condition>, ts: seq<nat>)
    requires IsMerge(merge)
  {
    && Ascending(ns) && Ascending(ts)
    && (ns != [] && MergeBlock(merge).Some? ==> ns[|ns| - 1] <= MergeBlock(merge).value)
  }

  lemma {:induction false} AscendingEnd(ns: seq<nat>, end: seq<nat>)
    requires Ascending(ns) && |end| <= 1 && (ns != [] && end != [] ==> ns[|ns| - 1] <= end[0])
    ensures Ascending(ns + end)
    ensures forall v :: v in ns + end ==> v <= (ns + end)[|ns + end| - 1]
  {
    var all := ns + end;
    forall i, j | 0 <= i < j < |all| ensures all[i] <= all[j] {
      if i < |ns| { assert all[i] == ns[i] <= ns[|ns| - 1]; }
    }
  }

  lemma {:induction false} EndIsLast(ns: seq<nat>, end: seq<nat>, n: nat)
    requires Ascending(ns) && |end| <= 1 && (ns != [] && end != [] ==> ns[|ns| - 1] <= end[0])
    requires n in ns + end && (ns == [] && end != [] ==> end[0] == 0)
    ensures n <= if ns == [] then 0 else if end != [] then end[0] else ns[|ns| - 1]
  {
    AscendingEnd(ns, end);
  }

  lemma {:induction false} ClearsAllBlocks(ns: seq<nat>, merge: seq<Condition>, ts: seq<nat>, n: nat)
    requires IsMerge(merge) && Ordered(ns, merge, ts) && ts != [] && Clears(ns, merge)
    requires n in BlockPoints(Forks(ns, merge, ts))
    ensures n <= LastBlock(Forks(ns, merge, ts)).GetOr(0)
  {
    LastBlockOfForks(ns, merge, ts);
    PointsOfForks(ns, merge, ts, 0);
    EndIsLast(ns, if MergeBlock(merge).Some? then [MergeBlock(merge).value] else [], n);
  }

  /** The identifier of a timestamp fork is the one every head at that time past the blocks has,
      exactly when the look-ahead clears the block forks; then the value `t` is among those folded in,
      as a time or as an equal block, and otherwise the identifier stops before the merge. */
  lemma {:induction false} TimestampForkId(
    ns: seq<nat>, merge: seq<Condition>, ts: seq<nat>, genesisTime: nat, t: nat, number: nat)
    requires IsMerge(merge) && Ordered(ns, merge, ts) && t in ts && t > genesisTime
    requires forall n :: n in BlockPoints(Forks(ns, merge, ts)) ==> n <= number
    ensures var forks := Forks(ns, merge, ts);
            var id := Walk(Points(forks, genesisTime), Satisfy(forks, Timestamp(t)), 0);
            && (id == Walk(Points(forks, genesisTime), Head(number, t, 0), 0) <==> Clears(ns, merge))
            && (t in id.applied <==> Clears(ns, merge))
            && (!Clears(ns, merge) ==> id == Walked([], MergeBlock(merge).value))
  {
    var forks := Forks(ns, merge, ts);
    PointsOfForks(ns, merge, ts, genesisTime);
    TimesOf(ts, genesisTime);
    TimesAscend(ts, genesisTime);
    LastBlockOfForks(ns, merge, ts);
    if Clears(ns, merge) {
      forall n | n in BlockPoints(forks) ensures n <= LastBlock(forks).GetOr(0) { ClearsAllBlocks(ns, merge, ts, n); }
      TimestampIsFoldedIn(forks, genesisTime, Satisfy(forks, Timestamp(t)), t);
      SameActivity(forks, genesisTime, Satisfy(forks, Timestamp(t)), Head(number, t, 0));
    } else {
      assert Points(forks, genesisTime)[0] == AtBlock(MergeBlock(merge).value);
      assert MergeBlock(merge).value in BlockPoints(forks);
    }
  }

  lemma {:induction false} TimestampIsFoldedIn(forks: seq<Condition>, genesisTime: nat, head: Head, t: nat)
    requires forall n :: n in BlockPoints(forks) ==> n <= head.number
    requires Ascending(TimePoints(forks, genesisTime)) && t in TimePoints(forks, genesisTime)
    requires head.timestamp == t > 0
    ensures t in Walk(Points(forks, genesisTime), head, 0).applied
  {
    var ns, ts := BlockPoints(forks), TimePoints(forks, genesisTime);
    var k :| 0 <= k < |ts| && ts[k] == t;
    var ps := Points(forks, genesisTime);
    forall j | 0 <= j <= |ns| + k ensures Active(ps[j], head) {
      if j < |ns| { assert ps[j] == AtBlock(ns[j]) && ns[j] in ns; } else { assert ps[j] == AtTime(ts[j - |ns|]); }
    }
    ReachedIsFoldedIn(ps, head, 0, |ns| + k);
  }

  /** It is the identifier of EIP-2124 and EIP-6122 for that time exactly when the look-ahead clears
      the block forks and the first time is not the value of the last block. */
  lemma {:induction false} TimestampForkIdIsCanonicalIff(
    ns: seq<nat>, merge: seq<Condition>, ts: seq<nat>, genesisTime: nat, t: nat, number: nat,
    blocks: seq<nat>, times: seq<nat>)
    requires IsMerge(merge) && Ordered(ns, merge, ts) && t in ts && t > genesisTime
    requires forall n :: n in BlockPoints(Forks(ns, merge, ts)) ==> n <= number
    requires Lists(blocks, BlockPoints(Forks(ns, merge, ts)), 0)
    requires Lists(times, TimePoints(Forks(ns, merge, ts), genesisTime), 0)
    ensures var forks, head := Forks(ns, merge, ts), Head(number, t, 0);
            Walk(Points(forks, genesisTime), Satisfy(forks, Timestamp(t)), 0)
              == Canonical(Blocks(blocks) + Times(times), head) <==>
            Clears(ns, merge) && !Swallows(blocks, times, head)
  {
    var forks, head := Forks(ns, merge, ts), Head(number, t, 0);
    PointsOfForks(ns, merge, ts, genesisTime);
    TimesAscend(ts, genesisTime);
    TimestampForkId(ns, merge, ts, genesisTime, t, number);
    ForkIdIsCanonicalIff(forks, genesisTime, head, blocks, times);
    if !Clears(ns, merge) {
      assert BlockPoints(forks) == [MergeBlock(merge).value];
      FirstBlockIsFoldedIn(blocks, Times(times), head, MergeBlock(merge).value);
    }
  }

  lemma {:induction false} ForksAscend(ns: seq<nat>, merge: seq<Condition>, ts: seq<nat>, genesisTime: nat)
    requires IsMerge(merge) && Ordered(ns, merge, ts)
    ensures Ascending(BlockPoints(Forks(ns, merge, ts))) && Ascending(TimePoints(Forks(ns, merge, ts), genesisTime))
  {
    PointsOfForks(ns, merge, ts, genesisTime);
    TimesAscend(ts, genesisTime);
    AscendingEnd(ns, if MergeBlock(merge).Some? then [MergeBlock(merge).value] else []);
  }

  lemma {:induction false} BlockIsFoldedIn(forks: seq<Condition>, genesisTime: nat, head: Head)
    requires Ascending(BlockPoints(forks)) && head.number in BlockPoints(forks)
    ensures head.number in Walk(Points(forks, genesisTime), head, 0).applied || head.number == 0
  {
    var points, ps := BlockPoints(forks), Points(forks, genesisTime);
    var i :| 0 <= i < |points| && points[i] == head.number;
    assert forall j :: 0 <= j <= i ==> ps[j] == AtBlock(points[j]);
    ReachedIsFoldedIn(ps, head, 0, i);
  }

  /** At timestamp 0 no time is passed, so on ascending forks the walk is the standard's identifier of the head,
      and it has folded in the positive block the head stands at. */
  lemma {:induction false} BlockHeadIsCanonical(
    ns: seq<nat>, merge: seq<Condition>, ts: seq<nat>, genesisTime: nat, head: Head,
    blocks: seq<nat>, times: seq<nat>)
    requires IsMerge(merge) && Ordered(ns, merge, ts) && head.timestamp == 0
    requires Lists(blocks, BlockPoints(Forks(ns, merge, ts)), 0)
    requires Lists(times, TimePoints(Forks(ns, merge, ts), genesisTime), 0)
    ensures var id := Walk(Points(Forks(ns, merge, ts), genesisTime), head, 0);
            && id == Canonical(Blocks(blocks) + Times(times), head)
            && (head.number in BlockPoints(Forks(ns, merge, ts)) && head.number > 0 ==> head.number in id.applied)
  {
    var forks := Forks(ns, merge, ts);
    ForksAscend(ns, merge, ts, genesisTime);
    ForkIdIsCanonicalIff(forks, genesisTime, head, blocks, times);
    assert times != [] ==> times[0] in times;
    if head.number in BlockPoints(forks) { BlockIsFoldedIn(forks, genesisTime, head); }
  }

  /** On ascending forks the identifier of a block fork is the standard's for a head at its block and at
      timestamp 0, and the block is among those folded in. */
  lemma {:induction false} BlockForkIdIsCanonical(
    ns: seq<nat>, merge: seq<Condition>, ts: seq<nat>, genesisTime: nat, n: nat, blocks: seq<nat>, times: seq<nat>)
    requires IsMerge(merge) && Ordered(ns, merge, ts) && n in ns
    requires Lists(blocks, BlockPoints(Forks(ns, merge, ts)), 0)
    requires Lists(times, TimePoints(Forks(ns, merge, ts), genesisTime), 0)
    ensures var forks := Forks(ns, merge, ts);
            var id := Walk(Points(forks, genesisTime), Satisfy(forks, Block(n)), 0);
            && id == Canonical(Blocks(blocks) + Times(times), Head(n, 0, 0))
            && (n > 0 ==> n in id.applied)
  {
    PointsOfForks(ns, merge, ts, genesisTime);
    BlockHeadIsCanonical(ns, merge, ts, genesisTime, Head(n, 0, 0), blocks, times);
  }

  /** On ascending forks the identifier of the merge is the standard's for a head at its fork block, or at
      block 0 when it has none. */
  lemma {:induction false} MergeForkIdIsCanonical(
    ns: seq<nat>, merge: Condition, ts: seq<nat>, genesisTime: nat, blocks: seq<nat>, times: seq<nat>)
    requires merge.TTD? && Ordered(ns, [merge], ts)
    requires Lists(blocks, BlockPoints(Forks(ns, [merge], ts)), 0)
    requires Lists(times, TimePoints(Forks(ns, [merge], ts), genesisTime), 0)
    ensures var forks := Forks(ns, [merge], ts);
            var id := Walk(Points(forks, genesisTime), Satisfy(forks, merge), 0);
            var m := if merge.forkBlock.Some? then merge.forkBlock.value else 0;
            && id == Canonical(Blocks(blocks) + Times(times), Head(m, 0, merge.totalDifficulty))
            && (m > 0 ==> m in id.applied)
  {
    PointsOfForks(ns, [merge], ts, genesisTime);
    var m := if merge.forkBlock.Some? then merge.forkBlock.value else 0;
    BlockHeadIsCanonical(ns, [merge], ts, genesisTime, Head(m, 0, merge.totalDifficulty), blocks, times);
  }

  lemma {:induction false} FirstBlockIsFoldedIn(blocks: seq<nat>, tail: seq<Point>, head: Head, n: nat)
    requires n in blocks && forall m :: m in blocks ==> m <= head.number
    ensures Canonical(Blocks(blocks) + tail, head).applied != []
  {
    assert blocks[0] in blocks;
    assert (Blocks(blocks) + tail)[0] == AtBlock(blocks[0]);
  }

  /** A merge at block 5 that leads the list, and a fork at time 9: the identifier of that fork stops
      before the merge, whereas a head past both has folded in both. */
  lemma {:induction false} LeadingMergeIsNotCleared()
    ensures var forks := [TTD(0, 0, Some(5)), Timestamp(9)];
            && Walk(Points(forks, 0), Satisfy(forks, Timestamp(9)), 0) == Walked([], 5)
            && Walk(Points(forks, 0), Head(5, 9, 0), 0) == Walked([5, 9], 0)
  {
    var forks := [TTD(0, 0, Some(5)), Timestamp(9)];
    assert forks[1..] == [Timestamp(9)] && forks[1..][1..] == [];
    assert LastBlock(forks) == None;
    assert BlockPoints(forks) == [5] && TimePoints(forks, 0) == [9];
    var ps := [AtBlock(5), AtTime(9)];
    assert Points(forks, 0) == ps;
    assert ps[1..] == [AtTime(9)] && ps[1..][1..] == [];
  }

  // ---- Configured forks in the known order ----

  datatype Fork = Fork(name: nat, condition: Condition)

  predicate DistinctNames(forks: seq<Fork>) {
    forall i, j :: 0 <= i < j < |forks| ==> forks[i].name != forks[j].name
  }

  predicate DistinctOrder(order: seq<nat>) {
    forall i, j :: 0 <= i < j < |order| ==> order[i] != order[j]
  }

  method Position(forks: seq<Fork>, name: nat) returns (r: Option<nat>)
    ensures r.Some? ==> r.value < |forks| && forks[r.value].name == name
    ensures r.Some? ==> forall i :: 0 <= i < r.value ==> forks[i].name != name
    ensures r == None ==> forall i :: 0 <= i < |forks| ==> forks[i].name != name
  {
    for i := 0 to |forks|
      invariant forall j :: 0 <= j < i ==> forks[j].name != name
    {
      if forks[i].name == name { return Some(i); }
    }
    r := None;
  }

  /** The forks called `name`. */
  function Named(forks: seq<Fork>, name: nat): seq<Fork> {
    if forks == [] then [] else
      var rest := Named(forks[1..], name);
      if forks[0].name == name then [forks[0]] + rest else rest
  }

  /** The configured forks in the order of the known names. */
  function Known(order: seq<nat>, forks: seq<Fork>): seq<Fork> {
    if order == [] then [] else Known(order[..|order| - 1], forks) + Named(forks, order[|order| - 1])
  }

  /** The configured forks with no known name, in their own order. */
  function Unknown(order: seq<nat>, forks: seq<Fork>): seq<Fork> {
    if forks == [] then [] else
      var rest := Unknown(order, forks[1..]);
      if forks[0].name in order then rest else [forks[0]] + rest
  }

  lemma {:induction false} NoneNamed(forks: seq<Fork>, name: nat)
    requires forall i :: 0 <= i < |forks| ==> forks[i].name != name
    ensures Named(forks, name) == [] && Unknown([name], forks) == forks
  {
    if forks != [] { NoneNamed(forks[1..], name); }
  }

  /** Taking out the entry at `pos` takes out all there is of its name. */
  lemma {:induction false} TakeOut(forks: seq<Fork>, pos: nat)
    requires DistinctNames(forks) && pos < |forks|
    ensures Named(forks, forks[pos].name) == [forks[pos]]
    ensures Unknown([forks[pos].name], forks) == forks[..pos] + forks[pos + 1..]
  {
    if pos == 0 {
      NoneNamed(forks[1..], forks[0].name);
    } else {
      TakeOut(forks[1..], pos - 1);
      assert forks[..pos] + forks[pos + 1..] == [forks[0]] + (forks[1..][..pos - 1] + forks[1..][pos..]);
    }
  }

  lemma {:induction false} UnknownAppend(order: seq<nat>, name: nat, forks: seq<Fork>)
    ensures Unknown([name], Unknown(order, forks)) == Unknown(order + [name], forks)
    ensures name !in order ==> Named(Unknown(order, forks), name) == Named(forks, name)
  {
    if forks != [] {
      UnknownAppend(order, name, forks[1..]);
      var rest := Unknown(order, forks[1..]);
      if forks[0].name !in order { assert ([forks[0]] + rest)[1..] == rest; }
    }
  }

  lemma {:induction false} UnknownFrom(order: seq<nat>, forks: seq<Fork>, f: Fork)
    ensures f in Unknown(order, forks) <==> f in forks && f.name !in order
  {
    if forks != [] {
      assert forks == [forks[0]] + forks[1..];
      UnknownFrom(order, forks[1..], f);
    }
  }

  lemma {:induction false} UnknownKeepsDistinct(order: seq<nat>, forks: seq<Fork>)
    requires DistinctNames(forks)
    ensures DistinctNames(Unknown(order, forks))
  {
    if forks != [] {
      UnknownKeepsDistinct(order, forks[1..]);
      var rest := Unknown(order, forks[1..]);
      forall i | 0 <= i < |rest| ensures rest[i].name != forks[0].name {
        UnknownFrom(order, forks[1..], rest[i]);
        assert rest[i] in forks[1..];
      }
    }
  }

  lemma {:induction false} NamedFrom(forks: seq<Fork>, name: nat, f: Fork)
    ensures f in Named(forks, name) <==> f in forks && f.name == name
  {
    if forks != [] {
      assert forks == [forks[0]] + forks[1..];
      NamedFrom(forks[1..], name, f);
    }
  }

  lemma {:induction false} KnownFrom(order: seq<nat>, forks: seq<Fork>, f: Fork)
    ensures f in Known(order, forks) <==> f in forks && f.name in order
  {
    if order != [] {
      assert order == order[..|order| - 1] + [order[|order| - 1]];
      KnownFrom(order[..|order| - 1], forks, f);
      NamedFrom(forks, order[|order| - 1], f);
    }
  }

  /** No fork stands before one whose name comes earlier in the known order. */
  predicate InKnownOrder(order: seq<nat>, forks: seq<Fork>) {
    forall i, j, p, q :: 0 <= i < j < |forks| && 0 <= p < |order| && 0 <= q < |order| ==>
      forks[i].name == order[p] && forks[j].name == order[q] ==> p <= q
  }

  lemma {:induction false} KnownIsInOrder(order: seq<nat>, forks: seq<Fork>)
    requires DistinctOrder(order)
    ensures InKnownOrder(order, Known(order, forks))
  {
    if order != [] {
      var n, known := |order| - 1, Known(order, forks);
      KnownIsInOrder(order[..n], forks);
      forall i, j, p, q | 0 <= i < j < |known| && 0 <= p < |order| && 0 <= q < |order| &&
                          known[i].name == order[p] && known[j].name == order[q]
        ensures p <= q
      {
        KnownPlaces(order, forks, i, p);
        KnownPlaces(order, forks, j, q);
      }
    }
  }

  lemma {:induction false} KnownPlaces(order: seq<nat>, forks: seq<Fork>, i: nat, p: nat)
    requires DistinctOrder(order) && i < |Known(order, forks)| && p < |order| && Known(order, forks)[i].name == order[p]
    ensures var before := Known(order[..|order| - 1], forks);
            if i < |before| then before[i] == Known(order, forks)[i] && p < |order| - 1 else p == |order| - 1
  {
    var n := |order| - 1;
    var before := Known(order[..n], forks);
    if i < |before| {
      KnownFrom(order[..n], forks, before[i]);
    } else {
      NamedFrom(forks, order[n], Named(forks, order[n])[i - |before|]);
    }
  }

  /** Of two forks without a known name, the first stands first in `from` as well. */
  predicate UnknownInOrder(order: seq<nat>, from: seq<Fork>, forks: seq<Fork>) {
    forall i, j :: 0 <= i < j < |forks| && forks[i].name !in order && forks[j].name !in order ==>
      exists a, b :: 0 <= a < b < |from| && from[a] == forks[i] && from[b] == forks[j]
  }

  lemma {:induction false} UnknownKeepsOrder(order: seq<nat>, forks: seq<Fork>, i: nat, j: nat)
    returns (a: nat, b: nat)
    requires i < j < |Unknown(order, forks)|
    ensures a < b < |forks| && forks[a] == Unknown(order, forks)[i] && forks[b] == Unknown(order, forks)[j]
  {
    var rest := Unknown(order, forks[1..]);
    if forks[0].name in order {
      a, b := UnknownKeepsOrder(order, forks[1..], i, j);
      a, b := a + 1, b + 1;
    } else if i > 0 {
      a, b := UnknownKeepsOrder(order, forks[1..], i - 1, j - 1);
      a, b := a + 1, b + 1;
    } else {
      UnknownFrom(order, forks[1..], rest[j - 1]);
      b :| 0 <= b < |forks[1..]| && forks[1..][b] == rest[j - 1];
      a, b := 0, b + 1;
    }
  }

  lemma {:induction false} KnownBeforeUnknown(order: seq<nat>, forks: seq<Fork>, i: nat)
    requires i < |Known(order, forks) + Unknown(order, forks)|
    ensures (Known(order, forks) + Unknown(order, forks))[i].name in order <==> i < |Known(order, forks)|
  {
    var known, unknown := Known(order, forks), Unknown(order, forks);
    if i < |known| { KnownFrom(order, forks, known[i]); } else { UnknownFrom(order, forks, unknown[i - |known|]); }
  }

  /** Known forks in front and in the known order, the others behind them in their own. */
  lemma {:induction false} KnownThenUnknown(order: seq<nat>, forks: seq<Fork>)
    requires DistinctOrder(order)
    ensures var ordered := Known(order, forks) + Unknown(order, forks);
            && InKnownOrder(order, ordered) && UnknownInOrder(order, forks, ordered)
            && (forall i, j :: 0 <= i < j < |ordered| && ordered[j].name in order ==> ordered[i].name in order)
  {
    var known, ordered := Known(order, forks), Known(order, forks) + Unknown(order, forks);
    forall i | 0 <= i < |ordered| ensures ordered[i].name in order <==> i < |known| {
      KnownBeforeUnknown(order, forks, i);
    }
    forall i, j | 0 <= i < j < |ordered| && ordered[i].name !in order && ordered[j].name !in order
      ensures exists a, b :: 0 <= a < b < |forks| && forks[a] == ordered[i] && forks[b] == ordered[j]
    {
      var a, b := UnknownKeepsOrder(order, forks, i - |known|, j - |known|);
      assert forks[a] == ordered[i] && forks[b] == ordered[j];
    }
    KnownIsInOrder(order, forks);
    forall i, j, p, q | 0 <= i < j < |ordered| && 0 <= p < |order| && 0 <= q < |order| &&
                        ordered[i].name == order[p] && ordered[j].name == order[q]
      ensures p <= q
    {
      assert known[i] == ordered[i] && known[j] == ordered[j];
    }
  }

  /** What the next known name takes out of the forks left over. */
  lemma {:induction false} NextName(order: seq<nat>, forks: seq<Fork>, i: nat)
    requires DistinctNames(forks) && DistinctOrder(order) && i < |order|
    ensures var rest := Unknown(order[..i], forks);
            && DistinctNames(rest)
            && Known(order[..i + 1], forks) == Known(order[..i], forks) + Named(rest, order[i])
            && Unknown(order[..i + 1], forks) == Unknown([order[i]], rest)
  {
    assert order[..i + 1] == order[..i] + [order[i]];
    assert order[..i + 1][..i] == order[..i];
    UnknownAppend(order[..i], order[i], forks);
    UnknownKeepsDistinct(order[..i], forks);
  }

  /** Moves the first entry of a name, if there is one, behind those moved before. */
  method MoveNamed(ordered: seq<Fork>, rest: seq<Fork>, name: nat) returns (moved: seq<Fork>, left: seq<Fork>)
    ensures multiset(moved + left) == multiset(ordered + rest)
    ensures DistinctNames(rest) ==> moved == ordered + Named(rest, name) && left == Unknown([name], rest)
  {
    moved, left := ordered, rest;
    var pos := Position(rest, name);
    if pos == None {
      NoneNamed(rest, name);
    } else {
      if DistinctNames(rest) { TakeOut(rest, pos.value); }
      assert rest == rest[..pos.value] + [rest[pos.value]] + rest[pos.value + 1..];
      moved := ordered + [rest[pos.value]];
      left := rest[..pos.value] + rest[pos.value + 1..];
    }
  }

  method MoveKnown(hardforks: seq<Fork>, order: seq<nat>) returns (ordered: seq<Fork>)
    ensures multiset(ordered) == multiset(hardforks)
    ensures DistinctNames(hardforks) && DistinctOrder(order) ==>
      ordered == Known(order, hardforks) + Unknown(order, hardforks)
  {
    ordered := [];
    var rest := hardforks;
    ghost var distinct := DistinctNames(hardforks) && DistinctOrder(order);
    AllUnknown(hardforks);
    assert ordered + rest == hardforks;
    for i := 0 to |order|
      invariant multiset(ordered + rest) == multiset(hardforks)
      invariant distinct ==> ordered == Known(order[..i], hardforks) && rest == Unknown(order[..i], hardforks)
    {
      if distinct { NextName(order, hardforks, i); }
      ordered, rest := MoveNamed(ordered, rest, order[i]);
    }
    assert order[..|order|] == order;
    ordered := ordered + rest;
  }

  /** Moves the known forks to the front in the known order: the rest keep their order behind them,
      and nothing is lost or repeated. */
  method Reorder(hardforks: seq<Fork>, order: seq<nat>) returns (ordered: seq<Fork>)
    ensures multiset(ordered) == multiset(hardforks)
    ensures DistinctNames(hardforks) && DistinctOrder(order) ==>
      && ordered == Known(order, hardforks) + Unknown(order, hardforks)
      && InKnownOrder(order, ordered) && UnknownInOrder(order, hardforks, ordered)
      && (forall i, j :: 0 <= i < j < |ordered| && ordered[j].name in order ==> ordered[i].name in order)
  {
    ordered := MoveKnown(hardforks, order);
    if DistinctNames(hardforks) && DistinctOrder(order) { KnownThenUnknown(order, hardforks); }
  }

  lemma {:induction false} AllUnknown(forks: seq<Fork>)
    ensures Unknown([], forks) == forks
  {
    if forks != [] { AllUnknown(forks[1..]); }
  }
}
