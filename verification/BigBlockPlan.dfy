/** The execution plan of a big block: where each segment starts, which segment a transaction
    belongs to, and which block hashes a segment may look up. */
module BigBlockPlan {
  import opened Sorting

  type Hash = nat
  type Request = nat

  datatype Env = Env(number: nat, id: nat)
  datatype Ctx = Ctx(parentHash: Hash, id: nat)
  datatype Tx = Tx(gas: nat, blobGas: nat, id: nat)

  /** One original block inside the big block. */
  datatype Payload = Payload(env: Env, ctx: Ctx, txs: seq<Tx>)

  datatype Segment = Segment(startTx: nat, env: Env, ctx: Ctx)

  type SeedList = seq<(nat, Hash)>

  // ---- Start offsets ----

  function Start(payload: seq<Payload>, k: nat): nat
    requires k <= |payload|
  {
    if k == 0 then 0 else Start(payload, k - 1) + |payload[k - 1].txs|
  }

  /** All transactions of the first `k` blocks, in order. */
  function Flat(payload: seq<Payload>, k: nat): (r: seq<Tx>)
    requires k <= |payload|
    ensures |r| == Start(payload, k)
  {
    if k == 0 then [] else Flat(payload, k - 1) + payload[k - 1].txs
  }

  lemma {:induction false} StartMonotone(payload: seq<Payload>, j: nat, k: nat)
    requires j <= k <= |payload|
    ensures Start(payload, j) <= Start(payload, k)
    decreases k
  {
    if j < k { StartMonotone(payload, j, k - 1); }
  }

  lemma {:induction false} FlatPrefix(payload: seq<Payload>, j: nat, k: nat)
    requires j <= k <= |payload|
    ensures Start(payload, j) <= Start(payload, k)
    ensures Flat(payload, k)[..Start(payload, j)] == Flat(payload, j)
    decreases k
  {
    if j < k {
      FlatPrefix(payload, j, k - 1);
      assert Flat(payload, k)[..Start(payload, j)] == Flat(payload, k - 1)[..Start(payload, j)];
    }
  }

  lemma {:induction false} FlatSegment(payload: seq<Payload>, k: nat, i: nat)
    requires k < |payload| && Start(payload, k) <= i < Start(payload, k + 1)
    ensures i < |Flat(payload, |payload|)|
    ensures Flat(payload, |payload|)[i] == payload[k].txs[i - Start(payload, k)]
  {
    FlatPrefix(payload, k + 1, |payload|);
    assert Flat(payload, |payload|)[i] == Flat(payload, |payload|)[..Start(payload, k + 1)][i];
  }

  function SegmentAt(payload: seq<Payload>, k: nat): Segment
    requires k < |payload|
  {
    Segment(Start(payload, k), payload[k].env, payload[k].ctx)
  }

  predicate IsPlanOf(segments: seq<Segment>, payload: seq<Payload>) {
    |segments| == |payload| && forall k :: 0 <= k < |payload| ==> segments[k] == SegmentAt(payload, k)
  }

  function PlanOf(payload: seq<Payload>): (r: seq<Segment>)
    ensures IsPlanOf(r, payload)
  {
    seq(|payload|, k requires 0 <= k < |payload| => SegmentAt(payload, k))
  }

  /** Builds the segments with a running transaction count. */
  method SegmentsFor(payload: seq<Payload>) returns (segments: seq<Segment>)
    ensures segments == PlanOf(payload)
  {
    segments := [];
    var currentTx := 0;
    for k := 0 to |payload|
      invariant |segments| == k && currentTx == Start(payload, k)
      invariant forall j :: 0 <= j < k ==> segments[j] == SegmentAt(payload, j)
    {
      segments := segments + [Segment(currentTx, payload[k].env, payload[k].ctx)];
      currentTx := currentTx + |payload[k].txs|;
    }
  }

  // ---- Which segment a transaction belongs to ----

  /** How many leading segments start at or before `txIndex`. */
  function PartitionPoint(segments: seq<Segment>, txIndex: nat): (r: nat)
    ensures r <= |segments|
  {
    if segments == [] || segments[0].startTx > txIndex then 0
    else 1 + PartitionPoint(segments[1..], txIndex)
  }

  function SegmentIndexForTx(segments: seq<Segment>, txIndex: nat): nat {
    var p := PartitionPoint(segments, txIndex);
    if p == 0 then 0 else p - 1
  }

  lemma {:induction false} PartitionPointIs(segments: seq<Segment>, txIndex: nat, p: nat)
    requires p <= |segments|
    requires forall k :: 0 <= k < p ==> segments[k].startTx <= txIndex
    requires p < |segments| ==> segments[p].startTx > txIndex
    ensures PartitionPoint(segments, txIndex) == p
  {
    if p > 0 { PartitionPointIs(segments[1..], txIndex, p - 1); }
  }

  /** Segment `k` is the last one starting at or before transaction count `i`. */
  predicate IsCurrent(payload: seq<Payload>, k: nat, i: nat) {
    && k < |payload| && Start(payload, k) <= i
    && (k + 1 < |payload| ==> i < Start(payload, k + 1))
  }

  lemma {:induction false} CurrentIsIndexed(segments: seq<Segment>, payload: seq<Payload>, k: nat, i: nat)
    requires IsPlanOf(segments, payload) && IsCurrent(payload, k, i)
    ensures SegmentIndexForTx(segments, i) == k
  {
    forall j | 0 <= j < k + 1 ensures segments[j].startTx <= i { StartMonotone(payload, j, k); }
    PartitionPointIs(segments, i, k + 1);
  }

  /** A transaction's segment is the block that contains it, runs of empty blocks notwithstanding. */
  lemma {:induction false} SegmentContainsTx(segments: seq<Segment>, payload: seq<Payload>, i: nat)
    requires IsPlanOf(segments, payload) && i < Start(payload, |payload|)
    ensures var k := SegmentIndexForTx(segments, i);
            && k < |payload| && Start(payload, k) <= i < Start(payload, k + 1)
            && Flat(payload, |payload|)[i] == payload[k].txs[i - Start(payload, k)]
  {
    var k := 0;
    while i >= Start(payload, k + 1)
      invariant k < |payload| && Start(payload, k) <= i
      decreases |payload| - k
    {
      k := k + 1;
    }
    CurrentIsIndexed(segments, payload, k, i);
    FlatSegment(payload, k, i);
  }

  // ---- Block hashes to seed ----

  function BoundaryHash(segment: Segment): (nat, Hash)
    requires segment.env.number > 0
  {
    (segment.env.number - 1, segment.ctx.parentHash)
  }

  predicate NumbersAreLater(segments: seq<Segment>) {
    forall k :: 0 < k < |segments| ==> segments[k].env.number > 0
  }

  /** Hashes of the blocks finished at segment boundaries: the next segment names its parent. */
  function BoundaryHashes(segments: seq<Segment>): (r: SeedList)
    requires NumbersAreLater(segments)
    ensures |r| == if segments == [] then 0 else |segments| - 1
    ensures forall k :: 0 <= k < |r| ==> r[k] == BoundaryHash(segments[k + 1])
  {
    if segments == [] then []
    else seq(|segments| - 1, k requires 0 <= k < |segments| - 1 => BoundaryHash(segments[k + 1]))
  }

  predicate SortedByNumber(s: SeedList) {
    forall i, j :: 0 <= i < j < |s| ==> s[i].0 <= s[j].0
  }

  predicate NotAbove(a: (nat, Hash), b: (nat, Hash)) { a.0 <= b.0 }

  lemma {:induction false} SortByNumber(s: SeedList)
    ensures SortedByNumber(Sort(NotAbove, s)) && forall y :: y in Sort(NotAbove, s) <==> y in s
  {
    var r := Sort(NotAbove, s);
    SortSorts(NotAbove, s);
    forall y ensures y in r <==> y in s { assert y in multiset(r) <==> y in multiset(s); }
    forall i, j | 0 <= i < j < |r| ensures r[i].0 <= r[j].0 { assert NotAbove(r[i], r[j]); }
  }

  /** Everything the plan may seed: boundary hashes and the payload's prior block hashes. */
  function SeedsFor(segments: seq<Segment>, prior: SeedList): (r: SeedList)
    requires NumbersAreLater(segments)
    ensures forall i, j :: 0 <= i < j < |r| ==> r[i].0 <= r[j].0
    ensures forall y :: y in r <==> y in BoundaryHashes(segments) || y in prior
  {
    SortByNumber(BoundaryHashes(segments) + prior);
    Sort(NotAbove, BoundaryHashes(segments) + prior)
  }

  /** Every block after the first has a predecessor. */
  predicate Numbered(payload: seq<Payload>) {
    forall k :: 0 < k < |payload| ==> payload[k].env.number > 0
  }

  function Seeds(payload: seq<Payload>, prior: SeedList): SeedList
    requires Numbered(payload)
  {
    SeedsFor(PlanOf(payload), prior)
  }

  /** The seeds a block of the given number can reach: the 256 numbers below it. */
  function HashesForBlock(seeds: SeedList, number: nat): (r: SeedList)
    ensures forall x :: x in r <==> x in seeds && number - 256 <= x.0 < number
  {
    if seeds == [] then []
    else
      var rest := HashesForBlock(seeds[1..], number);
      var min := if number < 256 then 0 else number - 256;
      assert forall x :: x in seeds <==> x == seeds[0] || x in seeds[1..];
      if min <= seeds[0].0 < number then [seeds[0]] + rest else rest
  }

  /** A seed is a prior hash, or a later block's parent hash under the number below that block's. */
  lemma {:induction false} SeedIsParentOrPrior(payload: seq<Payload>, prior: SeedList, y: (nat, Hash))
    requires Numbered(payload)
    ensures y in Seeds(payload, prior) <==>
      y in prior || exists j :: 0 < j < |payload| && y == (payload[j].env.number - 1, payload[j].ctx.parentHash)
  {
    var boundaries := BoundaryHashes(PlanOf(payload));
    if y in boundaries {
      var i :| 0 <= i < |boundaries| && boundaries[i] == y;
      assert PlanOf(payload)[i + 1] == SegmentAt(payload, i + 1);
      assert y == (payload[i + 1].env.number - 1, payload[i + 1].ctx.parentHash);
    }
    if j :| 0 < j < |payload| && y == (payload[j].env.number - 1, payload[j].ctx.parentHash) {
      assert PlanOf(payload)[j] == SegmentAt(payload, j);
      assert boundaries[j - 1] == y;
    }
  }

  /** For consecutively numbered blocks, a block is seeded with the parent hash of every block of the big
      block up to it, under the parent's number, as far as BLOCKHASH can reach. */
  lemma {:induction false} SeedsCoverEarlierBlocks(payload: seq<Payload>, prior: SeedList, j: nat, k: nat)
    requires Numbered(payload)
    requires forall x :: 0 < x < |payload| ==> payload[x].env.number == payload[0].env.number + x
    requires 0 < j <= k < |payload| && k - j < 256
    ensures (payload[j].env.number - 1, payload[j].ctx.parentHash) in
      HashesForBlock(Seeds(payload, prior), payload[k].env.number)
  {
    SeedIsParentOrPrior(payload, prior, (payload[j].env.number - 1, payload[j].ctx.parentHash));
    assert payload[k].env.number == payload[0].env.number + k;
  }
}
