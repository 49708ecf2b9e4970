/** Executing the blocks of a big block as segments of one run. */
module BigBlock {
  import opened BigBlockPlan

  /** What happened, and in which environment and context.  `Pre` also records the hashes seeded for
      the segment it opens. */
  datatype Event =
    | Pre(env: Env, ctx: Ctx, seeded: SeedList)
    | Exec(tx: Tx, env: Env, ctx: Ctx)
    | Post(env: Env, ctx: Ctx)

  /** A single-block executor: a commit adds to the running gas and appends a receipt holding it. */
  datatype Inner = Inner(env: Env, ctx: Ctx, receipts: seq<nat>, gasUsed: nat, blobGasUsed: nat)

  datatype BlockResult = BlockResult(receipts: seq<nat>, requests: seq<Request>, gasUsed: nat, blobGasUsed: nat)

  // ---- Reference: the blocks run one after the other ----

  function GasOf(txs: seq<Tx>): nat {
    if txs == [] then 0 else GasOf(txs[..|txs| - 1]) + txs[|txs| - 1].gas
  }

  function BlobGasOf(txs: seq<Tx>): nat {
    if txs == [] then 0 else BlobGasOf(txs[..|txs| - 1]) + txs[|txs| - 1].blobGas
  }

  function RequestsOf(payload: seq<Payload>, k: nat, requests: Ctx -> seq<Request>): seq<Request>
    requires k <= |payload|
  {
    if k == 0 then [] else RequestsOf(payload, k - 1, requests) + requests(payload[k - 1].ctx)
  }

  function Execs(p: Payload, m: nat): (r: seq<Event>)
    requires m <= |p.txs|
    ensures |r| == m
  {
    seq(m, j requires 0 <= j < m => Exec(p.txs[j], p.env, p.ctx))
  }

  function Opening(p: Payload, seeds: SeedList): Event {
    Pre(p.env, p.ctx, HashesForBlock(seeds, p.env.number))
  }

  /** The first `k` blocks run separately: pre-execution, that block's transactions, finish. */
  function Separately(payload: seq<Payload>, seeds: SeedList, k: nat): (r: seq<Event>)
    requires k <= |payload|
    ensures |r| == Start(payload, k) + 2 * k
  {
    if k == 0 then []
    else
      var p := payload[k - 1];
      Separately(payload, seeds, k - 1) + [Opening(p, seeds)] + Execs(p, |p.txs|) + [Post(p.env, p.ctx)]
  }

  /** The same trace stopped inside block `k`, after `i` transactions in all. */
  function Partway(payload: seq<Payload>, seeds: SeedList, k: nat, i: nat): (r: seq<Event>)
    requires k < |payload| && Start(payload, k) <= i <= Start(payload, k + 1)
    ensures |r| == i + 2 * k + 1
  {
    Separately(payload, seeds, k) + [Opening(payload[k], seeds)] + Execs(payload[k], i - Start(payload, k))
  }

  lemma {:induction false} PartwayEnds(payload: seq<Payload>, seeds: SeedList, k: nat)
    requires k < |payload|
    ensures Partway(payload, seeds, k, Start(payload, k + 1)) + [Post(payload[k].env, payload[k].ctx)]
         == Separately(payload, seeds, k + 1)
  {
  }

  lemma {:induction false} PartwayStarts(payload: seq<Payload>, seeds: SeedList, k: nat)
    requires k < |payload|
    ensures Separately(payload, seeds, k) + [Opening(payload[k], seeds)]
         == Partway(payload, seeds, k, Start(payload, k))
  {
  }

  lemma {:induction false} PartwayGrows(payload: seq<Payload>, seeds: SeedList, k: nat, i: nat)
    requires k < |payload| && Start(payload, k) <= i < Start(payload, k + 1)
    ensures Partway(payload, seeds, k, i)
         + [Exec(payload[k].txs[i - Start(payload, k)], payload[k].env, payload[k].ctx)]
         == Partway(payload, seeds, k, i + 1)
  {
    var m := i - Start(payload, k);
    assert Execs(payload[k], m + 1) == Execs(payload[k], m) + [Exec(payload[k].txs[m], payload[k].env, payload[k].ctx)];
  }

  lemma {:induction false} GasSplit(txs: seq<Tx>, m: nat)
    requires m <= |txs|
    ensures GasOf(txs) == GasOf(txs[..m]) + GasOf(txs[m..])
    ensures BlobGasOf(txs) == BlobGasOf(txs[..m]) + BlobGasOf(txs[m..])
  {
    if m < |txs| {
      var init := txs[..|txs| - 1];
      GasSplit(init, m);
      assert init[..m] == txs[..m] && init[m..] == txs[m..][..|txs| - 1 - m];
    } else {
      assert txs[..m] == txs;
    }
  }

  lemma {:induction false} GasOfNext(txs: seq<Tx>, s: nat, i: nat)
    requires s <= i < |txs|
    ensures GasOf(txs[s..i + 1]) == GasOf(txs[s..i]) + txs[i].gas
    ensures BlobGasOf(txs[s..i + 1]) == BlobGasOf(txs[s..i]) + txs[i].blobGas
  {
    assert txs[s..i + 1][..i - s] == txs[s..i];
  }

  // ---- Accounting across boundaries ----

  /** Everything the executor counts: receipts so far, offsets from finished segments, the current
      segment's own gas, and the requests of finished segments. */
  datatype Books = Books(
    receipts: seq<nat>, gasOffset: nat, blobOffset: nat, gas: nat, blob: nat, requests: seq<Request>)

  /** After `i` transactions, standing in block `k`: every receipt holds the gas of all transactions
      up to its own, the offsets cover the finished blocks and the rest is the current block's. */
  ghost predicate Balanced(payload: seq<Payload>, k: nat, i: nat, b: Books, requests: Ctx -> seq<Request>) {
    var flat := Flat(payload, |payload|);
    && k < |payload| && Start(payload, k) <= i <= |flat| && |b.receipts| == i
    && (forall j :: 0 <= j < i ==> b.receipts[j] == GasOf(flat[..j + 1]))
    && b.gasOffset == GasOf(flat[..Start(payload, k)])
    && b.blobOffset == BlobGasOf(flat[..Start(payload, k)])
    && b.gas == GasOf(flat[Start(payload, k)..i])
    && b.blob == BlobGasOf(flat[Start(payload, k)..i])
    && b.requests == RequestsOf(payload, k, requests)
  }

  function Crossed(b: Books, requests: seq<Request>): Books {
    Books(b.receipts, b.gasOffset + b.gas, b.blobOffset + b.blob, 0, 0, b.requests + requests)
  }

  function Committed(b: Books, tx: Tx): Books {
    b.(receipts := b.receipts + [b.gas + tx.gas + b.gasOffset], gas := b.gas + tx.gas, blob := b.blob + tx.blobGas)
  }

  lemma {:induction false} OffsetsAddUp(payload: seq<Payload>, k: nat, i: nat)
    requires k <= |payload| && Start(payload, k) <= i <= |Flat(payload, |payload|)|
    ensures var flat := Flat(payload, |payload|);
            && GasOf(flat[..i]) == GasOf(flat[..Start(payload, k)]) + GasOf(flat[Start(payload, k)..i])
            && BlobGasOf(flat[..i]) == BlobGasOf(flat[..Start(payload, k)]) + BlobGasOf(flat[Start(payload, k)..i])
  {
    var flat := Flat(payload, |payload|);
    GasSplit(flat[..i], Start(payload, k));
    assert flat[..i][..Start(payload, k)] == flat[..Start(payload, k)];
    assert flat[..i][Start(payload, k)..] == flat[Start(payload, k)..i];
  }

  lemma {:induction false} CrossingKeepsBalance(
    payload: seq<Payload>, k: nat, i: nat, b: Books, requests: Ctx -> seq<Request>)
    requires Balanced(payload, k, i, b, requests) && k + 1 < |payload| && i == Start(payload, k + 1)
    ensures Balanced(payload, k + 1, i, Crossed(b, requests(payload[k].ctx)), requests)
  {
    OffsetsAddUp(payload, k, i);
    assert Flat(payload, |payload|)[i..i] == [];
  }

  lemma {:induction false} CommitKeepsBalance(
    payload: seq<Payload>, k: nat, i: nat, b: Books, requests: Ctx -> seq<Request>)
    requires Balanced(payload, k, i, b, requests) && i < |Flat(payload, |payload|)|
    ensures Balanced(payload, k, i + 1, Committed(b, Flat(payload, |payload|)[i]), requests)
  {
    GasOfNext(Flat(payload, |payload|), Start(payload, k), i);
    OffsetsAddUp(payload, k, i + 1);
  }

  // ---- The executor ----

  /** Boundaries are tested only after a commit, so an empty first block among several is never left. */
  predicate Leavable(payload: seq<Payload>) {
    |payload| == 1 || (|payload| > 1 && payload[0].txs != [])
  }

  /** The first `n` positions. */
  predicate Positions(indices: seq<nat>, n: nat) {
    |indices| == n && forall p :: 0 <= p < n ==> indices[p] == p
  }

  class Executor {
    const segments: seq<Segment>
    const seeds: SeedList
    const requestsOf: Ctx -> seq<Request>
    var nextSegment: nat
    var txCounter: nat
    var inner: Inner
    var accumulatedRequests: seq<Request>
    var gasUsedOffset: nat
    var blobGasUsedOffset: nat
    var balIndex: nat
    var seeded: SeedList
    var initialized: bool
    var trace: seq<Event>
    var indices: seq<nat>

    constructor (segments: seq<Segment>, seeds: SeedList, requestsOf: Ctx -> seq<Request>, outerEnv: Env, balIndex: nat)
      requires segments != []
      ensures this.segments == segments && this.seeds == seeds && this.requestsOf == requestsOf
      ensures nextSegment == 1 && txCounter == 0 && !initialized && this.balIndex == balIndex
      ensures inner == Inner(outerEnv, segments[0].ctx, [], 0, 0) && NowBooks() == Books([], 0, 0, 0, 0, [])
      ensures trace == [] && indices == []
    {
      this.segments, this.seeds, this.requestsOf := segments, seeds, requestsOf;
      nextSegment, txCounter, initialized, this.balIndex := 1, 0, false, balIndex;
      inner := Inner(outerEnv, segments[0].ctx, [], 0, 0);
      accumulatedRequests, gasUsedOffset, blobGasUsedOffset, seeded := [], 0, 0, [];
      trace, indices := [], [];
    }

    function NowBooks(): Books
      reads this
    {
      Books(inner.receipts, gasUsedOffset, blobGasUsedOffset, inner.gasUsed, inner.blobGasUsed, accumulatedRequests)
    }

    /** First use: canonical execution (index 0) opens segment 0; a worker renumbers its index by
        two per boundary before its transaction and switches to that transaction's segment. */
    method Initialize()
      requires !initialized && segments != []
      modifies this`initialized, this`balIndex, this`inner, this`seeded
      ensures initialized == (old(balIndex) == 0)
      ensures var k := if old(balIndex) == 0 then 0 else SegmentIndexForTx(segments, old(balIndex) - 1);
              && balIndex == old(balIndex) + 2 * k
              && k < |segments| && inner == old(inner).(env := segments[k].env, ctx := segments[k].ctx)
              && seeded == HashesForBlock(seeds, segments[k].env.number)
    {
      var k := 0;
      if balIndex > 0 {
        k := SegmentIndexForTx(segments, balIndex - 1);
        balIndex := balIndex + 2 * k;
      } else {
        initialized := true;
      }
      inner := inner.(env := segments[k].env, ctx := segments[k].ctx);
      seeded := HashesForBlock(seeds, segments[k].env.number);
    }

    /** Logs an event with the access index it happens at. */
    method Record(e: Event)
      modifies this`trace, this`indices
      ensures trace == old(trace) + [e] && indices == old(indices) + [balIndex]
    {
      trace, indices := trace + [e], indices + [balIndex];
    }

    method BumpBalIndex()
      modifies this`balIndex
      ensures balIndex == old(balIndex) + 1
    {
      balIndex := balIndex + 1;
    }

    method ApplyPreExecutionChanges()
      requires !initialized && segments != [] && balIndex == 0 && trace == [] && indices == []
      modifies this`initialized, this`balIndex, this`inner, this`seeded, this`trace, this`indices
      ensures initialized && balIndex == 0
      ensures inner == old(inner).(env := segments[0].env, ctx := segments[0].ctx)
      ensures trace == [Pre(inner.env, inner.ctx, HashesForBlock(seeds, segments[0].env.number))] && indices == [0]
    {
      Initialize();
      Record(Pre(inner.env, inner.ctx, seeded));
    }

    /** Finishes the current segment and opens the next one. */
    method ApplySegmentBoundary()
      requires 0 < nextSegment < |segments|
      modifies this`nextSegment, this`inner, this`balIndex, this`gasUsedOffset, this`blobGasUsedOffset,
               this`accumulatedRequests, this`seeded, this`trace, this`indices
      ensures nextSegment == old(nextSegment) + 1
      ensures var prev, next := segments[old(nextSegment) - 1], segments[old(nextSegment)];
              && trace == old(trace) + [Post(old(inner).env, prev.ctx)]
                          + [Pre(next.env, next.ctx, HashesForBlock(seeds, next.env.number))]
              && indices == old(indices) + [old(balIndex) + 1] + [old(balIndex) + 2] && balIndex == old(balIndex) + 2
              && inner.env == next.env && inner.ctx == next.ctx
              && NowBooks() == Crossed(old(NowBooks()), requestsOf(prev.ctx))
    {
      var prev, next := segments[nextSegment - 1], segments[nextSegment];
      nextSegment := nextSegment + 1;
      inner := inner.(ctx := prev.ctx);
      BumpBalIndex();
      Record(Post(inner.env, inner.ctx));
      var finished := inner;
      BumpBalIndex();
      gasUsedOffset := gasUsedOffset + finished.gasUsed;
      blobGasUsedOffset := blobGasUsedOffset + finished.blobGasUsed;
      accumulatedRequests := accumulatedRequests + requestsOf(finished.ctx);
      inner := Inner(next.env, next.ctx, finished.receipts, 0, 0);
      seeded := HashesForBlock(seeds, next.env.number);
      Record(Pre(inner.env, inner.ctx, seeded));
    }

    // ---- Canonical execution of a payload ----

    /** Executed `i` transactions of the payload and standing in its block `nextSegment - 1`. */
    ghost predicate Standing(payload: seq<Payload>, i: nat)
      reads this
    {
      && IsPlanOf(segments, payload) && initialized
      && 0 < nextSegment <= |payload| && txCounter == i
      && inner.env == payload[nextSegment - 1].env && inner.ctx == payload[nextSegment - 1].ctx
      && Balanced(payload, nextSegment - 1, i, NowBooks(), requestsOf)
    }

    /** The trace so far is that of the separate blocks, and each event carries its own position as
        its access index. */
    ghost predicate Traced(payload: seq<Payload>, i: nat)
      reads this
    {
      && 0 < nextSegment <= |payload| && Start(payload, nextSegment - 1) <= i <= Start(payload, nextSegment)
      && trace == Partway(payload, seeds, nextSegment - 1, i)
      && Positions(indices, |trace|)
    }

    /** One boundary, crossed when the current block has no transaction left. */
    method CrossBoundary(ghost payload: seq<Payload>, ghost i: nat)
      requires Standing(payload, i) && Traced(payload, i)
      requires nextSegment < |payload| && i == Start(payload, nextSegment) && balIndex == |trace| - 1
      modifies this`nextSegment, this`inner, this`balIndex, this`gasUsedOffset, this`blobGasUsedOffset,
               this`accumulatedRequests, this`seeded, this`trace, this`indices
      ensures Standing(payload, i) && Traced(payload, i) && balIndex == |trace| - 1
      ensures nextSegment == old(nextSegment) + 1
    {
      ghost var k := nextSegment - 1;
      CrossingKeepsBalance(payload, k, i, NowBooks(), requestsOf);
      PartwayEnds(payload, seeds, k);
      PartwayStarts(payload, seeds, k + 1);
      ApplySegmentBoundary();
    }

    /** The single-block commit, and the receipt corrected by the gas of finished segments. */
    method CommitInner(tx: Tx)
      modifies this`inner
      ensures NowBooks() == Committed(old(NowBooks()), tx)
      ensures inner.env == old(inner).env && inner.ctx == old(inner).ctx
    {
      inner := inner.(gasUsed := inner.gasUsed + tx.gas, blobGasUsed := inner.blobGasUsed + tx.blobGas,
                      receipts := inner.receipts + [inner.gasUsed + tx.gas]);
      if gasUsedOffset > 0 {
        var last := |inner.receipts| - 1;
        inner := inner.(receipts := inner.receipts[last := inner.receipts[last] + gasUsedOffset]);
      }
    }

    /** Commits one transaction, then crosses every boundary that lies right behind it.  An empty
        first block among several leaves the executor in it for good. */
    method CommitTransaction(tx: Tx, ghost payload: seq<Payload>, ghost i: nat)
      requires Ready(payload, i) && i < |Flat(payload, |payload|)| && tx == Flat(payload, |payload|)[i]
      requires balIndex == |trace|
      modifies this
      ensures Ready(payload, i + 1) && balIndex == |trace| - 1
      ensures !Leavable(payload) ==> |trace| == |old(trace)| + 1
    {
      CommitOne(tx, payload, i);
      CrossBoundaries(payload, i + 1);
    }

    /** Ready for transaction `i`: in the block that holds it, unless stuck in an empty first block. */
    ghost predicate Ready(payload: seq<Payload>, i: nat)
      reads this
    {
      && Standing(payload, i) && |indices| == |trace|
      && (Leavable(payload) ==> Traced(payload, i) && IsCurrent(payload, nextSegment - 1, i))
      && (!Leavable(payload) ==> nextSegment == 1)
    }

    method CommitOne(tx: Tx, ghost payload: seq<Payload>, ghost i: nat)
      requires Ready(payload, i) && i < |Flat(payload, |payload|)| && tx == Flat(payload, |payload|)[i]
      requires balIndex == |trace|
      modifies this`trace, this`indices, this`inner, this`txCounter
      ensures Standing(payload, i + 1) && balIndex == |trace| - 1 && |indices| == |trace|
      ensures Leavable(payload) ==> Traced(payload, i + 1)
      ensures |trace| == |old(trace)| + 1
    {
      ghost var k := nextSegment - 1;
      Record(Exec(tx, inner.env, inner.ctx));
      CommitKeepsBalance(payload, k, i, NowBooks(), requestsOf);
      if Leavable(payload) {
        if k + 1 == |payload| { assert Start(payload, k + 1) == |Flat(payload, |payload|)|; }
        FlatSegment(payload, k, i);
        PartwayGrows(payload, seeds, k, i);
      }
      CommitInner(tx);
      txCounter := txCounter + 1;
    }

    method CrossBoundaries(ghost payload: seq<Payload>, ghost i: nat)
      requires Standing(payload, i) && balIndex == |trace| - 1 && |indices| == |trace| && i > 0
      requires Leavable(payload) ==> Traced(payload, i)
      requires !Leavable(payload) ==> nextSegment == 1
      modifies this`nextSegment, this`inner, this`balIndex, this`gasUsedOffset, this`blobGasUsedOffset,
               this`accumulatedRequests, this`seeded, this`trace, this`indices
      ensures Ready(payload, i) && balIndex == |trace| - 1
      ensures !Leavable(payload) ==> |trace| == |old(trace)|
    {
      while nextSegment < |segments| && txCounter == segments[nextSegment].startTx
        invariant Standing(payload, i) && balIndex == |trace| - 1 && |indices| == |trace|
        invariant Leavable(payload) ==> Traced(payload, i)
        invariant !Leavable(payload) ==> nextSegment == 1 && |trace| == |old(trace)|
        decreases |segments| - nextSegment
      {
        assert segments[nextSegment] == SegmentAt(payload, nextSegment);
        assert Leavable(payload) by {
          assert Start(payload, 1) == Start(payload, 0) + |payload[0].txs|;
        }
        CrossBoundary(payload, i);
      }
      if nextSegment < |segments| { assert segments[nextSegment] == SegmentAt(payload, nextSegment); }
    }

    /** Finishes the last segment and adds up what the boundaries collected. */
    method Finish() returns (r: BlockResult)
      requires segments != []
      modifies this`inner, this`trace, this`indices
      ensures var last := segments[|segments| - 1].ctx;
              && trace == old(trace) + [Post(old(inner).env, last)] && indices == old(indices) + [balIndex]
              && r == BlockResult(old(inner).receipts, accumulatedRequests + requestsOf(last),
                        old(inner).gasUsed + gasUsedOffset, old(inner).blobGasUsed + blobGasUsedOffset)
    {
      inner := inner.(ctx := segments[|segments| - 1].ctx);
      Record(Post(inner.env, inner.ctx));
      r := BlockResult(inner.receipts, requestsOf(inner.ctx), inner.gasUsed, inner.blobGasUsed);
      r := r.(gasUsed := r.gasUsed + gasUsedOffset, blobGasUsed := r.blobGasUsed + blobGasUsedOffset);
      if accumulatedRequests != [] {
        r := r.(requests := accumulatedRequests + r.requests);
      }
    }
  }

  /** Drives a whole big block the way the engine does: pre-execution, then one index bump before
      every commit and one before finishing. */
  method RunBigBlock(payload: seq<Payload>, prior: SeedList, requestsOf: Ctx -> seq<Request>, outerEnv: Env)
    returns (r: BlockResult, trace: seq<Event>, indices: seq<nat>)
    requires payload != [] && Numbered(payload)
    ensures trace == Separately(payload, Seeds(payload, prior), |payload|) <==> Leavable(payload)
    ensures !Leavable(payload) ==> |trace| == |Flat(payload, |payload|)| + 2
    ensures Leavable(payload) ==> Positions(indices, |trace|)
    ensures Leavable(payload) ==> r.requests == RequestsOf(payload, |payload|, requestsOf)
    ensures Totals(Flat(payload, |payload|), r.receipts, r.gasUsed, r.blobGasUsed)
  {
    var segments := SegmentsFor(payload);
    var ex := new Executor(segments, SeedsFor(segments, prior), requestsOf, outerEnv, 0);
    Begin(ex, payload);
    CommitAll(ex, payload);
    r := End(ex, payload);
    trace, indices := ex.trace, ex.indices;
  }

  /** An empty block and then one with a transaction: the first is never left, so that the executed trace
      has three events, where the two blocks separately have five. */
  lemma {:induction false} EmptyFirstBlockIsNeverLeft()
    ensures var payload := [Payload(Env(1, 0), Ctx(0, 0), []), Payload(Env(2, 0), Ctx(0, 1), [Tx(21000, 0, 0)])];
            && Numbered(payload) && !Leavable(payload)
            && |Flat(payload, 2)| + 2 == 3 && |Separately(payload, Seeds(payload, []), 2)| == 5
  {
    var payload := [Payload(Env(1, 0), Ctx(0, 0), []), Payload(Env(2, 0), Ctx(0, 1), [Tx(21000, 0, 0)])];
    assert Start(payload, 1) == 0 && Start(payload, 2) == 1;
  }

  method Begin(ex: Executor, payload: seq<Payload>)
    requires payload != [] && ex.segments == PlanOf(payload)
    requires ex.nextSegment == 1 && ex.txCounter == 0 && !ex.initialized && ex.balIndex == 0
    requires ex.NowBooks() == Books([], 0, 0, 0, 0, []) && ex.trace == [] && ex.indices == []
    modifies ex
    ensures ex.Ready(payload, 0) && ex.balIndex == |ex.trace| == 1
  {
    ex.ApplyPreExecutionChanges();
    StartsReady(payload, ex.seeds, ex.requestsOf);
    assert ex.segments[0] == SegmentAt(payload, 0);
    ex.BumpBalIndex();
  }

  method CommitAll(ex: Executor, payload: seq<Payload>)
    requires ex.Ready(payload, 0) && ex.balIndex == |ex.trace| == 1
    modifies ex
    ensures ex.Ready(payload, |Flat(payload, |payload|)|) && ex.balIndex == |ex.trace|
    ensures !Leavable(payload) ==> |ex.trace| == |Flat(payload, |payload|)| + 1
  {
    var flat := Flat(payload, |payload|);
    for i := 0 to |flat|
      invariant ex.Ready(payload, i) && ex.balIndex == |ex.trace|
      invariant !Leavable(payload) ==> |ex.trace| == i + 1
    {
      CommitNext(ex, flat[i], payload, i);
    }
  }

  method CommitNext(ex: Executor, tx: Tx, payload: seq<Payload>, ghost i: nat)
    requires ex.Ready(payload, i) && i < |Flat(payload, |payload|)| && tx == Flat(payload, |payload|)[i]
    requires ex.balIndex == |ex.trace|
    modifies ex
    ensures ex.Ready(payload, i + 1) && ex.balIndex == |ex.trace|
    ensures !Leavable(payload) ==> |ex.trace| == |old(ex.trace)| + 1
  {
    ex.CommitTransaction(tx, payload, i);
    ex.BumpBalIndex();
  }

  /** Receipts, gas and blob gas of all transactions, each receipt holding the gas up to it. */
  predicate Totals(flat: seq<Tx>, receipts: seq<nat>, gas: nat, blobGas: nat) {
    && |receipts| == |flat| && (forall j :: 0 <= j < |flat| ==> receipts[j] == GasOf(flat[..j + 1]))
    && gas == GasOf(flat) && blobGas == BlobGasOf(flat)
  }

  method End(ex: Executor, payload: seq<Payload>) returns (r: BlockResult)
    requires payload != [] && ex.Ready(payload, |Flat(payload, |payload|)|) && ex.balIndex == |ex.trace|
    requires !Leavable(payload) ==> |ex.trace| == |Flat(payload, |payload|)| + 1
    modifies ex
    ensures ex.trace == Separately(payload, ex.seeds, |payload|) <==> Leavable(payload)
    ensures !Leavable(payload) ==> |ex.trace| == |Flat(payload, |payload|)| + 2
    ensures Leavable(payload) ==> Positions(ex.indices, |ex.trace|)
    ensures Leavable(payload) ==> r.requests == RequestsOf(payload, |payload|, ex.requestsOf)
    ensures Totals(Flat(payload, |payload|), r.receipts, r.gasUsed, r.blobGasUsed)
  {
    EndingTrace(payload, ex.seeds, ex.nextSegment - 1, ex.trace, ex.inner.env);
    EndingBooks(payload, ex.nextSegment - 1, ex.NowBooks(), ex.requestsOf);
    assert ex.segments[|payload| - 1] == SegmentAt(payload, |payload| - 1);
    r := ex.Finish();
  }

  lemma {:induction false} EndingTrace(payload: seq<Payload>, seeds: SeedList, k: nat, trace: seq<Event>, env: Env)
    requires k < |payload| && env == payload[k].env
    requires Leavable(payload) ==>
               && IsCurrent(payload, k, |Flat(payload, |payload|)|)
               && |Flat(payload, |payload|)| <= Start(payload, k + 1)
               && trace == Partway(payload, seeds, k, |Flat(payload, |payload|)|)
    requires !Leavable(payload) ==> |trace| == |Flat(payload, |payload|)| + 1
    ensures trace + [Post(env, payload[|payload| - 1].ctx)] == Separately(payload, seeds, |payload|) <==>
            Leavable(payload)
  {
    if Leavable(payload) {
      LastBlockIsCurrent(payload, k);
      PartwayEnds(payload, seeds, k);
    }
  }

  lemma {:induction false} EndingBooks(payload: seq<Payload>, k: nat, b: Books, requests: Ctx -> seq<Request>)
    requires Balanced(payload, k, |Flat(payload, |payload|)|, b, requests)
    ensures Totals(Flat(payload, |payload|), b.receipts, b.gas + b.gasOffset, b.blob + b.blobOffset)
    ensures Leavable(payload) && IsCurrent(payload, k, |Flat(payload, |payload|)|) ==>
              b.requests + requests(payload[|payload| - 1].ctx) == RequestsOf(payload, |payload|, requests)
  {
    var flat := Flat(payload, |payload|);
    OffsetsAddUp(payload, k, |flat|);
    assert flat[..|flat|] == flat;
    if IsCurrent(payload, k, |flat|) { LastBlockIsCurrent(payload, k); }
  }

  lemma {:induction false} StartsReady(payload: seq<Payload>, seeds: SeedList, requests: Ctx -> seq<Request>)
    requires payload != []
    ensures Balanced(payload, 0, 0, Books([], 0, 0, 0, 0, []), requests)
    ensures Partway(payload, seeds, 0, 0) == [Opening(payload[0], seeds)]
    ensures Leavable(payload) ==> IsCurrent(payload, 0, 0)
  {
    assert Flat(payload, |payload|)[..0] == [] && Flat(payload, |payload|)[0..0] == [];
    assert Start(payload, 0) == 0;
    if |payload| > 1 { assert Start(payload, 1) == |payload[0].txs|; }
  }

  lemma {:induction false} LastBlockIsCurrent(payload: seq<Payload>, k: nat)
    requires IsCurrent(payload, k, |Flat(payload, |payload|)|)
    ensures k == |payload| - 1
  {
    if k + 1 < |payload| { StartMonotone(payload, k + 1, |payload|); }
  }

  // ---- Parallel workers ----

  lemma {:induction false} SeparatelyPrefix(payload: seq<Payload>, seeds: SeedList, j: nat, k: nat)
    requires j <= k <= |payload|
    ensures Separately(payload, seeds, j) <= Separately(payload, seeds, k)
    decreases k
  {
    if j < k { SeparatelyPrefix(payload, seeds, j, k - 1); }
  }

  /** The index a worker renumbers transaction `i` to is that transaction's position in the canonical
      trace, and canonical execution runs it at that index.  A worker that reads writes with smaller
      indices therefore sees exactly the events that precede its transaction, boundaries included. */
  lemma {:induction false} WorkerIndexIsCanonicalPosition(
    segments: seq<Segment>, payload: seq<Payload>, seeds: SeedList, i: nat)
    requires IsPlanOf(segments, payload) && i < |Flat(payload, |payload|)|
    ensures var k := SegmentIndexForTx(segments, i);
            var position := (i + 1) + 2 * k;
            && k < |payload| && position < |Separately(payload, seeds, |payload|)|
            && Separately(payload, seeds, |payload|)[position]
                 == Exec(Flat(payload, |payload|)[i], payload[k].env, payload[k].ctx)
  {
    SegmentContainsTx(segments, payload, i);
    var k := SegmentIndexForTx(segments, i);
    SeparatelyPrefix(payload, seeds, k + 1, |payload|);
    SeparatelyAt(payload, seeds, k, i - Start(payload, k));
  }

  lemma {:induction false} SeparatelyAt(payload: seq<Payload>, seeds: SeedList, k: nat, m: nat)
    requires k < |payload| && m < |payload[k].txs|
    ensures Separately(payload, seeds, k + 1)[Start(payload, k) + 2 * k + 1 + m]
         == Exec(payload[k].txs[m], payload[k].env, payload[k].ctx)
  {
    var p := payload[k];
    assert Separately(payload, seeds, k + 1)[Start(payload, k) + 2 * k + 1 + m] == Execs(p, |p.txs|)[m];
  }

  // ---- The reference, entry by entry ----

  /** Block `k` is opened in its own environment, with the seeds its number can reach, and finished in its
      own environment, right before and right after its transactions. */
  lemma {:induction false} SeparatelyOpensAndFinishes(payload: seq<Payload>, seeds: SeedList, k: nat)
    requires k < |payload|
    ensures var all, p := Separately(payload, seeds, |payload|), payload[k];
            && Start(payload, k + 1) + 2 * k + 1 < |all|
            && all[Start(payload, k) + 2 * k] == Pre(p.env, p.ctx, HashesForBlock(seeds, p.env.number))
            && all[Start(payload, k + 1) + 2 * k + 1] == Post(p.env, p.ctx)
  {
    StartMonotone(payload, k + 1, |payload|);
    SeparatelyPrefix(payload, seeds, k + 1, |payload|);
    var upTo := Separately(payload, seeds, k + 1);
    assert Separately(payload, seeds, |payload|)[..|upTo|] == upTo;
    assert upTo[Start(payload, k) + 2 * k] == Opening(payload[k], seeds);
    assert upTo[Start(payload, k + 1) + 2 * k + 1] == Post(payload[k].env, payload[k].ctx);
  }

  /** The gas of one transaction is its own, so that by `GasSplit` gas and blob gas are plain sums. */
  lemma {:induction false} GasOfOne(t: Tx)
    ensures GasOf([t]) == t.gas && BlobGasOf([t]) == t.blobGas
  {
    assert [t][..0] == [];
  }

  /** The requests of block `j` stand right behind those of the blocks before it. */
  lemma {:induction false} RequestsInOrder(payload: seq<Payload>, j: nat, k: nat, requests: Ctx -> seq<Request>)
    requires j < k <= |payload|
    ensures |RequestsOf(payload, j + 1, requests)| <= |RequestsOf(payload, k, requests)|
    ensures RequestsOf(payload, k, requests)[
              |RequestsOf(payload, j, requests)|..|RequestsOf(payload, j + 1, requests)|] == requests(payload[j].ctx)
    decreases k
  {
    if j + 1 < k { RequestsInOrder(payload, j, k - 1, requests); }
  }
}
