/** Importing ERA files into a store, file by file up to a target. */
module EraImport {
  import opened Arith
  import opened Wrappers
  import opened EraWrites
  import opened EraOutcomes

  /** Every item of the file is a block at or below `height`. */
  predicate Consumed(file: EraFile, height: nat) {
    forall j :: 0 <= j < |file.items| ==> file.items[j].Ok? && file.items[j].value.header.number <= height
  }

  /** The files marked are among those downloaded, and nothing in them lies above `height`. */
  predicate AllConsumed(downloads: seq<Result<EraFile>>, marked: seq<nat>, height: nat) {
    forall m :: 0 <= m < |marked| ==>
      marked[m] < |downloads| && downloads[marked[m]].Ok? && Consumed(downloads[marked[m]].value, height)
  }

  /** Without receipts the result is where the files lead. A repair succeeds if and only if it may start and
      the files lead exactly to its target. What the files lead to is in the store, also when a repair falls
      short; what a success has taken came from the files, and each file marked was consumed. */
  predicate Imported(
    plan: Plan, db: Db, may: bool, downloads: seq<Result<EraFile>>,
    r: Result<nat>, marked: seq<nat>, taken: seq<EraBlock>, after: Db)
  {
    var outcome := ImportOutcome(plan, downloads, Reached(plan.height, db));
    && (!may ==> r == Err)
    && (!plan.storeReceipts ==> r == HeightOf(outcome))
    && (plan.storeReceipts ==> (r.Ok? <==> may && outcome.Ok? && Some(outcome.value.height) == plan.target))
    && (plan.storeReceipts && r.Ok? ==> plan.height < r.value)
    && (may && outcome.Ok? ==> after == outcome.value.db)
    && (r.Ok? ==> LeadsTo(plan, db, taken, Reached(r.value, after)) && AllDownloaded(downloads, taken))
    && (r.Ok? ==> AllConsumed(downloads, marked, r.value))
  }

  class Store {
    const genesis: nat
    var headers: Segment<Header>
    var bodies: Segment<nat>
    var receipts: Segment<seq<Receipt>>
    var hashes: seq<(nat, nat)>
    var headersCheckpoint: Option<nat>
    var bodiesCheckpoint: Option<nat>
    var executionCheckpoint: Option<nat>
    const receiptsInStaticFiles: bool

    function Held(): Db
      reads this
    {
      Db(headers, bodies, receipts, hashes)
    }

    /** The header, body and hash of a new block. */
    method AppendBlock(b: EraBlock) returns (ok: bool)
      modifies this`headers, this`bodies, this`hashes
      ensures ok <==> old(headers).Next() == old(bodies).Next() == b.header.number
      ensures ok ==> old(headers).Append(b.header.number, b.header) == Ok(headers)
      ensures ok ==> old(bodies).Append(b.header.number, b.txCount) == Ok(bodies)
      ensures ok ==> hashes == old(hashes) + [(b.header.hash, b.header.number)]
    {
      var h := headers.Append(b.header.number, b.header);
      if h.Err? { return false; }
      headers := h.value;
      var c := bodies.Append(b.header.number, b.txCount);
      if c.Err? { return false; }
      bodies := c.value;
      hashes := hashes + [(b.header.hash, b.header.number)];
      ok := true;
    }

    method WriteBlockReceipts(number: nat, blockReceipts: Option<seq<Receipt>>) returns (ok: bool)
      modifies this`receipts
      ensures ok <==> blockReceipts.Some? && bodies.Get(number) == Some(|blockReceipts.value|)
                      && old(receipts).Next() == number
      ensures ok ==> old(receipts).Append(number, blockReceipts.value) == Ok(receipts)
    {
      if blockReceipts == None { return false; }
      var indices := bodies.Get(number);
      if indices == None { return false; }
      if |blockReceipts.value| != indices.value { return false; }
      var s := receipts.Append(number, blockReceipts.value);
      if s.Err? { return false; }
      receipts := s.value;
      ok := true;
    }

    /** One block: its header and body are written or compared with the stored ones, then its
        receipts are verified and appended when they are wanted. */
    method TakeBlock(plan: Plan, b: EraBlock) returns (ok: bool)
      modifies this`headers, this`bodies, this`hashes, this`receipts
      ensures ok <==> Writable(plan, old(Held()), b)
      ensures ok ==> Held() == Write(plan, old(Held()), b)
    {
      if b.header.number > plan.headersTip {
        ok := AppendBlock(b);
        if !ok { return; }
      } else {
        var stored := headers.Get(b.header.number);
        if stored == None || stored.value.hash != b.header.hash { return false; }
      }
      if !plan.storeReceipts { return true; }
      if b.receipts.Some? && !VerifyReceipts(b.header, b.receipts.value, plan.verifiable(b.header.number)) {
        return false;
      }
      ok := WriteBlockReceipts(b.header.number, b.receipts);
    }

    /** Skips an old block, stops past the target, refuses a gap, and otherwise takes the block. */
    method ProcessItem(plan: Plan, item: Result<EraBlock>, last: nat) returns (step: Step)
      modifies this`headers, this`bodies, this`hashes, this`receipts
      ensures step == ItemOutcome(plan, item, Reached(last, old(Held())))
      ensures step.Continue? ==> Held() == step.reached.db
      ensures step.Stop? ==> Held() == old(Held())
    {
      if item.Err? { return Fail; }
      var number := item.value.header.number;
      if number <= last { return Continue(Reached(last, Held())); }
      if plan.target.Some? && number > plan.target.value { return Stop; }
      if number != last + 1 { return Fail; }
      var ok := TakeBlock(plan, item.value);
      step := if ok then Continue(Reached(number, Held())) else Fail;
    }

    /** One file: takes the blocks that follow the height up to the target, and marks the file exactly
        when every block in it was consumed. */
    method ProcessFile(plan: Plan, file: EraFile, height: nat) returns (r: Result<Reached>, marked: bool)
      modifies this`headers, this`bodies, this`hashes, this`receipts
      ensures r == FileOutcome(plan, file.items, file.markable, Reached(height, old(Held())))
      ensures r.Ok? ==> Held() == r.value.db && (marked <==> Consumed(file, r.value.height))
      ensures marked ==> r.Ok?
    {
      var last: nat := height;
      ghost var outcome := FileOutcome(plan, file.items, file.markable, Reached(height, Held()));
      assert file.items[0..] == file.items;
      for i := 0 to |file.items|
        invariant outcome == FileOutcome(plan, file.items[i..], file.markable, Reached(last, Held()))
        invariant forall j :: 0 <= j < i ==> file.items[j].Ok? && file.items[j].value.header.number <= last
      {
        assert file.items[i..][1..] == file.items[i + 1..];
        var step := ProcessItem(plan, file.items[i], last);
        match step {
          case Fail => return Err, false;
          case Stop => return Ok(Reached(last, Held())), false;
          case Continue(next) => last := next.height;
        }
      }
      if !file.markable { return Err, false; }
      r, marked := Ok(Reached(last, Held())), true;
    }

    method SaveStageCheckpoints(height: nat)
      modifies this`headersCheckpoint, this`bodiesCheckpoint
      ensures headersCheckpoint == bodiesCheckpoint == Some(height)
    {
      headersCheckpoint := Some(height);
      bodiesCheckpoint := Some(height);
    }

    /** File after file until the target is reached: after each one both checkpoints stand at the
        height, or at the header tip while the import trails it. */
    method ImportFiles(plan: Plan, downloads: seq<Result<EraFile>>) returns (r: Result<Reached>, marked: seq<nat>)
      modifies this`headers, this`bodies, this`hashes, this`receipts, this`headersCheckpoint, this`bodiesCheckpoint
      ensures r == ImportOutcome(plan, downloads, Reached(plan.height, old(Held())))
      ensures r.Ok? ==> Held() == r.value.db && AllConsumed(downloads, marked, r.value.height)
      ensures r.Ok? && downloads != [] ==>
        headersCheckpoint == bodiesCheckpoint == Some(Max(r.value.height, plan.headersTip))
      ensures downloads == [] ==>
        headersCheckpoint == old(headersCheckpoint) && bodiesCheckpoint == old(bodiesCheckpoint)
    {
      var height: nat := plan.height;
      marked := [];
      ghost var outcome := ImportOutcome(plan, downloads, Reached(height, Held()));
      assert downloads[0..] == downloads;
      for i := 0 to |downloads|
        invariant outcome == ImportOutcome(plan, downloads[i..], Reached(height, Held()))
        invariant AllConsumed(downloads, marked, height)
        invariant i > 0 ==> headersCheckpoint == bodiesCheckpoint == Some(Max(height, plan.headersTip))
        invariant i == 0 ==>
          headersCheckpoint == old(headersCheckpoint) && bodiesCheckpoint == old(bodiesCheckpoint)
      {
        assert downloads[i..][1..] == downloads[i + 1..];
        if downloads[i].Err? { return Err, marked; }
        var file := downloads[i].value;
        ghost var at := Reached(height, Held());
        var reached, mark := ProcessFile(plan, file, height);
        if reached.Err? { return Err, marked; }
        FileGrows(plan, file.items, file.markable, at);
        height := reached.value.height;
        if mark { marked := marked + [i]; }
        SaveStageCheckpoints(Max(height, plan.headersTip));
        if plan.target.Some? && height >= plan.target.value { return reached, marked; }
      }
      r := Ok(Reached(height, Held()));
    }

    ghost function PlanHere(storeReceipts: bool, verifiable: nat -> bool, toBlock: Option<nat>): Plan
      reads this
    {
      PlanOf(genesis, executionCheckpoint, Held(), storeReceipts, verifiable, toBlock)
    }

    /** What a receipt repair demands before anything is written. */
    predicate CanRepair(height: nat, toBlock: Option<nat>, verifiable: nat -> bool)
      reads this
    {
      && receiptsInStaticFiles
      && executionCheckpoint.Some? && genesis < executionCheckpoint.value && height < executionCheckpoint.value
      && (toBlock.Some? ==> toBlock == executionCheckpoint)
      && verifiable(height + 1)
    }

    method CheckRepair(height: nat, toBlock: Option<nat>, verifiable: nat -> bool) returns (r: Result<nat>)
      ensures r.Ok? <==> CanRepair(height, toBlock, verifiable)
      ensures r.Ok? ==> executionCheckpoint == Some(r.value) && receiptsInStaticFiles
      ensures r.Ok? ==> Max(genesis, height) < r.value && verifiable(height + 1) && toBlock.GetOr(r.value) == r.value
      ensures r.Err? ==>
        || !receiptsInStaticFiles || executionCheckpoint.GetOr(genesis) <= Max(genesis, height)
        || toBlock.GetOr(executionCheckpoint.GetOr(genesis)) != executionCheckpoint.GetOr(genesis)
        || !verifiable(height + 1)
    {
      if !receiptsInStaticFiles { return Err; }
      var target := executionCheckpoint.GetOr(genesis);
      if target <= genesis { return Err; }
      if height >= target { return Err; }
      if toBlock.Some? && toBlock.value != target { return Err; }
      if !verifiable(height + 1) { return Err; }
      r := Ok(target);
    }

    /** The tips found decide the plan; a repair is refused before anything is written. */
    method Prepare(toBlock: Option<nat>, storeReceipts: bool, verifiable: nat -> bool) returns (r: Result<Plan>)
      modifies this`receipts
      ensures r.Ok? <==>
        !storeReceipts || old(CanRepair(PlanHere(storeReceipts, verifiable, toBlock).height, toBlock, verifiable))
      ensures r.Ok? ==> r.value == old(PlanHere(storeReceipts, verifiable, toBlock))
      ensures r.Ok? ==> r.value.headersTip == headers.Tip().GetOr(genesis) && r.value.verifiable == verifiable
      ensures r.Ok? ==> r.value.storeReceipts == storeReceipts
      ensures r.Ok? ==> r.value.target == if storeReceipts then executionCheckpoint else toBlock
      ensures r.Ok? ==> r.value.height <= r.value.headersTip
      ensures r.Ok? && !storeReceipts ==> r.value.height == r.value.headersTip && unchanged(this)
      ensures r.Ok? && storeReceipts ==>
        && receipts.Tip().Some? && r.value.height == Min(r.value.headersTip, receipts.Tip().value)
        && (old(receipts.Tip()).Some? ==> unchanged(this))
        && (old(receipts.Tip()) == None ==> receipts.Tip() == Some(genesis) && receipts.Get(genesis) == Some([]))
      ensures r.Ok? ==> Held() == old(Seeded(genesis, Held(), storeReceipts))
      ensures r.Err? ==> unchanged(this)
    {
      var headersTip := headers.Tip().GetOr(genesis);
      if !storeReceipts { return Ok(Plan(headersTip, headersTip, false, verifiable, toBlock)); }
      var height := Min(headersTip, receipts.Tip().GetOr(genesis));
      var target := CheckRepair(height, toBlock, verifiable);
      if target.Err? { return Err; }
      if receipts.Tip() == None { receipts := Segment(genesis, [[]]); }
      r := Ok(Plan(headersTip, height, true, verifiable, Some(target.value)));
    }

    /** The files, once the plan allows them; a repair that falls short of its target fails. */
    method RunImport(
      downloads: seq<Result<EraFile>>, toBlock: Option<nat>, storeReceipts: bool, verifiable: nat -> bool)
      returns (r: Result<nat>, marked: seq<nat>, ghost taken: seq<EraBlock>)
      modifies this`headers, this`bodies, this`hashes, this`receipts, this`headersCheckpoint, this`bodiesCheckpoint
      ensures var plan := old(PlanHere(storeReceipts, verifiable, toBlock));
              var may := !storeReceipts || old(CanRepair(plan.height, toBlock, verifiable));
              && Imported(plan, old(Seeded(genesis, Held(), storeReceipts)), may, downloads, r, marked, taken, Held())
              && (!may ==> unchanged(this))
              && (r.Ok? && downloads != [] ==>
                    headersCheckpoint == bodiesCheckpoint == Some(Max(r.value, plan.headersTip)))
      ensures storeReceipts && r.Ok? ==> Some(r.value) == executionCheckpoint
    {
      marked, taken := [], [];
      var plan := Prepare(toBlock, storeReceipts, verifiable);
      if plan.Err? { return Err, marked, taken; }
      ghost var at := Reached(plan.value.height, Held());
      var reached;
      reached, marked := ImportFiles(plan.value, downloads);
      if reached.Err? { return Err, marked, taken; }
      taken := ImportTakes(plan.value, at.db, downloads, at, []);
      assert [] + taken == taken;
      ImportGrows(plan.value, downloads, at);
      if storeReceipts && !Done(plan.value, reached.value) { return Err, marked, taken; }
      r := Ok(reached.value.height);
    }

    /** An import never goes past a target above the tip it found, and only ever adds to what is stored.
        Without receipts, on segments that end at that tip, the numbers in the files decide its result;
        with receipts, a success leaves receipts up to the height. */
    method Import(downloads: seq<Result<EraFile>>, toBlock: Option<nat>, storeReceipts: bool, verifiable: nat -> bool)
      returns (r: Result<nat>, marked: seq<nat>, ghost taken: seq<EraBlock>)
      modifies this`headers, this`bodies, this`hashes, this`receipts, this`headersCheckpoint, this`bodiesCheckpoint
      ensures var plan := old(PlanHere(storeReceipts, verifiable, toBlock));
              var may := !storeReceipts || old(CanRepair(plan.height, toBlock, verifiable));
              && Imported(plan, old(Seeded(genesis, Held(), storeReceipts)), may, downloads, r, marked, taken, Held())
              && (!may ==> unchanged(this))
              && (r.Ok? && downloads != [] ==>
                    headersCheckpoint == bodiesCheckpoint == Some(Max(r.value, plan.headersTip)))
      ensures storeReceipts && r.Ok? ==> Some(r.value) == executionCheckpoint
      ensures r.Ok? && toBlock.Some? ==> r.value <= Max(toBlock.value, old(headers.Tip().GetOr(genesis)))
      ensures !storeReceipts && old(headers.Next() == bodies.Next() == headers.Tip().GetOr(genesis) + 1) ==>
        r == PlainImport(downloads, old(headers.Tip().GetOr(genesis)), toBlock)
      ensures !storeReceipts && r.Ok? ==> r.value >= old(headers.Tip().GetOr(genesis)) && receipts == old(receipts)
      ensures storeReceipts && r.Ok? ==> receipts.Tip() == Some(r.value)
      ensures r.Ok? && r.value > old(headers.Tip().GetOr(genesis)) ==> headers.Tip() == bodies.Tip() == Some(r.value)
      ensures r.Ok? && r.value <= old(headers.Tip().GetOr(genesis)) ==> headers == old(headers) && bodies == old(bodies)
      ensures r.Ok? ==> old(headers.entries) <= headers.entries && old(bodies.entries) <= bodies.entries
      ensures r.Ok? ==> old(hashes) <= hashes && old(receipts.entries) <= receipts.entries
    {
      ghost var db, plan := Seeded(genesis, Held(), storeReceipts), PlanHere(storeReceipts, verifiable, toBlock);
      if headers.Next() == bodies.Next() == headers.Tip().GetOr(genesis) + 1 {
        PlainImportOutcome(genesis, executionCheckpoint, Held(), verifiable, toBlock, downloads);
      }
      r, marked, taken := RunImport(downloads, toBlock, storeReceipts, verifiable);
      if r.Ok? {
        ImportGrows(plan, downloads, Reached(plan.height, db));
        ImportKeeps(plan, db, taken, Reached(r.value, Held()));
      }
    }
  }
}
