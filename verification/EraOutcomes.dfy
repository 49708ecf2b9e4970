/** Which ERA imports succeed and where they end, and that an import can be resumed. */
module EraOutcomes {
  import opened Arith
  import opened Wrappers
  import opened EraWrites

  /** A file's blocks as the reader yields them, and whether marking the file processed succeeds. */
  datatype EraFile = EraFile(items: seq<Result<EraBlock>>, markable: bool)

  datatype Reached = Reached(height: nat, db: Db)

  datatype Step = Continue(reached: Reached) | Stop | Fail

  /** A block up to the height is skipped, one past the target stops the file, a gap fails, and so does
      a block that cannot be written. */
  function ItemOutcome(plan: Plan, item: Result<EraBlock>, at: Reached): Step {
    if item.Err? then Fail
    else
      var n := item.value.header.number;
      if n <= at.height then Continue(at)
      else if plan.target.Some? && n > plan.target.value then Stop
      else if n != at.height + 1 || !Writable(plan, at.db, item.value) then Fail
      else Continue(Reached(n, Write(plan, at.db, item.value)))
  }

  /** Where a file leads, unless an item fails or a file read to its end cannot be marked. */
  function FileOutcome(plan: Plan, items: seq<Result<EraBlock>>, markable: bool, at: Reached): Result<Reached> {
    if items == [] then (if markable then Ok(at) else Err)
    else match ItemOutcome(plan, items[0], at)
      case Fail => Err
      case Stop => Ok(at)
      case Continue(next) => FileOutcome(plan, items[1..], markable, next)
  }

  predicate Done(plan: Plan, at: Reached) {
    plan.target.Some? && at.height >= plan.target.value
  }

  /** Where the files lead one after another, up to the one that reaches the target. */
  function ImportOutcome(plan: Plan, downloads: seq<Result<EraFile>>, at: Reached): Result<Reached> {
    if downloads == [] then Ok(at)
    else if downloads[0].Err? then Err
    else
      match FileOutcome(plan, downloads[0].value.items, downloads[0].value.markable, at)
      case Err => Err
      case Ok(next) => if Done(plan, next) then Ok(next) else ImportOutcome(plan, downloads[1..], next)
  }

  // ---- What a successful import has taken ----

  /** `taken` leads from `db` to `at`. */
  predicate LeadsTo(plan: Plan, db: Db, taken: seq<EraBlock>, at: Reached) {
    Acceptable(plan, db, taken) && at == Reached(plan.height + |taken|, Written(plan, db, taken))
  }

  predicate Downloaded(downloads: seq<Result<EraFile>>, b: EraBlock) {
    exists i :: 0 <= i < |downloads| && downloads[i].Ok? && Ok(b) in downloads[i].value.items
  }

  predicate AllDownloaded(downloads: seq<Result<EraFile>>, bs: seq<EraBlock>) {
    forall k :: 0 <= k < |bs| ==> Downloaded(downloads, bs[k])
  }

  predicate AllFrom(items: seq<Result<EraBlock>>, bs: seq<EraBlock>) {
    forall k :: 0 <= k < |bs| ==> Ok(bs[k]) in items
  }

  lemma {:induction false} ItemTakes(plan: Plan, db: Db, item: Result<EraBlock>, at: Reached, taken: seq<EraBlock>)
    returns (more: seq<EraBlock>)
    requires LeadsTo(plan, db, taken, at) && ItemOutcome(plan, item, at).Continue?
    ensures LeadsTo(plan, db, taken + more, ItemOutcome(plan, item, at).reached) && AllFrom([item], more)
  {
    more := [];
    assert taken + [] == taken;
    if item.value.header.number > at.height {
      more := [item.value];
      TakeOne(plan, db, taken, item.value);
    }
  }

  lemma {:induction false} FileTakes(
    plan: Plan, db: Db, items: seq<Result<EraBlock>>, markable: bool, at: Reached, taken: seq<EraBlock>)
    returns (more: seq<EraBlock>)
    requires LeadsTo(plan, db, taken, at) && FileOutcome(plan, items, markable, at).Ok?
    ensures LeadsTo(plan, db, taken + more, FileOutcome(plan, items, markable, at).value) && AllFrom(items, more)
  {
    more := [];
    assert taken + [] == taken;
    if items != [] && ItemOutcome(plan, items[0], at).Continue? {
      var first := ItemTakes(plan, db, items[0], at, taken);
      var rest := FileTakes(plan, db, items[1..], markable, ItemOutcome(plan, items[0], at).reached, taken + first);
      more := first + rest;
      assert (taken + first) + rest == taken + more;
      FromFirstOrRest(items, first, rest);
    }
  }

  lemma {:induction false} FromFirstOrRest(items: seq<Result<EraBlock>>, first: seq<EraBlock>, rest: seq<EraBlock>)
    requires items != [] && AllFrom([items[0]], first) && AllFrom(items[1..], rest)
    ensures AllFrom(items, first + rest)
  {
    forall k | 0 <= k < |first + rest| ensures Ok((first + rest)[k]) in items {
      if k < |first| { assert Ok(first[k]) in [items[0]]; } else { assert Ok(rest[k - |first|]) in items[1..]; }
    }
  }

  /** A successful import has taken acceptable blocks, all from the files. */
  lemma {:induction false} ImportTakes(
    plan: Plan, db: Db, downloads: seq<Result<EraFile>>, at: Reached, taken: seq<EraBlock>)
    returns (more: seq<EraBlock>)
    requires LeadsTo(plan, db, taken, at) && ImportOutcome(plan, downloads, at).Ok?
    ensures LeadsTo(plan, db, taken + more, ImportOutcome(plan, downloads, at).value)
    ensures AllDownloaded(downloads, more)
  {
    more := [];
    assert taken + [] == taken;
    if downloads != [] {
      var file := downloads[0].value;
      var next := FileOutcome(plan, file.items, file.markable, at).value;
      var first := FileTakes(plan, db, file.items, file.markable, at, taken);
      var rest: seq<EraBlock> := [];
      if Done(plan, next) {
        assert taken + first == (taken + first) + rest;
      } else {
        rest := ImportTakes(plan, db, downloads[1..], next, taken + first);
      }
      DownloadedFirstOrLater(downloads, first, rest);
      assert (taken + first) + rest == taken + (first + rest);
      more := first + rest;
    }
  }

  lemma {:induction false} DownloadedFirstOrLater(
    downloads: seq<Result<EraFile>>, first: seq<EraBlock>, rest: seq<EraBlock>)
    requires downloads != [] && downloads[0].Ok? && AllFrom(downloads[0].value.items, first)
    requires AllDownloaded(downloads[1..], rest)
    ensures AllDownloaded(downloads, first + rest)
  {
    forall k | 0 <= k < |first + rest| ensures Downloaded(downloads, (first + rest)[k]) {
      if k < |first| {
        assert Ok(first[k]) in downloads[0].value.items;
      } else {
        var b := rest[k - |first|];
        assert Downloaded(downloads[1..], b);
        var i :| 0 <= i < |downloads| - 1 && downloads[1..][i].Ok? && Ok(b) in downloads[1..][i].value.items;
        assert downloads[i + 1] == downloads[1..][i];
      }
    }
  }

  lemma {:induction false} AcceptablePrefix(plan: Plan, db: Db, taken: seq<EraBlock>, k: nat)
    requires Acceptable(plan, db, taken) && k <= |taken|
    ensures Acceptable(plan, db, taken[..k])
    decreases |taken|
  {
    if k == |taken| {
      assert taken[..k] == taken;
    } else {
      assert taken[..|taken| - 1][..k] == taken[..k];
      AcceptablePrefix(plan, db, taken[..|taken| - 1], k);
    }
  }

  function At(plan: Plan, db: Db, taken: seq<EraBlock>): Reached {
    Reached(plan.height + |taken|, Written(plan, db, taken))
  }

  lemma {:induction false} AcceptableItemIsTaken(plan: Plan, db: Db, taken: seq<EraBlock>, k: nat)
    requires Acceptable(plan, db, taken) && k < |taken|
    ensures ItemOutcome(plan, Ok(taken[k]), At(plan, db, taken[..k])) == Continue(At(plan, db, taken[..k + 1]))
  {
    AcceptablePrefix(plan, db, taken, k + 1);
    assert taken[..k + 1][..k] == taken[..k];
  }

  /** Conversely, acceptable blocks are taken when a file holds the rest of them. */
  lemma {:induction false} AcceptableFileIsTaken(
    plan: Plan, db: Db, taken: seq<EraBlock>, k: nat, items: seq<Result<EraBlock>>)
    requires Acceptable(plan, db, taken) && k + |items| == |taken|
    requires forall i :: 0 <= i < |items| ==> items[i] == Ok(taken[k + i])
    ensures FileOutcome(plan, items, true, At(plan, db, taken[..k])) == Ok(At(plan, db, taken))
    decreases |items|
  {
    if items == [] {
      assert taken[..k] == taken;
    } else {
      AcceptableItemIsTaken(plan, db, taken, k);
      AcceptableFileIsTaken(plan, db, taken, k + 1, items[1..]);
    }
  }

  // ---- Heights only grow, up to the target ----

  predicate Grows(plan: Plan, at: Reached, next: Reached) {
    && at.height <= next.height && (at.height == next.height ==> at == next)
    && (at.height < next.height && plan.target.Some? ==> next.height <= plan.target.value)
  }

  lemma {:induction false} FileGrows(plan: Plan, items: seq<Result<EraBlock>>, markable: bool, at: Reached)
    requires FileOutcome(plan, items, markable, at).Ok?
    ensures Grows(plan, at, FileOutcome(plan, items, markable, at).value)
  {
    if items != [] && ItemOutcome(plan, items[0], at).Continue? {
      FileGrows(plan, items[1..], markable, ItemOutcome(plan, items[0], at).reached);
    }
  }

  lemma {:induction false} ImportGrows(plan: Plan, downloads: seq<Result<EraFile>>, at: Reached)
    requires ImportOutcome(plan, downloads, at).Ok?
    ensures Grows(plan, at, ImportOutcome(plan, downloads, at).value)
  {
    if downloads != [] {
      var file := downloads[0].value;
      FileGrows(plan, file.items, file.markable, at);
      var next := FileOutcome(plan, file.items, file.markable, at).value;
      if !Done(plan, next) { ImportGrows(plan, downloads[1..], next); }
    }
  }

  // ---- Importing again, and going on ----

  /** A file that led to at most `h` takes nothing when it is read again at `h`. */
  lemma {:induction false} FileAgain(
    plan: Plan, items: seq<Result<EraBlock>>, markable: bool, at: Reached, h: Reached)
    requires FileOutcome(plan, items, markable, at).Ok?
    requires FileOutcome(plan, items, markable, at).value.height <= h.height
    requires plan.target.Some? && h.height > plan.target.value ==> h.height == at.height
    ensures FileOutcome(plan, items, markable, h) == Ok(h)
  {
    if items != [] && ItemOutcome(plan, items[0], at).Continue? {
      var next := ItemOutcome(plan, items[0], at).reached;
      FileGrows(plan, items[1..], markable, next);
      FileAgain(plan, items[1..], markable, next, h);
    }
  }

  lemma {:induction false} ImportAgain(plan: Plan, downloads: seq<Result<EraFile>>, at: Reached, h: Reached)
    requires ImportOutcome(plan, downloads, at).Ok? && ImportOutcome(plan, downloads, at).value.height <= h.height
    requires plan.target.Some? && h.height > plan.target.value ==> h.height == at.height
    ensures ImportOutcome(plan, downloads, h) == Ok(h)
  {
    if downloads != [] {
      var file := downloads[0].value;
      var next := FileOutcome(plan, file.items, file.markable, at).value;
      if !Done(plan, next) { ImportGrows(plan, downloads[1..], next); }
      FileAgain(plan, file.items, file.markable, at, h);
      if !Done(plan, h) { ImportAgain(plan, downloads[1..], next, h); }
    }
  }

  /** One import of `a + b` is an import of `a` that goes on with `b`, unless the target is reached. */
  lemma {:induction false} ImportConcat(
    plan: Plan, a: seq<Result<EraFile>>, b: seq<Result<EraFile>>, at: Reached)
    requires ImportOutcome(plan, a, at).Ok?
    ensures var x := ImportOutcome(plan, a, at).value;
            ImportOutcome(plan, a + b, at) == if a != [] && Done(plan, x) then Ok(x) else ImportOutcome(plan, b, x)
  {
    if a == [] {
      assert a + b == b;
    } else {
      assert (a + b)[1..] == a[1..] + b;
      var next := FileOutcome(plan, a[0].value.items, a[0].value.markable, at).value;
      if !Done(plan, next) { ImportConcat(plan, a[1..], b, next); }
    }
  }

  /** Past the target nothing is taken. */
  lemma {:induction false} NothingPastTarget(plan: Plan, downloads: seq<Result<EraFile>>, at: Reached)
    requires Done(plan, at) && ImportOutcome(plan, downloads, at).Ok?
    ensures ImportOutcome(plan, downloads, at) == Ok(at)
  {
    ImportGrows(plan, downloads, at);
  }

  // ---- Two imports of one store ----

  /** The plan an import makes from the store it finds. */
  function PlanOf(
    genesis: nat, execution: Option<nat>, db: Db, storeReceipts: bool, verifiable: nat -> bool,
    toBlock: Option<nat>): Plan
  {
    var tip := db.headers.Tip().GetOr(genesis);
    Plan(tip, if storeReceipts then Min(tip, db.receipts.Tip().GetOr(genesis)) else tip, storeReceipts, verifiable,
         if storeReceipts then Some(execution.GetOr(genesis)) else toBlock)
  }

  /** A missing receipt segment starts with the entry of the genesis block, which has no receipts. */
  function Seeded(genesis: nat, db: Db, storeReceipts: bool): Db {
    if storeReceipts && db.receipts.Tip() == None then db.(receipts := Segment(genesis, [[]])) else db
  }

  /** Both plans treat every block above `height` alike. */
  ghost predicate SamePlan(a: Plan, b: Plan, height: nat) {
    && a.storeReceipts == b.storeReceipts && a.verifiable == b.verifiable && a.target == b.target
    && (a.headersTip == b.headersTip || (a.headersTip <= height && b.headersTip <= height))
  }

  lemma {:induction false} SameFileOutcome(
    a: Plan, b: Plan, items: seq<Result<EraBlock>>, markable: bool, at: Reached)
    requires SamePlan(a, b, at.height)
    ensures FileOutcome(a, items, markable, at) == FileOutcome(b, items, markable, at)
  {
    if items != [] && ItemOutcome(a, items[0], at).Continue? {
      SameFileOutcome(a, b, items[1..], markable, ItemOutcome(a, items[0], at).reached);
    }
  }

  lemma {:induction false} SameImportOutcome(a: Plan, b: Plan, downloads: seq<Result<EraFile>>, at: Reached)
    requires SamePlan(a, b, at.height)
    ensures ImportOutcome(a, downloads, at) == ImportOutcome(b, downloads, at)
  {
    if downloads != [] && downloads[0].Ok? {
      var file := downloads[0].value;
      SameFileOutcome(a, b, file.items, file.markable, at);
      if FileOutcome(a, file.items, file.markable, at).Ok? {
        FileGrows(a, file.items, file.markable, at);
        SameImportOutcome(a, b, downloads[1..], FileOutcome(a, file.items, file.markable, at).value);
      }
    }
  }

  /** The store that an import leaves is one from which a new import takes up at the same height. */
  lemma {:induction false} TakesUp(
    genesis: nat, execution: Option<nat>, db: Db, storeReceipts: bool, verifiable: nat -> bool, toBlock: Option<nat>,
    taken: seq<EraBlock>, x: Reached)
    requires var plan := PlanOf(genesis, execution, db, storeReceipts, verifiable, toBlock);
             LeadsTo(plan, Seeded(genesis, db, storeReceipts), taken, x)
    ensures var plan := PlanOf(genesis, execution, db, storeReceipts, verifiable, toBlock);
            var again := PlanOf(genesis, execution, x.db, storeReceipts, verifiable, toBlock);
            && Seeded(genesis, x.db, storeReceipts) == x.db
            && again.height == x.height && SamePlan(plan, again, x.height)
  {
    var plan := PlanOf(genesis, execution, db, storeReceipts, verifiable, toBlock);
    AcceptableReflects(plan, Seeded(genesis, db, storeReceipts), taken);
    EntriesOf(New(plan, taken));
    ReceiptsOf(taken);
  }

  /** An import of `a`, short of the target, and then one of `b` end like a single import of `a + b`. */
  lemma {:induction false} ResumedImportIsOne(
    genesis: nat, execution: Option<nat>, db: Db, storeReceipts: bool, verifiable: nat -> bool, toBlock: Option<nat>,
    a: seq<Result<EraFile>>, b: seq<Result<EraFile>>, x: Reached)
    requires var plan := PlanOf(genesis, execution, db, storeReceipts, verifiable, toBlock);
             && ImportOutcome(plan, a, Reached(plan.height, Seeded(genesis, db, storeReceipts))) == Ok(x)
             && !Done(plan, x)
    ensures var plan := PlanOf(genesis, execution, db, storeReceipts, verifiable, toBlock);
            var again := PlanOf(genesis, execution, x.db, storeReceipts, verifiable, toBlock);
            ImportOutcome(again, b, Reached(again.height, Seeded(genesis, x.db, storeReceipts)))
              == ImportOutcome(plan, a + b, Reached(plan.height, Seeded(genesis, db, storeReceipts)))
  {
    var plan := PlanOf(genesis, execution, db, storeReceipts, verifiable, toBlock);
    var again := PlanOf(genesis, execution, x.db, storeReceipts, verifiable, toBlock);
    var at := Reached(plan.height, Seeded(genesis, db, storeReceipts));
    var taken := ImportTakes(plan, at.db, a, at, []);
    assert [] + taken == taken;
    TakesUp(genesis, execution, db, storeReceipts, verifiable, toBlock, taken, x);
    ImportConcat(plan, a, b, at);
    SameImportOutcome(plan, again, b, x);
  }

  /** Importing the same files once more succeeds and takes nothing. */
  lemma {:induction false} ReimportTakesNothing(
    genesis: nat, execution: Option<nat>, db: Db, storeReceipts: bool, verifiable: nat -> bool, toBlock: Option<nat>,
    a: seq<Result<EraFile>>, x: Reached)
    requires var plan := PlanOf(genesis, execution, db, storeReceipts, verifiable, toBlock);
             ImportOutcome(plan, a, Reached(plan.height, Seeded(genesis, db, storeReceipts))) == Ok(x)
    ensures var again := PlanOf(genesis, execution, x.db, storeReceipts, verifiable, toBlock);
            ImportOutcome(again, a, Reached(again.height, Seeded(genesis, x.db, storeReceipts))) == Ok(x)
  {
    var plan := PlanOf(genesis, execution, db, storeReceipts, verifiable, toBlock);
    var again := PlanOf(genesis, execution, x.db, storeReceipts, verifiable, toBlock);
    var at := Reached(plan.height, Seeded(genesis, db, storeReceipts));
    var taken := ImportTakes(plan, at.db, a, at, []);
    assert [] + taken == taken;
    TakesUp(genesis, execution, db, storeReceipts, verifiable, toBlock, taken, x);
    ImportGrows(plan, a, at);
    ImportAgain(plan, a, at, x);
    SameImportOutcome(plan, again, a, x);
  }

  // ---- Without receipts only the files decide ----

  /** No receipts, and segments that end at the header tip. */
  predicate Plain(plan: Plan, db: Db) {
    && !plan.storeReceipts && plan.height == plan.headersTip
    && db.headers.Next() == db.bodies.Next() == plan.headersTip + 1
  }

  lemma {:induction false} PlainIsWritable(plan: Plan, db: Db, taken: seq<EraBlock>, b: EraBlock)
    requires Plain(plan, db) && Acceptable(plan, db, taken) && b.header.number == plan.height + |taken| + 1
    ensures Writable(plan, Written(plan, db, taken), b)
  {
    AcceptableReflects(plan, db, taken);
    EntriesOf(New(plan, taken));
  }

  /** The last number of a run without gaps through the file's blocks, up to the target. */
  function PlainFile(items: seq<Result<EraBlock>>, markable: bool, last: nat, target: Option<nat>): Result<nat> {
    if items == [] then (if markable then Ok(last) else Err)
    else if items[0].Err? then Err
    else
      var n := items[0].value.header.number;
      if n <= last then PlainFile(items[1..], markable, last, target)
      else if target.Some? && n > target.value then Ok(last)
      else if n == last + 1 then PlainFile(items[1..], markable, n, target)
      else Err
  }

  function HeightOf(r: Result<Reached>): Result<nat> {
    match r
    case Err => Err
    case Ok(x) => Ok(x.height)
  }

  function PlainImport(downloads: seq<Result<EraFile>>, last: nat, target: Option<nat>): Result<nat> {
    if downloads == [] then Ok(last)
    else if downloads[0].Err? then Err
    else match PlainFile(downloads[0].value.items, downloads[0].value.markable, last, target)
      case Err => Err
      case Ok(n) => if target.Some? && n >= target.value then Ok(n) else PlainImport(downloads[1..], n, target)
  }

  /** On such segments a file fails only for a gap, an unreadable item or a failed mark. */
  lemma {:induction false} PlainFileOutcome(
    plan: Plan, db: Db, items: seq<Result<EraBlock>>, markable: bool, at: Reached, taken: seq<EraBlock>)
    requires Plain(plan, db) && LeadsTo(plan, db, taken, at)
    ensures HeightOf(FileOutcome(plan, items, markable, at)) == PlainFile(items, markable, at.height, plan.target)
  {
    if items != [] && items[0].Ok? {
      if items[0].value.header.number == at.height + 1 { PlainIsWritable(plan, db, taken, items[0].value); }
      if ItemOutcome(plan, items[0], at).Continue? {
        var more := ItemTakes(plan, db, items[0], at, taken);
        PlainFileOutcome(plan, db, items[1..], markable, ItemOutcome(plan, items[0], at).reached, taken + more);
      }
    }
  }

  /** Without receipts, on segments that end at the header tip, the block numbers in the files decide. */
  lemma {:induction false} PlainOutcome(
    plan: Plan, db: Db, downloads: seq<Result<EraFile>>, at: Reached, taken: seq<EraBlock>)
    requires Plain(plan, db) && LeadsTo(plan, db, taken, at)
    ensures HeightOf(ImportOutcome(plan, downloads, at)) == PlainImport(downloads, at.height, plan.target)
  {
    if downloads != [] && downloads[0].Ok? {
      var file := downloads[0].value;
      PlainFileOutcome(plan, db, file.items, file.markable, at, taken);
      var next := FileOutcome(plan, file.items, file.markable, at);
      if next.Ok? && !Done(plan, next.value) {
        var more := FileTakes(plan, db, file.items, file.markable, at, taken);
        PlainOutcome(plan, db, downloads[1..], next.value, taken + more);
      }
    }
  }

  /** An import without receipts, on segments that end at their tip, ends where the numbers lead from there. */
  lemma {:induction false} PlainImportOutcome(
    genesis: nat, execution: Option<nat>, db: Db, verifiable: nat -> bool, toBlock: Option<nat>,
    downloads: seq<Result<EraFile>>)
    requires db.headers.Next() == db.bodies.Next() == db.headers.Tip().GetOr(genesis) + 1
    ensures var plan := PlanOf(genesis, execution, db, false, verifiable, toBlock);
            HeightOf(ImportOutcome(plan, downloads, Reached(plan.height, db)))
              == PlainImport(downloads, db.headers.Tip().GetOr(genesis), toBlock)
  {
    var plan := PlanOf(genesis, execution, db, false, verifiable, toBlock);
    PlainOutcome(plan, db, downloads, Reached(plan.height, db), []);
  }

  lemma {:induction false} ReceiptsKept(plan: Plan, db: Db, taken: seq<EraBlock>, after: Db)
    requires ReceiptsReflect(plan, db, taken, after)
    ensures db.receipts.first == after.receipts.first && db.receipts.entries <= after.receipts.entries
    ensures !plan.storeReceipts ==> db.receipts == after.receipts
    ensures plan.storeReceipts && taken != [] ==> after.receipts.Tip() == Some(plan.height + |taken|)
  {
    ReceiptsOf(taken);
  }

  lemma {:induction false} BlocksKept(plan: Plan, db: Db, taken: seq<EraBlock>, after: Db)
    requires Consecutive(plan, taken) && BlocksReflect(plan, db, taken, after)
    ensures db.headers.first == after.headers.first && db.headers.entries <= after.headers.entries
    ensures db.bodies.first == after.bodies.first && db.bodies.entries <= after.bodies.entries
    ensures db.hashes <= after.hashes
    ensures var height := plan.height + |taken|;
            if height > plan.headersTip then after.headers.Tip() == after.bodies.Tip() == Some(height)
            else after.headers == db.headers && after.bodies == db.bodies
  {
    EntriesOf(New(plan, taken));
  }

  /** What an import leaves of the store it found, and where the receipts then end. */
  lemma {:induction false} ImportKeeps(plan: Plan, db: Db, taken: seq<EraBlock>, x: Reached)
    requires LeadsTo(plan, db, taken, x)
    ensures db.headers.first == x.db.headers.first && db.headers.entries <= x.db.headers.entries
    ensures db.bodies.first == x.db.bodies.first && db.bodies.entries <= x.db.bodies.entries
    ensures db.receipts.first == x.db.receipts.first && db.receipts.entries <= x.db.receipts.entries
    ensures db.hashes <= x.db.hashes
    ensures !plan.storeReceipts ==> db.receipts == x.db.receipts
    ensures plan.storeReceipts && x.height > plan.height ==> x.db.receipts.Tip() == Some(x.height)
    ensures x.height > plan.headersTip ==> x.db.headers.Tip() == x.db.bodies.Tip() == Some(x.height)
    ensures x.height <= plan.headersTip ==> x.db.headers == db.headers && x.db.bodies == db.bodies
  {
    AcceptableReflects(plan, db, taken);
    ReceiptsKept(plan, db, taken, x.db);
    BlocksKept(plan, db, taken, x.db);
  }

  // ---- Block numbers that lead somewhere ----

  /** The highest block number among the readable items, and at least `last`. */
  function Peak(items: seq<Result<EraBlock>>, last: nat): nat {
    if items == [] then last
    else Peak(items[1..], if items[0].Ok? then Max(last, items[0].value.header.number) else last)
  }

  lemma {:induction false} PeakIsMaximum(items: seq<Result<EraBlock>>, last: nat)
    ensures last <= Peak(items, last)
    ensures forall i :: 0 <= i < |items| && items[i].Ok? ==> items[i].value.header.number <= Peak(items, last)
    ensures Peak(items, last) == last ||
      exists i :: 0 <= i < |items| && items[i].Ok? && items[i].value.header.number == Peak(items, last)
  {
    if items != [] {
      var next: nat := if items[0].Ok? then Max(last, items[0].value.header.number) else last;
      PeakIsMaximum(items[1..], next);
      forall i | 0 < i < |items| && items[i].Ok? ensures items[i].value.header.number <= Peak(items, last) {
        assert items[1..][i - 1] == items[i];
      }
      if i :| 0 <= i < |items| - 1 && items[1..][i].Ok? && items[1..][i].value.header.number == Peak(items, last) {
        assert items[i + 1] == items[1..][i];
      }
    }
  }

  /** Every item is readable and none is more than one above all before it. */
  predicate GapFree(items: seq<Result<EraBlock>>, last: nat) {
    forall i :: 0 <= i < |items| ==> items[i].Ok? && items[i].value.header.number <= Peak(items[..i], last) + 1
  }

  lemma {:induction false} GapFreeFirst(items: seq<Result<EraBlock>>, last: nat)
    requires items != [] && items[0].Ok?
    ensures var n := items[0].value.header.number;
            GapFree(items, last) <==> n <= last + 1 && GapFree(items[1..], Max(last, n))
  {
    var rest, next: nat := items[1..], Max(last, items[0].value.header.number);
    assert items[..0] == [];
    forall i | 0 < i < |items| ensures items[i] == rest[i - 1] && Peak(items[..i], last) == Peak(rest[..i - 1], next) {
      assert items[..i][1..] == rest[..i - 1];
    }
    if GapFree(rest, next) {
      forall i | 0 < i < |items| ensures items[i].Ok? && items[i].value.header.number <= Peak(items[..i], last) + 1 {
        assert rest[i - 1].Ok? && rest[i - 1].value.header.number <= Peak(rest[..i - 1], next) + 1;
      }
    }
    if GapFree(items, last) {
      forall i | 0 <= i < |rest| ensures rest[i].Ok? && rest[i].value.header.number <= Peak(rest[..i], next) + 1 {
        assert items[i + 1] == rest[i];
      }
    }
  }

  /** Without a target a file leads to its highest block exactly when it can be marked and has no gap. */
  lemma {:induction false} PlainFileWithoutTarget(items: seq<Result<EraBlock>>, markable: bool, last: nat)
    ensures PlainFile(items, markable, last, None) ==
      if markable && GapFree(items, last) then Ok(Peak(items, last)) else Err
  {
    if items != [] && items[0].Ok? {
      GapFreeFirst(items, last);
      PlainFileWithoutTarget(items[1..], markable, Max(last, items[0].value.header.number));
    }
  }

  /** With a target the part before the first block past it decides, and need not be marked. */
  lemma {:induction false} PlainFileWithTarget(
    items: seq<Result<EraBlock>>, markable: bool, last: nat, target: nat, cut: nat)
    requires cut <= |items|
    requires forall i :: 0 <= i < cut && items[i].Ok? ==> items[i].value.header.number <= Max(target, last)
    requires cut < |items| ==> items[cut].Ok? && items[cut].value.header.number > Max(target, last)
    ensures PlainFile(items, markable, last, Some(target)) ==
      if (cut < |items| || markable) && GapFree(items[..cut], last) then Ok(Peak(items[..cut], last)) else Err
  {
    if cut > 0 && items[0].Ok? {
      GapFreeFirst(items[..cut], last);
      assert items[..cut][1..] == items[1..][..cut - 1];
      PlainFileWithTarget(items[1..], markable, Max(last, items[0].value.header.number), target, cut - 1);
    }
  }

  lemma {:induction false} GapFreeConcat(a: seq<Result<EraBlock>>, b: seq<Result<EraBlock>>, last: nat)
    requires forall i :: 0 <= i < |a| ==> a[i].Ok?
    ensures Peak(a + b, last) == Peak(b, Peak(a, last))
    ensures GapFree(a + b, last) <==> GapFree(a, last) && GapFree(b, Peak(a, last))
  {
    if a == [] {
      assert a + b == b;
    } else {
      assert (a + b)[1..] == a[1..] + b;
      GapFreeFirst(a, last);
      GapFreeFirst(a + b, last);
      GapFreeConcat(a[1..], b, Max(last, a[0].value.header.number));
    }
  }

  /** The items of all files in order; a failed download counts as an unreadable item. */
  function AllItems(downloads: seq<Result<EraFile>>): seq<Result<EraBlock>> {
    if downloads == [] then []
    else (if downloads[0].Ok? then downloads[0].value.items else [Err]) + AllItems(downloads[1..])
  }

  /** Without a target the files lead to their highest block exactly when each one can be downloaded and
      marked and their blocks, read as one run, have no gap. */
  lemma {:induction false} PlainImportWithoutTarget(downloads: seq<Result<EraFile>>, last: nat)
    ensures var items := AllItems(downloads);
            PlainImport(downloads, last, None) ==
              if (forall i :: 0 <= i < |downloads| ==> downloads[i].Ok? && downloads[i].value.markable)
                 && GapFree(items, last) then Ok(Peak(items, last)) else Err
  {
    if downloads != [] && downloads[0].Ok? {
      var items, rest := downloads[0].value.items, AllItems(downloads[1..]);
      PlainFileWithoutTarget(items, downloads[0].value.markable, last);
      if forall i :: 0 <= i < |items| ==> items[i].Ok? {
        GapFreeConcat(items, rest, last);
        PlainImportWithoutTarget(downloads[1..], Peak(items, last));
      } else {
        var i :| 0 <= i < |items| && !items[i].Ok?;
        assert (items + rest)[i] == items[i];
      }
    }
  }
}
