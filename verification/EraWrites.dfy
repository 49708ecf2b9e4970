/** What an ERA import writes: header, body and receipt segments extended block by block. */
module EraWrites {
  import opened Arith
  import opened Wrappers

  datatype Receipt = Receipt(bloom: set<nat>, data: nat)

  /** The receipts root as what it commits to. */
  datatype Header = Header(number: nat, hash: nat, logsBloom: set<nat>, receiptsRoot: seq<Receipt>)

  datatype EraBlock = EraBlock(header: Header, txCount: nat, receipts: Option<seq<Receipt>>)

  // ---- Static file segments ----

  /** Entries for the consecutive blocks from `first` on. */
  datatype Segment<T> = Segment(first: nat, entries: seq<T>) {
    function Next(): nat { first + |entries| }

    function Tip(): Option<nat> {
      if entries == [] then None else Some(first + |entries| - 1)
    }

    function Get(number: nat): Option<T> {
      if first <= number < first + |entries| then Some(entries[number - first]) else None
    }

    /** A writer accepts only the next block. */
    function Append(number: nat, entry: T): Result<Segment<T>> {
      if number == Next() then Ok(this.(entries := entries + [entry])) else Err
    }
  }

  datatype Db = Db(
    headers: Segment<Header>, bodies: Segment<nat>, receipts: Segment<seq<Receipt>>, hashes: seq<(nat, nat)>)

  function LogsBloom(receipts: seq<Receipt>): set<nat> {
    if receipts == [] then {} else receipts[0].bloom + LogsBloom(receipts[1..])
  }

  predicate VerifyReceipts(header: Header, receipts: seq<Receipt>, checkRoot: bool) {
    LogsBloom(receipts) == header.logsBloom && (checkRoot ==> receipts == header.receiptsRoot)
  }

  lemma {:induction false} LogsBloomIsUnion(receipts: seq<Receipt>, x: nat)
    ensures x in LogsBloom(receipts) <==> exists i :: 0 <= i < |receipts| && x in receipts[i].bloom
  {
    if receipts != [] {
      LogsBloomIsUnion(receipts[1..], x);
      if i :| 0 <= i < |receipts[1..]| && x in receipts[1..][i].bloom { assert x in receipts[i + 1].bloom; }
      if i :| 0 < i < |receipts| && x in receipts[i].bloom { assert x in receipts[1..][i - 1].bloom; }
    }
  }

  /** Receipts are accepted if and only if the header's bloom has exactly the bits of theirs and, where the
      root can be checked, the header commits to them. */
  lemma {:induction false} VerifiedReceipts(header: Header, receipts: seq<Receipt>, checkRoot: bool)
    ensures VerifyReceipts(header, receipts, checkRoot) <==>
      && (forall x :: x in header.logsBloom <==> exists i :: 0 <= i < |receipts| && x in receipts[i].bloom)
      && (checkRoot ==> receipts == header.receiptsRoot)
  {
    forall x ensures x in LogsBloom(receipts) <==> exists i :: 0 <= i < |receipts| && x in receipts[i].bloom {
      LogsBloomIsUnion(receipts, x);
    }
    assert LogsBloom(receipts) == header.logsBloom <==>
      (forall x :: x in LogsBloom(receipts) <==> x in header.logsBloom);
  }

  // ---- One block ----

  /** The tip up to which headers are stored, the height the import resumes from, whether receipts are
      wanted and which can be verified, and the last block wanted. */
  datatype Plan = Plan(
    headersTip: nat, height: nat, storeReceipts: bool, verifiable: nat -> bool, target: Option<nat>)

  /** A block above the tip adds a header, a body and a hash entry; with receipts, every block adds those. */
  function Write(plan: Plan, db: Db, b: EraBlock): Db {
    var added := if b.header.number <= plan.headersTip then db else
      db.(headers := db.headers.(entries := db.headers.entries + [b.header]),
          bodies := db.bodies.(entries := db.bodies.entries + [b.txCount]),
          hashes := db.hashes + [(b.header.hash, b.header.number)]);
    if !plan.storeReceipts then added
    else added.(receipts := db.receipts.(entries := db.receipts.entries + [b.receipts.GetOr([])]))
  }

  /** When a block can be written: the writers stand right before it or the stored header is its own;
      with receipts, there is one per transaction and they match the header. */
  predicate Writable(plan: Plan, db: Db, b: EraBlock) {
    var n := b.header.number;
    && (if n > plan.headersTip then db.headers.Next() == db.bodies.Next() == n
        else db.headers.Get(n).Some? && db.headers.Get(n).value.hash == b.header.hash)
    && (plan.storeReceipts ==>
          && b.receipts.Some? && VerifyReceipts(b.header, b.receipts.value, plan.verifiable(n))
          && (if n > plan.headersTip then Some(b.txCount) else db.bodies.Get(n)) == Some(|b.receipts.value|)
          && db.receipts.Next() == n)
  }

  // ---- All blocks taken ----

  function Written(plan: Plan, db: Db, taken: seq<EraBlock>): Db {
    if taken == [] then db else Write(plan, Written(plan, db, taken[..|taken| - 1]), taken[|taken| - 1])
  }

  /** Each block taken was the next one, not past the target, and could be written. */
  predicate Acceptable(plan: Plan, db: Db, taken: seq<EraBlock>) {
    if taken == [] then plan.height <= plan.headersTip
    else
      var before, b := taken[..|taken| - 1], taken[|taken| - 1];
      && Acceptable(plan, db, before) && b.header.number == plan.height + |taken|
      && (plan.target.Some? ==> b.header.number <= plan.target.value)
      && Writable(plan, Written(plan, db, before), b)
  }

  lemma {:induction false} TakeOne(plan: Plan, db: Db, taken: seq<EraBlock>, b: EraBlock)
    requires Acceptable(plan, db, taken) && b.header.number == plan.height + |taken| + 1
    requires plan.target.Some? ==> b.header.number <= plan.target.value
    requires Writable(plan, Written(plan, db, taken), b)
    ensures Acceptable(plan, db, taken + [b])
    ensures Written(plan, db, taken + [b]) == Write(plan, Written(plan, db, taken), b)
  {
    assert (taken + [b])[..|taken|] == taken;
  }

  /** The blocks taken so far are the ones right after the resume height, in order, none past the target. */
  predicate Consecutive(plan: Plan, taken: seq<EraBlock>) {
    && plan.height <= plan.headersTip
    && (forall k :: 0 <= k < |taken| ==> taken[k].header.number == plan.height + 1 + k)
    && (taken != [] && plan.target.Some? ==> plan.height + |taken| <= plan.target.value)
  }

  /** Of those, the ones above the header tip. */
  function New(plan: Plan, taken: seq<EraBlock>): seq<EraBlock> {
    var known := Minus(plan.headersTip, plan.height);
    if |taken| <= known then [] else taken[known..]
  }

  function Headers(bs: seq<EraBlock>): seq<Header> {
    if bs == [] then [] else Headers(bs[..|bs| - 1]) + [bs[|bs| - 1].header]
  }

  function TxCounts(bs: seq<EraBlock>): seq<nat> {
    if bs == [] then [] else TxCounts(bs[..|bs| - 1]) + [bs[|bs| - 1].txCount]
  }

  function Hashes(bs: seq<EraBlock>): seq<(nat, nat)> {
    if bs == [] then [] else Hashes(bs[..|bs| - 1]) + [(bs[|bs| - 1].header.hash, bs[|bs| - 1].header.number)]
  }

  function Receipts(bs: seq<EraBlock>): seq<seq<Receipt>> {
    if bs == [] then [] else Receipts(bs[..|bs| - 1]) + [bs[|bs| - 1].receipts.GetOr([])]
  }

  lemma {:induction false} EntriesOf(bs: seq<EraBlock>)
    ensures |Headers(bs)| == |TxCounts(bs)| == |bs|
    ensures forall i :: 0 <= i < |bs| ==> Headers(bs)[i] == bs[i].header && TxCounts(bs)[i] == bs[i].txCount
  {
    if bs != [] { EntriesOf(bs[..|bs| - 1]); }
  }

  lemma {:induction false} HashesOf(bs: seq<EraBlock>)
    ensures |Hashes(bs)| == |bs|
    ensures forall i :: 0 <= i < |bs| ==> Hashes(bs)[i] == (bs[i].header.hash, bs[i].header.number)
  {
    if bs != [] { HashesOf(bs[..|bs| - 1]); }
  }

  lemma {:induction false} ReceiptsOf(bs: seq<EraBlock>)
    ensures |Receipts(bs)| == |bs|
    ensures forall i :: 0 <= i < |bs| ==> Receipts(bs)[i] == bs[i].receipts.GetOr([])
  {
    if bs != [] { ReceiptsOf(bs[..|bs| - 1]); }
  }

  function TxCountOf(plan: Plan, db: Db, b: EraBlock): Option<nat> {
    if b.header.number > plan.headersTip then Some(b.txCount) else db.bodies.Get(b.header.number)
  }

  /** A block below the tip is the stored one; with receipts, it carries one per transaction and they
      match the header. */
  predicate Checked(plan: Plan, db: Db, b: EraBlock) {
    var stored := db.headers.Get(b.header.number);
    && (b.header.number <= plan.headersTip ==> stored.Some? && stored.value.hash == b.header.hash)
    && (plan.storeReceipts ==>
          && b.receipts.Some? && TxCountOf(plan, db, b) == Some(|b.receipts.value|)
          && VerifyReceipts(b.header, b.receipts.value, plan.verifiable(b.header.number)))
  }

  predicate AllChecked(plan: Plan, db: Db, taken: seq<EraBlock>) {
    forall k :: 0 <= k < |taken| ==> Checked(plan, db, taken[k])
  }

  lemma {:induction false} NewAppend(plan: Plan, taken: seq<EraBlock>, b: EraBlock)
    requires Consecutive(plan, taken) && b.header.number == plan.height + |taken| + 1
    ensures New(plan, taken + [b]) == if b.header.number > plan.headersTip then New(plan, taken) + [b] else []
    ensures b.header.number <= plan.headersTip ==> New(plan, taken) == []
  {
  }

  /** Headers, bodies and hash entries of `after` are those of `db` plus the new blocks'. */
  ghost predicate BlocksReflect(plan: Plan, db: Db, taken: seq<EraBlock>, after: Db) {
    var added := New(plan, taken);
    && after.headers.first == db.headers.first && after.headers.entries == db.headers.entries + Headers(added)
    && after.bodies.first == db.bodies.first && after.bodies.entries == db.bodies.entries + TxCounts(added)
    && after.hashes == db.hashes + Hashes(added)
    && (added != [] ==> db.headers.Next() == db.bodies.Next() == plan.headersTip + 1)
  }

  /** The receipts of `after` are those of `db` plus, when they are wanted, those of every block taken. */
  ghost predicate ReceiptsReflect(plan: Plan, db: Db, taken: seq<EraBlock>, after: Db) {
    && after.receipts.first == db.receipts.first
    && after.receipts.entries == db.receipts.entries + (if plan.storeReceipts then Receipts(taken) else [])
    && (plan.storeReceipts && taken != [] ==> db.receipts.Next() == plan.height + 1)
  }

  lemma {:induction false} Appended<T>(a: seq<T>, b: seq<T>, x: T)
    ensures a + (b + [x]) == (a + b) + [x]
  {
  }

  lemma {:induction false} AppendedBlockReflects(plan: Plan, db: Db, taken: seq<EraBlock>, b: EraBlock, at: Db)
    requires Consecutive(plan, taken) && plan.height + |taken| + 1 == b.header.number > plan.headersTip
    requires BlocksReflect(plan, db, taken, at) && Writable(plan, at, b)
    ensures BlocksReflect(plan, db, taken + [b], Write(plan, at, b))
  {
    NewAppend(plan, taken, b);
    var added := New(plan, taken);
    assert (added + [b])[..|added|] == added;
    Appended(db.headers.entries, Headers(added), b.header);
    Appended(db.bodies.entries, TxCounts(added), b.txCount);
    Appended(db.hashes, Hashes(added), (b.header.hash, b.header.number));
  }

  lemma {:induction false} KnownBlockReflects(plan: Plan, db: Db, taken: seq<EraBlock>, b: EraBlock, at: Db)
    requires Consecutive(plan, taken) && plan.height + |taken| + 1 == b.header.number <= plan.headersTip
    requires BlocksReflect(plan, db, taken, at)
    ensures BlocksReflect(plan, db, taken + [b], Write(plan, at, b))
    ensures at.headers == db.headers && at.bodies == db.bodies
  {
    NewAppend(plan, taken, b);
  }

  lemma {:induction false} AppendedReceiptsReflect(plan: Plan, db: Db, taken: seq<EraBlock>, b: EraBlock, at: Db)
    requires plan.storeReceipts && ReceiptsReflect(plan, db, taken, at) && Writable(plan, at, b)
    requires b.header.number == plan.height + |taken| + 1
    ensures ReceiptsReflect(plan, db, taken + [b], Write(plan, at, b))
  {
    assert (taken + [b])[..|taken|] == taken;
    Appended(db.receipts.entries, Receipts(taken), b.receipts.value);
  }

  lemma {:induction false} AcceptableIsConsecutive(plan: Plan, db: Db, taken: seq<EraBlock>)
    requires Acceptable(plan, db, taken)
    ensures Consecutive(plan, taken)
  {
    if taken != [] { AcceptableIsConsecutive(plan, db, taken[..|taken| - 1]); }
  }

  lemma {:induction false} BlocksWritten(plan: Plan, db: Db, taken: seq<EraBlock>)
    requires Acceptable(plan, db, taken)
    ensures BlocksReflect(plan, db, taken, Written(plan, db, taken))
  {
    if taken != [] {
      var before, b := taken[..|taken| - 1], taken[|taken| - 1];
      BlocksWritten(plan, db, before);
      AcceptableIsConsecutive(plan, db, before);
      assert taken == before + [b];
      if b.header.number > plan.headersTip {
        AppendedBlockReflects(plan, db, before, b, Written(plan, db, before));
      } else {
        KnownBlockReflects(plan, db, before, b, Written(plan, db, before));
      }
    }
  }

  lemma {:induction false} ReceiptsWritten(plan: Plan, db: Db, taken: seq<EraBlock>)
    requires Acceptable(plan, db, taken)
    ensures ReceiptsReflect(plan, db, taken, Written(plan, db, taken))
  {
    if taken != [] {
      var before, b := taken[..|taken| - 1], taken[|taken| - 1];
      ReceiptsWritten(plan, db, before);
      assert taken == before + [b];
      if plan.storeReceipts { AppendedReceiptsReflect(plan, db, before, b, Written(plan, db, before)); }
    }
  }

  lemma {:induction false} AcceptableIsChecked(plan: Plan, db: Db, taken: seq<EraBlock>)
    requires Acceptable(plan, db, taken)
    ensures AllChecked(plan, db, taken)
  {
    if taken != [] {
      var before, b := taken[..|taken| - 1], taken[|taken| - 1];
      AcceptableIsChecked(plan, db, before);
      if b.header.number <= plan.headersTip {
        BlocksWritten(plan, db, before);
        AcceptableIsConsecutive(plan, db, before);
        KnownBlockReflects(plan, db, before, b, Written(plan, db, before));
      }
      assert Checked(plan, db, b);
    }
  }

  /** What was written, spelled out: consecutive blocks, each checked, and what they add to each segment. */
  lemma {:induction false} AcceptableReflects(plan: Plan, db: Db, taken: seq<EraBlock>)
    requires Acceptable(plan, db, taken)
    ensures Consecutive(plan, taken) && AllChecked(plan, db, taken)
    ensures BlocksReflect(plan, db, taken, Written(plan, db, taken))
    ensures ReceiptsReflect(plan, db, taken, Written(plan, db, taken))
  {
    AcceptableIsConsecutive(plan, db, taken);
    AcceptableIsChecked(plan, db, taken);
    BlocksWritten(plan, db, taken);
    ReceiptsWritten(plan, db, taken);
  }

  /** Conversely, consecutive blocks that are checked and follow what is stored are acceptable. */
  lemma {:induction false} CheckedIsAcceptable(plan: Plan, db: Db, taken: seq<EraBlock>)
    requires Consecutive(plan, taken) && AllChecked(plan, db, taken)
    requires plan.height + |taken| > plan.headersTip ==> db.headers.Next() == db.bodies.Next() == plan.headersTip + 1
    requires plan.storeReceipts && taken != [] ==> db.receipts.Next() == plan.height + 1
    ensures Acceptable(plan, db, taken)
  {
    if taken != [] {
      var before, b := taken[..|taken| - 1], taken[|taken| - 1];
      CheckedIsAcceptable(plan, db, before);
      BlocksWritten(plan, db, before);
      ReceiptsWritten(plan, db, before);
      EntriesOf(New(plan, before));
      ReceiptsOf(before);
      assert Checked(plan, db, b);
      if b.header.number <= plan.headersTip { KnownBlockReflects(plan, db, before, b, Written(plan, db, before)); }
    }
  }

  // ---- What a successful import leaves behind ----

  lemma {:induction false} SegmentExtended<T>(from: Segment<T>, added: seq<T>, n: nat)
    ensures var after := from.(entries := from.entries + added);
            && after.Next() == from.Next() + |added|
            && (n < from.Next() ==> after.Get(n) == from.Get(n))
            && (from.Next() <= n < from.Next() + |added| ==> after.Get(n) == Some(added[n - from.Next()]))
            && (n >= from.Next() + |added| ==> after.Get(n) == None)
  {
  }

  /** Every block above the old tip up to the new height has its own header and body, once, in order;
      every stored entry at or below the tip is as before. */
  lemma {:induction false} HeadersAreContiguous(plan: Plan, db: Db, taken: seq<EraBlock>, after: Db, n: nat)
    requires Consecutive(plan, taken) && BlocksReflect(plan, db, taken, after)
    requires db.headers.Next() == db.bodies.Next() == plan.headersTip + 1
    ensures var height := plan.height + |taken|;
            && after.headers.Next() == after.bodies.Next() == Max(height, plan.headersTip) + 1
            && (n <= plan.headersTip ==>
                  after.headers.Get(n) == db.headers.Get(n) && after.bodies.Get(n) == db.bodies.Get(n))
            && (plan.headersTip < n <= height ==>
                  && taken[n - plan.height - 1].header.number == n
                  && after.headers.Get(n) == Some(taken[n - plan.height - 1].header)
                  && after.bodies.Get(n) == Some(taken[n - plan.height - 1].txCount))
            && (n > Max(height, plan.headersTip) ==> after.headers.Get(n) == None && after.bodies.Get(n) == None)
  {
    var added := New(plan, taken);
    EntriesOf(added);
    SegmentExtended(db.headers, Headers(added), n);
    SegmentExtended(db.bodies, TxCounts(added), n);
  }

  /** The stored header of a block taken is its own, and its body the one that was counted. */
  lemma {:induction false} BlockIsStored(plan: Plan, db: Db, taken: seq<EraBlock>, after: Db, n: nat)
    requires Consecutive(plan, taken) && AllChecked(plan, db, taken) && BlocksReflect(plan, db, taken, after)
    requires plan.height < n <= plan.height + |taken|
    ensures var b := taken[n - plan.height - 1];
            && after.headers.Get(n).Some? && after.headers.Get(n).value.hash == b.header.hash
            && (TxCountOf(plan, db, b).Some? ==> after.bodies.Get(n) == TxCountOf(plan, db, b))
  {
    var b, added := taken[n - plan.height - 1], New(plan, taken);
    assert Checked(plan, db, b) && b.header.number == n;
    EntriesOf(added);
    SegmentExtended(db.headers, Headers(added), n);
    SegmentExtended(db.bodies, TxCounts(added), n);
  }

  /** The header of a checked block has the bloom of its receipts and, where it can be checked, their root. */
  lemma {:induction false} ReceiptsMatchHeader(plan: Plan, db: Db, b: EraBlock)
    requires plan.storeReceipts && Checked(plan, db, b)
    ensures b.receipts.Some? && TxCountOf(plan, db, b) == Some(|b.receipts.value|)
    ensures plan.verifiable(b.header.number) ==> b.receipts.value == b.header.receiptsRoot
    ensures forall x :: x in b.header.logsBloom <==>
      exists i :: 0 <= i < |b.receipts.value| && x in b.receipts.value[i].bloom
  {
    VerifiedReceipts(b.header, b.receipts.value, plan.verifiable(b.header.number));
  }

  lemma {:induction false} ReceiptsAreStored(plan: Plan, db: Db, taken: seq<EraBlock>, after: Db, n: nat)
    requires ReceiptsReflect(plan, db, taken, after)
    requires plan.storeReceipts && plan.height < n <= plan.height + |taken|
    ensures after.receipts.Tip() == Some(plan.height + |taken|)
    ensures after.receipts.Get(n) == Some(taken[n - plan.height - 1].receipts.GetOr([]))
  {
    ReceiptsOf(taken);
    SegmentExtended(db.receipts, Receipts(taken), n);
  }

  /** After a repair the receipts reach the height: every block has one receipt per transaction of its
      stored body, the header's bloom is theirs, and so is its root where it can be checked. */
  lemma {:induction false} ReceiptsAreContiguous(plan: Plan, db: Db, taken: seq<EraBlock>, after: Db, n: nat)
    requires Consecutive(plan, taken) && ReceiptsReflect(plan, db, taken, after) && AllChecked(plan, db, taken)
    requires BlocksReflect(plan, db, taken, after)
    requires plan.storeReceipts && plan.height < n <= plan.height + |taken|
    ensures var b := taken[n - plan.height - 1];
            && after.receipts.Tip() == Some(plan.height + |taken|)
            && b.receipts.Some? && after.receipts.Get(n) == b.receipts
            && after.bodies.Get(n) == Some(|b.receipts.value|)
            && after.headers.Get(n).Some? && after.headers.Get(n).value.hash == b.header.hash
            && (plan.verifiable(n) ==> b.receipts.value == b.header.receiptsRoot)
            && (forall x :: x in b.header.logsBloom <==>
                  exists i :: 0 <= i < |b.receipts.value| && x in b.receipts.value[i].bloom)
  {
    var b := taken[n - plan.height - 1];
    assert Checked(plan, db, b) && b.header.number == n;
    ReceiptsMatchHeader(plan, db, b);
    ReceiptsAreStored(plan, db, taken, after, n);
    BlockIsStored(plan, db, taken, after, n);
  }
}
