/** The ETL collector: an in-memory buffer spilling sorted runs to files, merged by a heap. */
module Etl {
  import opened Sorting
  import opened Wrappers
  import opened EtlRecords
  import opened EtlMerge

  // ---- Run files ----

  /** The bytes of `r` stand at `pos`: both lengths, then both contents. */
  predicate EncodedAt(bytes: Bytes, pos: nat, r: Record) {
    var key := pos + 2 * KV_LEN;
    var value := key + |r.key|;
    && value + |r.value| <= |bytes|
    && FromBytes(bytes[pos..pos + KV_LEN]) == |r.key|
    && FromBytes(bytes[pos + KV_LEN..key]) == |r.value|
    && bytes[key..value] == r.key
    && bytes[value..value + |r.value|] == r.value
  }

  /** As many bytes are left at `pos` as the lengths standing there call for. */
  predicate Complete(bytes: Bytes, pos: nat) {
    && pos + 2 * KV_LEN <= |bytes|
    && pos + 2 * KV_LEN + FromBytes(bytes[pos..pos + KV_LEN]) + FromBytes(bytes[pos + KV_LEN..pos + 2 * KV_LEN])
       <= |bytes|
  }

  lemma {:induction false} DecodeHead(bytes: Bytes, pos: nat, r: Record, tail: Bytes)
    requires pos <= |bytes| && Fits(r) && bytes[pos..] == Encode(r) + tail
    ensures EncodedAt(bytes, pos, r)
    ensures bytes[pos + 2 * KV_LEN + |r.key| + |r.value|..] == tail
  {
    var from, end := bytes[pos..], 2 * KV_LEN + |r.key| + |r.value|;
    BytesRoundTrip(|r.key|, KV_LEN);
    BytesRoundTrip(|r.value|, KV_LEN);
    assert bytes[pos..pos + KV_LEN] == from[..KV_LEN] == ToBytes(|r.key|, KV_LEN);
    assert bytes[pos + KV_LEN..pos + 2 * KV_LEN] == from[KV_LEN..2 * KV_LEN] == ToBytes(|r.value|, KV_LEN);
    assert bytes[pos + end..] == from[end..] == tail;
  }

  predicate AllFit(rs: seq<Record>) {
    forall i :: 0 <= i < |rs| ==> Fits(rs[i])
  }

  /** A run on disk: its bytes, a read position and the number of records left to read. */
  class EtlFile {
    var bytes: Bytes
    var pos: nat
    var len: nat
    ghost var rest: seq<Record>

    ghost predicate Valid()
      reads this
    {
      && pos <= |bytes|
      && bytes[pos..] == EncodeAll(rest)
      && len == |rest|
      && AllFit(rest)
    }

    constructor (buffer: seq<Record>)
      requires AllFit(buffer)
      ensures Valid() && rest == buffer
    {
      var w: Bytes := [];
      for i := 0 to |buffer|
        invariant w == EncodeAll(buffer[..i])
      {
        EncodeAllAppend(buffer[..i], buffer[i]);
        assert buffer[..i + 1] == buffer[..i] + [buffer[i]];
        w := w + ToBytes(|buffer[i].key|, KV_LEN);
        w := w + ToBytes(|buffer[i].value|, KV_LEN);
        w := w + buffer[i].key;
        w := w + buffer[i].value;
      }
      assert buffer[..|buffer|] == buffer;
      bytes, pos, len, rest := w, 0, |buffer|, buffer;
    }

    /** Fills a buffer of `n` bytes, or fails at the end of the file. */
    method ReadExact(n: nat) returns (r: Result<Bytes>)
      requires pos <= |bytes|
      modifies this`pos
      ensures pos <= |bytes|
      ensures old(pos) + n <= |bytes| ==> r == Ok(bytes[old(pos)..old(pos) + n]) && pos == old(pos) + n
      ensures old(pos) + n > |bytes| ==> r == Err
    {
      if |bytes| - pos < n { return Err; }
      r := Ok(bytes[pos..pos + n]);
      pos := pos + n;
    }

    method ReadRecord() returns (r: Result<Record>)
      requires pos <= |bytes|
      modifies this`pos
      ensures pos <= |bytes| && (r.Ok? <==> Complete(bytes, old(pos)))
      ensures forall x: Record :: EncodedAt(bytes, old(pos), x) ==>
        r == Ok(x) && pos == old(pos) + 2 * KV_LEN + |x.key| + |x.value|
    {
      var keyLength := ReadExact(KV_LEN);
      if keyLength.Err? { return Err; }
      var valueLength := ReadExact(KV_LEN);
      if valueLength.Err? { return Err; }
      var key := ReadExact(FromBytes(keyLength.value));
      if key.Err? { return Err; }
      var value := ReadExact(FromBytes(valueLength.value));
      if value.Err? { return Err; }
      r := Ok(Record(key.value, value.value));
    }

    /** Reads back the records written, in the order written, then nothing; an error exactly when a record
        is still due and the file is too short for it. */
    method ReadNext() returns (r: Result<Option<Record>>)
      requires pos <= |bytes|
      modifies this
      ensures pos <= |bytes| && (r == Err <==> old(len) > 0 && !Complete(bytes, old(pos)))
      ensures old(Valid()) ==> Valid()
      ensures old(Valid()) && old(rest) == [] ==> r == Ok(None) && rest == []
      ensures old(Valid()) && old(rest) != [] ==> r == Ok(Some(old(rest)[0])) && rest == old(rest)[1..]
    {
      if len == 0 { return Ok(None); }
      if Valid() { DecodeHead(bytes, pos, rest[0], EncodeAll(rest[1..])); }
      var record := ReadRecord();
      if record.Err? { return Err; }
      len := len - 1;
      r := Ok(Some(record.value));
      if rest != [] { rest := rest[1..]; }
    }
  }

  /** A file gives back exactly the records it was made from, then nothing, with every byte read. */
  method RoundTrip(records: seq<Record>) returns (back: seq<Record>, end: Result<Option<Record>>, unread: nat)
    requires AllFit(records)
    ensures back == records && end == Ok(None) && unread == 0
  {
    var file := new EtlFile(records);
    back := [];
    end := file.ReadNext();
    while end.Ok? && end.value.Some?
      invariant fresh(file) && file.Valid() && |back| <= |records|
      invariant back == records[..|back|] && end.Ok?
      invariant end.value.Some? ==> |back| < |records| && end.value.value == records[|back|]
      invariant end.value.Some? ==> file.rest == records[|back| + 1..]
      invariant end.value == None ==> |back| == |records| && file.rest == []
      decreases |records| - |back|
    {
      back := back + [end.value.value];
      end := file.ReadNext();
    }
    unread := |file.bytes| - file.pos;
  }

  /** `runs` is what is left to read in each of `files`. */
  ghost predicate OnDisk(files: seq<EtlFile>, runs: seq<seq<Record>>)
    reads files
  {
    && |files| == |runs|
    && (forall i, j :: 0 <= i < j < |files| ==> files[i] != files[j])
    && (forall i :: 0 <= i < |files| ==> files[i].Valid() && files[i].rest == runs[i])
  }

  /** One read from file `id` into the heap: only that run moves on, by the record pushed. */
  method Refill(files: seq<EtlFile>, ghost runs: seq<seq<Record>>, id: nat, heap: seq<HeapItem>)
    returns (r: Result<Option<Record>>, heap': seq<HeapItem>)
    requires OnDisk(files, runs) && id < |files|
    modifies files
    ensures OnDisk(files, Advanced(runs, id))
    ensures r.Ok? && heap' == Refilled(heap, runs, id)
  {
    r := files[id].ReadNext();
    heap' := if r.Ok? && r.value.Some? then heap + [HeapItem(r.value.value, id)] else heap;
  }

  method AddRun(files: seq<EtlFile>, ghost runs: seq<seq<Record>>, run: seq<Record>) returns (files': seq<EtlFile>)
    requires OnDisk(files, runs) && AllFit(run)
    ensures OnDisk(files', runs + [run])
    ensures forall i :: 0 <= i < |files'| ==> files'[i] in files || fresh(files'[i])
  {
    var file := new EtlFile(run);
    files' := files + [file];
  }

  /** The first record of every non-empty run, with the run's index. */
  method FillHeap(
    files: seq<EtlFile>, ghost runs: seq<seq<Record>>)
    returns (heap: seq<HeapItem>, ghost runs': seq<seq<Record>>)
    requires OnDisk(files, runs) && AllSorted(runs)
    modifies files
    ensures OnDisk(files, runs') && Heads(heap, runs', |runs'|)
    ensures Handed(runs, [], heap, runs')
  {
    heap, runs' := [], runs;
    for id := 0 to |files|
      invariant OnDisk(files, runs') && Heads(heap, runs', id)
      invariant Handed(runs, [], heap, runs')
    {
      FillKeepsHanded(runs, heap, runs', id);
      var _, next := Refill(files, runs', id, heap);
      heap, runs' := next, Advanced(runs', id);
    }
  }

  method PopAndRefill(files: seq<EtlFile>, ghost runs: seq<seq<Record>>, heap: seq<HeapItem>)
    returns (r: Result<Record>, heap': seq<HeapItem>, ghost runs': seq<seq<Record>>)
    requires OnDisk(files, runs) && Heads(heap, runs, |runs|) && heap != []
    modifies files
    ensures OnDisk(files, runs') && r.Ok? && Takes(heap, runs, r.value, heap', runs')
  {
    var top, rest := Pop(heap, runs);
    var next;
    next, heap' := Refill(files, runs, top.id, rest);
    runs' := Advanced(runs, top.id);
    r := if next.Ok? then Ok(top.record) else Err;
  }

  // ---- The merging iterator ----

  class EtlIter {
    var heap: seq<HeapItem>
    const files: seq<EtlFile>
    ghost var runs: seq<seq<Record>>

    ghost predicate Valid()
      reads this, files
    {
      OnDisk(files, runs) && Heads(heap, runs, |runs|)
    }

    constructor (heap: seq<HeapItem>, files: seq<EtlFile>, ghost runs: seq<seq<Record>>)
      requires OnDisk(files, runs) && Heads(heap, runs, |runs|)
      ensures this.heap == heap && this.files == files && this.runs == runs && Valid()
    {
      this.heap, this.files, this.runs := heap, files, runs;
    }

    /** Hands out the smallest record still held; nothing only when no head is left. */
    method Next() returns (r: Option<Result<Record>>)
      requires Valid()
      modifies this, files
      ensures Valid()
      ensures r == None <==> old(heap) == []
      ensures r == None ==> heap == [] && runs == old(runs)
      ensures r.Some? ==> r.value.Ok? && Takes(old(heap), old(runs), r.value.value, heap, runs)
    {
      if heap == [] { return None; }
      var entry, heap', runs' := PopAndRefill(files, runs, heap);
      heap, runs := heap', runs';
      r := Some(entry);
    }
  }

  /** Reading the iterator to its end completes `whole`, in key order. */
  method Drain(it: EtlIter, ghost whole: seq<seq<Record>>) returns (out: seq<Record>)
    requires it.Valid() && Handed(whole, [], it.heap, it.runs)
    modifies it, it.files
    ensures KeySorted(out)
    ensures forall x :: Count(out, x) == RunCount(whole, x)
  {
    out := [];
    while true
      invariant it.Valid() && Handed(whole, out, it.heap, it.runs)
      decreases |it.heap| + RunLength(it.runs)
    {
      ghost var heap, runs := it.heap, it.runs;
      var r := it.Next();
      if r == None {
        AllHanded(whole, out, runs);
        return;
      }
      TakeIsHanded(whole, out, heap, runs, r.value.value, it.heap, it.runs);
      out := out + [r.value.value];
    }
  }

  // ---- The collector ----

  function BytesOf(rs: seq<Record>): nat {
    if rs == [] then 0 else |rs[0].key| + |rs[0].value| + BytesOf(rs[1..])
  }

  /** The bytes counted are those a run file takes, apart from two lengths per record. */
  lemma {:induction false} BytesOfIsFileSize(rs: seq<Record>)
    ensures |EncodeAll(rs)| == BytesOf(rs) + 2 * KV_LEN * |rs|
  {
    if rs != [] {
      BytesOfAppend(rs[..|rs| - 1], rs[|rs| - 1]);
      assert rs == rs[..|rs| - 1] + [rs[|rs| - 1]];
      EncodeAllAppend(rs[..|rs| - 1], rs[|rs| - 1]);
      BytesOfIsFileSize(rs[..|rs| - 1]);
    }
  }

  lemma {:induction false} BytesOfAppend(rs: seq<Record>, r: Record)
    ensures BytesOf(rs + [r]) == BytesOf(rs) + |r.key| + |r.value|
  {
    if rs == [] {
      assert rs + [r] == [r];
      assert [r][1..] == [];
    } else {
      assert (rs + [r])[1..] == rs[1..] + [r];
      BytesOfAppend(rs[1..], r);
    }
  }

  /** The runs and the buffer together are a rearrangement of `all`. */
  ghost predicate MakesUp(all: seq<Record>, runs: seq<seq<Record>>, buffer: seq<Record>) {
    forall x :: Count(all, x) == RunCount(runs, x) + Count(buffer, x)
  }

  lemma {:induction false} FlushMakesUp(
    all: seq<Record>, runs: seq<seq<Record>>, buffer: seq<Record>, sorted: seq<Record>)
    requires MakesUp(all, runs, buffer) && SameRecords(sorted, buffer)
    ensures MakesUp(all, runs + [sorted], [])
  {
    forall x ensures Count(all, x) == RunCount(runs + [sorted], x) + Count([], x) {
      RunAppend(runs, sorted, x);
      assert Count(all, x) == RunCount(runs, x) + Count(buffer, x);
      assert Count(sorted, x) == Count(buffer, x);
    }
  }

  /** Writes the buffer out as one more sorted run. */
  method WriteRun(files: seq<EtlFile>, ghost runs: seq<seq<Record>>, buffer: seq<Record>, ghost held: seq<Record>)
    returns (files': seq<EtlFile>, ghost runs': seq<seq<Record>>)
    requires OnDisk(files, runs) && AllSorted(runs) && MakesUp(held, runs, buffer) && AllFit(buffer)
    ensures OnDisk(files', runs') && AllSorted(runs') && MakesUp(held, runs', [])
    ensures forall i :: 0 <= i < |files'| ==> files'[i] in files || fresh(files'[i])
  {
    var sorted := SortBuffer(buffer);
    FlushMakesUp(held, runs, buffer, sorted);
    files' := AddRun(files, runs, sorted);
    runs' := runs + [sorted];
  }

  lemma {:induction false} InsertMakesUp(all: seq<Record>, runs: seq<seq<Record>>, buffer: seq<Record>, r: Record)
    requires MakesUp(all, runs, buffer)
    ensures MakesUp(all + [r], runs, buffer + [r])
  {
    forall x ensures Count(all + [r], x) == RunCount(runs, x) + Count(buffer + [r], x) {
      CountConcat(all, [r], x);
      CountConcat(buffer, [r], x);
      assert Count(all, x) == RunCount(runs, x) + Count(buffer, x);
    }
  }

  /** Any sort by key will do: records with equal keys may come out in any order. */
  method SortBuffer(buffer: seq<Record>) returns (sorted: seq<Record>)
    requires AllFit(buffer)
    ensures KeySorted(sorted) && SameRecords(sorted, buffer) && AllFit(sorted)
  {
    sorted := Sort(KeyLe, buffer);
    SortByKey(buffer);
    SameRecordsFit(sorted, buffer);
  }

  lemma {:induction false} CountPositive(rs: seq<Record>, x: Record)
    ensures Count(rs, x) > 0 <==> x in rs
  {
    if rs != [] {
      CountPositive(rs[1..], x);
      assert rs == [rs[0]] + rs[1..];
    }
  }

  lemma {:induction false} SameRecordsFit(a: seq<Record>, b: seq<Record>)
    requires SameRecords(a, b) && AllFit(b)
    ensures AllFit(a)
  {
    forall i | 0 <= i < |a| ensures Fits(a[i]) {
      CountPositive(a, a[i]);
      CountPositive(b, a[i]);
      assert Count(a, a[i]) == Count(b, a[i]);
    }
  }

  class Collector {
    var files: seq<EtlFile>
    var bufferSizeBytes: nat
    const bufferCapacityBytes: nat
    var buffer: seq<Record>
    var len: nat
    ghost var runs: seq<seq<Record>>
    ghost var held: seq<Record>  // every record inserted since the last clear

    /** The files are sorted runs; files and buffer together hold what was inserted; the byte count
        is the buffer's and never above the capacity. */
    ghost predicate Valid()
      reads this, files
    {
      && Stored() && AllFit(buffer)
      && bufferSizeBytes == BytesOf(buffer) <= bufferCapacityBytes
      && len == |held|
    }

    ghost predicate Stored()
      reads this, files
    {
      OnDisk(files, runs) && AllSorted(runs) && MakesUp(held, runs, buffer)
    }

    constructor (bufferCapacityBytes: nat)
      ensures Valid() && held == [] && files == [] && buffer == [] && this.bufferCapacityBytes == bufferCapacityBytes
    {
      files, bufferSizeBytes, buffer, len, runs, held := [], 0, [], 0, [], [];
      this.bufferCapacityBytes := bufferCapacityBytes;
    }

    method Clear()
      modifies this
      ensures Valid() && held == [] && len == 0 && files == [] && buffer == []
    {
      files, buffer, bufferSizeBytes, len, runs, held := [], [], 0, 0, [], [];
    }

    /** Sorts the buffer and writes it out as one more run. */
    method Flush()
      requires Stored() && AllFit(buffer)
      modifies this`files, this`buffer, this`bufferSizeBytes, this`runs
      ensures Stored() && buffer == [] && bufferSizeBytes == 0
      ensures forall i :: 0 <= i < |files| ==> files[i] in old(files) || fresh(files[i])
    {
      bufferSizeBytes := 0;
      var files', runs' := WriteRun(files, runs, buffer, held);
      files, buffer, runs := files', [], runs';
    }

    method Push(r: Record)
      requires Stored() && AllFit(buffer) && Fits(r) && bufferSizeBytes == BytesOf(buffer)
      modifies this`buffer, this`bufferSizeBytes, this`held
      ensures Stored() && AllFit(buffer) && bufferSizeBytes == BytesOf(buffer)
      ensures buffer == old(buffer) + [r] && held == old(held) + [r]
    {
      BytesOfAppend(buffer, r);
      InsertMakesUp(held, runs, buffer, r);
      bufferSizeBytes := bufferSizeBytes + |r.key| + |r.value|;
      buffer, held := buffer + [r], held + [r];
    }

    method Insert(r: Record)
      requires Valid() && Fits(r)
      modifies this
      ensures Valid() && held == old(held) + [r]
      ensures buffer == Spilled(old(buffer) + [r], bufferCapacityBytes)
      ensures forall i :: 0 <= i < |files| ==> files[i] in old(files) || fresh(files[i])
    {
      Push(r);
      if bufferSizeBytes > bufferCapacityBytes { Flush(); }
      len := len + 1;
    }

    /** The iterator starts with every run; a buffer counted as zero bytes is not written out. */
    method Iter() returns (it: EtlIter)
      requires Valid()
      modifies this, files
      ensures fresh(it) && it.files == files && it.Valid() && Handed(runs, [], it.heap, it.runs)
      ensures held == old(held) && MakesUp(held, runs, buffer)
      ensures buffer == if BytesOf(old(buffer)) > 0 then [] else old(buffer)
      ensures forall i :: 0 <= i < |files| ==> files[i] in old(files) || fresh(files[i])
    {
      if bufferSizeBytes > 0 { Flush(); }
      var heap, left := FillHeap(files, runs);
      it := new EtlIter(heap, files, left);
    }
  }

  // ---- Collecting and reading back ----

  /** What stays in the buffer: nothing once it exceeds the capacity. */
  function Spilled(buffer: seq<Record>, capacity: nat): seq<Record> {
    if BytesOf(buffer) > capacity then [] else buffer
  }

  /** What is still in memory after inserting all of `inputs`. */
  function Pending(inputs: seq<Record>, capacity: nat): seq<Record> {
    if inputs == [] then [] else Spilled(Pending(inputs[..|inputs| - 1], capacity) + [inputs[|inputs| - 1]], capacity)
  }

  lemma {:induction false} LostExactlyWhenBuffered(
    inputs: seq<Record>, runs: seq<seq<Record>>, buffer: seq<Record>, out: seq<Record>)
    requires MakesUp(inputs, runs, buffer) && forall x :: Count(out, x) == RunCount(runs, x)
    ensures SameRecords(out, inputs) <==> buffer == []
  {
    if buffer != [] {
      var x := buffer[0];
      assert Count(inputs, x) == RunCount(runs, x) + Count(buffer, x);
    } else {
      forall x ensures Count(out, x) == Count(inputs, x) {
        assert Count(inputs, x) == RunCount(runs, x) + Count(buffer, x);
      }
    }
  }

  method InsertAll(inputs: seq<Record>, capacity: nat) returns (c: Collector)
    requires AllFit(inputs)
    ensures fresh(c) && c.Valid() && fresh(c.files)
    ensures c.held == inputs && c.buffer == Pending(inputs, capacity)
  {
    c := new Collector(capacity);
    assert Pending(inputs[..0], capacity) == [];
    for i := 0 to |inputs|
      invariant fresh(c) && c.Valid() && fresh(c.files) && c.bufferCapacityBytes == capacity
      invariant c.held == inputs[..i] && c.buffer == Pending(inputs[..i], capacity)
    {
      assert inputs[..i + 1] == inputs[..i] + [inputs[i]];
      assert inputs[..i + 1][..i] == inputs[..i];
      c.Insert(inputs[i]);
    }
    assert inputs[..|inputs|] == inputs;
  }

  /** Whatever the capacity, reading back gives the keys in order, and gives exactly what was
      inserted unless the records left in memory are all empty. */
  method CollectAndRead(inputs: seq<Record>, capacity: nat) returns (out: seq<Record>)
    requires AllFit(inputs)
    ensures KeySorted(out)
    ensures multiset(out) == multiset(inputs) <==>
            Pending(inputs, capacity) == [] || BytesOf(Pending(inputs, capacity)) > 0
  {
    var c := InsertAll(inputs, capacity);
    var it := c.Iter();
    ghost var runs, buffer := c.runs, c.buffer;
    out := Drain(it, runs);
    LostExactlyWhenBuffered(inputs, runs, buffer, out);
    SameRecordsIsPermutation(out, inputs);
  }

  lemma {:induction false} BytesOfPositive(rs: seq<Record>, i: nat)
    requires i < |rs| && (rs[i].key != [] || rs[i].value != [])
    ensures BytesOf(rs) > 0
  {
    if i > 0 { BytesOfPositive(rs[1..], i - 1); }
  }

  lemma {:induction false} PendingIsSuffix(inputs: seq<Record>, capacity: nat)
    ensures |Pending(inputs, capacity)| <= |inputs|
    ensures Pending(inputs, capacity) == inputs[|inputs| - |Pending(inputs, capacity)|..]
  {
    if inputs != [] { PendingIsSuffix(inputs[..|inputs| - 1], capacity); }
  }

  /** With non-empty keys nothing is ever lost. */
  lemma {:induction false} NonEmptyKeysAreKept(inputs: seq<Record>, capacity: nat)
    requires forall i :: 0 <= i < |inputs| ==> inputs[i].key != []
    ensures Pending(inputs, capacity) == [] || BytesOf(Pending(inputs, capacity)) > 0
  {
    PendingIsSuffix(inputs, capacity);
    if Pending(inputs, capacity) != [] { BytesOfPositive(Pending(inputs, capacity), 0); }
  }

  /** One record with neither key nor value stays in the buffer at any capacity. */
  lemma {:induction false} EmptyRecordIsLost(capacity: nat)
    ensures var r := Record([], []); Pending([r], capacity) == [r] && BytesOf([r]) == 0
  {
    var r := Record([], []);
    assert [r][1..] == [];
    assert BytesOf([r]) == 0;
    assert [r][..0] == [];
    assert Pending([r], capacity) == Spilled(Pending([], capacity) + [r], capacity);
    assert Pending([], capacity) + [r] == [r];
  }
}
