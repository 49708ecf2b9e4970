/** The k-way merge over sorted runs, as values: one head per unexhausted run. */
module EtlMerge {
  import opened EtlRecords

  /** A record together with the run it was read from. */
  datatype HeapItem = HeapItem(record: Record, id: nat)

  /** The heap pops the smallest record; among equal ones, the one from the latest run. */
  predicate PopsBefore(x: HeapItem, y: HeapItem) {
    RecordLe(x.record, y.record) && (x.record == y.record ==> x.id >= y.id)
  }

  lemma {:induction false} PopTotal(x: HeapItem, y: HeapItem)
    ensures PopsBefore(x, y) || PopsBefore(y, x)
  {
    RecordTotal(x.record, y.record);
  }

  lemma {:induction false} PopTransitive(x: HeapItem, y: HeapItem, z: HeapItem)
    requires PopsBefore(x, y) && PopsBefore(y, z)
    ensures PopsBefore(x, z)
  {
    RecordTransitive(x.record, y.record, z.record);
    if x.record == z.record { RecordAntisymmetric(x.record, y.record); }
  }

  method IndexOfTop(heap: seq<HeapItem>) returns (b: nat)
    requires heap != []
    ensures b < |heap| && forall i :: 0 <= i < |heap| ==> PopsBefore(heap[b], heap[i])
    ensures forall i :: 0 <= i < |heap| ==> LexLe(heap[b].record.key, heap[i].record.key)
    ensures forall i :: 0 <= i < |heap| && heap[i].record.key == heap[b].record.key ==>
      LexLe(heap[b].record.value, heap[i].record.value)
    ensures forall i :: 0 <= i < |heap| && heap[i].record == heap[b].record ==> heap[i].id <= heap[b].id
  {
    b := 0;
    PopTotal(heap[0], heap[0]);
    for n := 1 to |heap|
      invariant b < n && forall i :: 0 <= i < n ==> PopsBefore(heap[b], heap[i])
    {
      if !PopsBefore(heap[b], heap[n]) {
        PopTotal(heap[b], heap[n]);
        PopTotal(heap[n], heap[n]);
        forall i | 0 <= i < n ensures PopsBefore(heap[n], heap[i]) {
          PopTransitive(heap[n], heap[b], heap[i]);
        }
        b := n;
      }
    }
  }

  // ---- Heads and runs ----

  predicate HasHead(heap: seq<HeapItem>, id: nat) {
    exists i :: 0 <= i < |heap| && heap[i].id == id
  }

  predicate ValidHead(item: HeapItem, runs: seq<seq<Record>>, upTo: nat) {
    item.id < upTo <= |runs| && KeySorted([item.record] + runs[item.id])
  }

  /** Of the first `upTo` runs, each unexhausted one has exactly one head in the heap, smaller than
      what is left of the run; the other runs are sorted and untouched. */
  predicate Heads(heap: seq<HeapItem>, runs: seq<seq<Record>>, upTo: nat) {
    && upTo <= |runs|
    && (forall i :: 0 <= i < |heap| ==> ValidHead(heap[i], runs, upTo))
    && (forall i, j :: 0 <= i < j < |heap| ==> heap[i].id != heap[j].id)
    && (forall id {:trigger HasHead(heap, id)} :: 0 <= id < upTo && runs[id] != [] ==> HasHead(heap, id))
    && (forall id :: upTo <= id < |runs| ==> KeySorted(runs[id]))
  }

  /** No head in the heap has a key before `key`. */
  predicate KeyBelow(key: Bytes, heap: seq<HeapItem>) {
    forall i :: 0 <= i < |heap| ==> LexLe(key, heap[i].record.key)
  }

  function HeapCount(heap: seq<HeapItem>, x: Record): nat {
    if heap == [] then 0 else (if heap[0].record == x then 1 else 0) + HeapCount(heap[1..], x)
  }

  function RunCount(runs: seq<seq<Record>>, x: Record): nat {
    if runs == [] then 0 else Count(runs[0], x) + RunCount(runs[1..], x)
  }

  function RunLength(runs: seq<seq<Record>>): nat {
    if runs == [] then 0 else |runs[0]| + RunLength(runs[1..])
  }

  lemma {:induction false} RunUpdate(runs: seq<seq<Record>>, id: nat, run: seq<Record>, x: Record)
    requires id < |runs|
    ensures RunCount(runs[id := run], x) == RunCount(runs, x) - Count(runs[id], x) + Count(run, x)
    ensures RunLength(runs[id := run]) == RunLength(runs) - |runs[id]| + |run|
  {
    if id == 0 {
      assert runs[id := run][1..] == runs[1..];
    } else {
      assert runs[id := run][1..] == runs[1..][id - 1 := run];
      RunUpdate(runs[1..], id - 1, run, x);
    }
  }

  lemma {:induction false} RunAppend(runs: seq<seq<Record>>, run: seq<Record>, x: Record)
    ensures RunCount(runs + [run], x) == RunCount(runs, x) + Count(run, x)
  {
    if runs == [] {
      assert runs + [run] == [run];
      assert [run][1..] == [];
    } else {
      assert (runs + [run])[1..] == runs[1..] + [run];
      RunAppend(runs[1..], run, x);
    }
  }

  lemma {:induction false} HeapCountConcat(a: seq<HeapItem>, b: seq<HeapItem>, x: Record)
    ensures HeapCount(a + b, x) == HeapCount(a, x) + HeapCount(b, x)
  {
    if a == [] {
      assert a + b == b;
    } else {
      assert (a + b)[1..] == a[1..] + b;
      HeapCountConcat(a[1..], b, x);
    }
  }

  function Without(heap: seq<HeapItem>, b: nat): seq<HeapItem>
    requires b < |heap|
  {
    heap[..b] + heap[b + 1..]
  }

  lemma {:induction false} WithoutCount(heap: seq<HeapItem>, b: nat, x: Record)
    requires b < |heap|
    ensures HeapCount(heap, x) == HeapCount(Without(heap, b), x) + (if heap[b].record == x then 1 else 0)
  {
    assert heap == heap[..b] + ([heap[b]] + heap[b + 1..]);
    HeapCountConcat(heap[..b], [heap[b]] + heap[b + 1..], x);
    HeapCountConcat([heap[b]], heap[b + 1..], x);
    HeapCountConcat(heap[..b], heap[b + 1..], x);
    assert [heap[b]][1..] == [];
  }

  // ---- Reading a run's next record into the heap ----

  /** Moves the next record of run `id`, if there is one, from the run to the heap. */
  function Refilled(heap: seq<HeapItem>, runs: seq<seq<Record>>, id: nat): seq<HeapItem>
    requires id < |runs|
  {
    if runs[id] == [] then heap else heap + [HeapItem(runs[id][0], id)]
  }

  function Advanced(runs: seq<seq<Record>>, id: nat): seq<seq<Record>>
    requires id < |runs|
  {
    if runs[id] == [] then runs else runs[id := runs[id][1..]]
  }

  lemma {:induction false} RefillCount(heap: seq<HeapItem>, runs: seq<seq<Record>>, id: nat, x: Record)
    requires id < |runs|
    ensures HeapCount(Refilled(heap, runs, id), x) + RunCount(Advanced(runs, id), x)
         == HeapCount(heap, x) + RunCount(runs, x)
    ensures |Refilled(heap, runs, id)| + RunLength(Advanced(runs, id)) == |heap| + RunLength(runs)
  {
    if runs[id] != [] {
      RunUpdate(runs, id, runs[id][1..], x);
      HeapCountConcat(heap, [HeapItem(runs[id][0], id)], x);
      assert [HeapItem(runs[id][0], id)][1..] == [];
    }
  }

  /** Filling the heap: reading the first record of the next run keeps one head per run. */
  lemma {:induction false} FirstReadKeepsHeads(heap: seq<HeapItem>, runs: seq<seq<Record>>, id: nat)
    requires id < |runs| && Heads(heap, runs, id)
    ensures Heads(Refilled(heap, runs, id), Advanced(runs, id), id + 1)
  {
    ReadKeepsHeads(heap, runs, id, id, id + 1);
  }

  lemma {:induction false} ReadKeepsHeads(heap: seq<HeapItem>, runs: seq<seq<Record>>, id: nat, upTo: nat, upTo': nat)
    requires upTo <= |runs| && id < upTo' <= |runs| && KeySorted(runs[id])
    requires upTo' == upTo || (upTo' == upTo + 1 && id == upTo)
    requires forall i :: 0 <= i < |heap| ==> ValidHead(heap[i], runs, upTo) && heap[i].id != id
    requires forall i, j :: 0 <= i < j < |heap| ==> heap[i].id != heap[j].id
    requires forall x :: 0 <= x < upTo && x != id && runs[x] != [] ==> HasHead(heap, x)
    requires forall x :: upTo <= x < |runs| ==> KeySorted(runs[x])
    ensures Heads(Refilled(heap, runs, id), Advanced(runs, id), upTo')
  {
    var heap', runs' := Refilled(heap, runs, id), Advanced(runs, id);
    if runs[id] != [] {
      assert [runs[id][0]] + runs[id][1..] == runs[id];
      assert heap'[|heap|] == HeapItem(runs[id][0], id);
    }
    forall x | 0 <= x < upTo' && runs'[x] != [] ensures HasHead(heap', x) {
      if x != id {
        assert HasHead(heap, x);
        var i :| 0 <= i < |heap| && heap[i].id == x;
        assert heap'[i].id == x;
      }
    }
  }

  lemma {:induction false} WithoutKeepsHeads(heap: seq<HeapItem>, runs: seq<seq<Record>>, b: nat)
    requires Heads(heap, runs, |runs|) && b < |heap|
    ensures forall i :: 0 <= i < |heap| - 1 ==> ValidHead(Without(heap, b)[i], runs, |runs|)
    ensures forall i :: 0 <= i < |heap| - 1 ==> Without(heap, b)[i].id != heap[b].id
    ensures forall i, j :: 0 <= i < j < |heap| - 1 ==> Without(heap, b)[i].id != Without(heap, b)[j].id
    ensures forall id :: 0 <= id < |runs| && id != heap[b].id && runs[id] != [] ==> HasHead(Without(heap, b), id)
  {
    var rest := Without(heap, b);
    forall id | 0 <= id < |runs| && id != heap[b].id && runs[id] != [] ensures HasHead(rest, id) {
      assert HasHead(heap, id);
      var i :| 0 <= i < |heap| && heap[i].id == id;
      assert rest[if i < b then i else i - 1] == heap[i];
    }
  }

  /** Popping a head and reading on in its run keeps one head per unexhausted run. */
  lemma {:induction false} PopKeepsHeads(heap: seq<HeapItem>, runs: seq<seq<Record>>, b: nat)
    requires Heads(heap, runs, |runs|) && b < |heap|
    ensures heap[b].id < |runs|
    ensures Heads(Refilled(Without(heap, b), runs, heap[b].id), Advanced(runs, heap[b].id), |runs|)
  {
    var id := heap[b].id;
    assert ValidHead(heap[b], runs, |runs|);
    assert ([heap[b].record] + runs[id])[1..] == runs[id];
    WithoutKeepsHeads(heap, runs, b);
    ReadKeepsHeads(Without(heap, b), runs, id, |runs|, |runs|);
  }

  /** After a pop nothing in the heap has a smaller key than the popped record. */
  lemma {:induction false} PopIsLeast(heap: seq<HeapItem>, runs: seq<seq<Record>>, b: nat)
    requires Heads(heap, runs, |runs|) && b < |heap| && heap[b].id < |runs|
    requires forall i :: 0 <= i < |heap| ==> PopsBefore(heap[b], heap[i])
    ensures KeyBelow(heap[b].record.key, Refilled(Without(heap, b), runs, heap[b].id))
  {
    assert ValidHead(heap[b], runs, |runs|);
    var run := runs[heap[b].id];
    if run != [] {
      assert ([heap[b].record] + run)[1] == run[0];
    }
  }

  /** How often `x` is still to come, from the heap or later from a run. */
  function Left(heap: seq<HeapItem>, runs: seq<seq<Record>>, x: Record): nat {
    HeapCount(heap, x) + RunCount(runs, x)
  }

  predicate IsHead(heap: seq<HeapItem>, r: Record) {
    exists i :: 0 <= i < |heap| && heap[i].record == r
  }

  predicate AllSorted(runs: seq<seq<Record>>) {
    forall id :: 0 <= id < |runs| ==> KeySorted(runs[id])
  }

  /** The step from (`heap`, `runs`) to (`heap'`, `runs'`) hands out `r` and nothing else, and leaves
      no smaller key behind. */
  ghost predicate Takes(
    heap: seq<HeapItem>, runs: seq<seq<Record>>, r: Record, heap': seq<HeapItem>, runs': seq<seq<Record>>)
  {
    && Heads(heap', runs', |runs'|)
    && IsHead(heap, r) && KeyBelow(r.key, heap) && KeyBelow(r.key, heap')
    && (forall x :: Left(heap, runs, x) == Left(heap', runs', x) + if r == x then 1 else 0)
    && |heap| + RunLength(runs) == |heap'| + RunLength(runs') + 1
  }

  lemma {:induction false} PopTakes(heap: seq<HeapItem>, runs: seq<seq<Record>>, b: nat)
    requires Heads(heap, runs, |runs|) && b < |heap|
    requires forall i :: 0 <= i < |heap| ==> PopsBefore(heap[b], heap[i])
    ensures heap[b].id < |runs|
    ensures Takes(heap, runs, heap[b].record, Refilled(Without(heap, b), runs, heap[b].id), Advanced(runs, heap[b].id))
  {
    PopKeepsHeads(heap, runs, b);
    PopIsLeast(heap, runs, b);
    var heap', runs' := Refilled(Without(heap, b), runs, heap[b].id), Advanced(runs, heap[b].id);
    forall x ensures Left(heap, runs, x) == Left(heap', runs', x) + if heap[b].record == x then 1 else 0 {
      WithoutCount(heap, b, x);
      RefillCount(Without(heap, b), runs, heap[b].id, x);
    }
    RefillCount(Without(heap, b), runs, heap[b].id, heap[b].record);
  }

  /** Pops the heap: the step that also reads on in the popped record's run takes that record. */
  method Pop(heap: seq<HeapItem>, ghost runs: seq<seq<Record>>) returns (top: HeapItem, rest: seq<HeapItem>)
    requires heap != [] && Heads(heap, runs, |runs|)
    ensures top.id < |runs|
    ensures Takes(heap, runs, top.record, Refilled(rest, runs, top.id), Advanced(runs, top.id))
  {
    var b := IndexOfTop(heap);
    PopTakes(heap, runs, b);
    top, rest := heap[b], Without(heap, b);
  }

  /** `out` is what has been handed out so far: sorted, and with what is left it makes up the whole. */
  ghost predicate Handed(whole: seq<seq<Record>>, out: seq<Record>, heap: seq<HeapItem>, runs: seq<seq<Record>>) {
    && KeySorted(out)
    && (out != [] ==> KeyBelow(out[|out| - 1].key, heap))
    && (forall x :: RunCount(whole, x) == Count(out, x) + Left(heap, runs, x))
  }

  /** Reading the first record of a run into the heap hands out nothing. */
  lemma {:induction false} FillKeepsHanded(
    whole: seq<seq<Record>>, heap: seq<HeapItem>, runs: seq<seq<Record>>, id: nat)
    requires id < |runs| && Heads(heap, runs, id) && Handed(whole, [], heap, runs)
    ensures Heads(Refilled(heap, runs, id), Advanced(runs, id), id + 1)
    ensures Handed(whole, [], Refilled(heap, runs, id), Advanced(runs, id))
  {
    FirstReadKeepsHeads(heap, runs, id);
    forall x ensures RunCount(whole, x) == Count([], x) + Left(Refilled(heap, runs, id), Advanced(runs, id), x) {
      RefillCount(heap, runs, id, x);
      assert RunCount(whole, x) == Count([], x) + Left(heap, runs, x);
    }
  }

  lemma {:induction false} TakeIsHanded(
    whole: seq<seq<Record>>, out: seq<Record>, heap: seq<HeapItem>, runs: seq<seq<Record>>, r: Record,
    heap': seq<HeapItem>, runs': seq<seq<Record>>)
    requires Handed(whole, out, heap, runs) && Takes(heap, runs, r, heap', runs')
    ensures Handed(whole, out + [r], heap', runs')
  {
    KeySortedAppend(out, r);
    forall x ensures RunCount(whole, x) == Count(out + [r], x) + Left(heap', runs', x) {
      CountConcat(out, [r], x);
      assert [r][1..] == [];
      assert Left(heap, runs, x) == Left(heap', runs', x) + if r == x then 1 else 0;
    }
  }

  /** An empty heap means every run has been read to its end. */
  lemma {:induction false} EmptyHeapMeansExhausted(runs: seq<seq<Record>>, x: Record)
    requires Heads([], runs, |runs|)
    ensures RunCount(runs, x) == 0
  {
    forall id | 0 <= id < |runs| ensures runs[id] == [] {
      assert runs[id] == [] || HasHead([], id);
    }
    AllEmpty(runs, x);
  }

  lemma {:induction false} AllHanded(whole: seq<seq<Record>>, out: seq<Record>, runs: seq<seq<Record>>)
    requires Handed(whole, out, [], runs) && Heads([], runs, |runs|)
    ensures KeySorted(out) && forall x :: Count(out, x) == RunCount(whole, x)
  {
    forall x ensures Count(out, x) == RunCount(whole, x) {
      EmptyHeapMeansExhausted(runs, x);
      assert RunCount(whole, x) == Count(out, x) + Left([], runs, x);
    }
  }

  lemma {:induction false} AllEmpty(runs: seq<seq<Record>>, x: Record)
    requires forall id :: 0 <= id < |runs| ==> runs[id] == []
    ensures RunCount(runs, x) == 0
  {
    if runs != [] { AllEmpty(runs[1..], x); }
  }
}
