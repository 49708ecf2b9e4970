/** Block hashes by number, read from in-memory blocks joined to the on-disk index. */
module HashRange {
  import opened Arith
  import opened Wrappers
  import opened Blocks

  /** The on-disk canonical hashes in `[start, end)`; `history[n]` is the hash of block `n`. */
  function HistoricalRange(history: seq<Hash>, start: nat, end: nat): seq<Hash> {
    var hi := if end < |history| then end else |history|;
    if start < hi then history[start..hi] else []
  }

  /** Looks a number up newest-first in memory, then on disk. */
  function BlockHash(inMemory: seq<ExecutedBlock>, history: seq<Hash>, number: nat): Option<Hash> {
    if inMemory != [] then
      if inMemory[0].number == number then Some(inMemory[0].hash)
      else BlockHash(inMemory[1..], history, number)
    else if number < |history| then Some(history[number])
    else None
  }

  function HashesOf(chain: seq<ExecutedBlock>): (r: seq<Hash>)
    ensures |r| == |chain| && forall i :: 0 <= i < |r| ==> r[i] == chain[i].hash
  {
    seq(|chain|, i requires 0 <= i < |chain| => chain[i].hash)
  }

  /** History reaches at least to the in-memory blocks. */
  predicate Joined(chain: seq<ExecutedBlock>, history: seq<Hash>) {
    Linked(chain) && (chain != [] ==> chain[0].number <= |history|)
  }

  /** Hash of every block known to a reader of the chain's tip, by number. */
  function Canonical(chain: seq<ExecutedBlock>, history: seq<Hash>): seq<Hash>
    requires Joined(chain, history)
  {
    if chain == [] then history else history[..chain[0].number] + HashesOf(chain)
  }

  /** History holds nothing beyond the block being read. */
  predicate HistoryWithin(chain: seq<ExecutedBlock>, history: seq<Hash>) {
    chain != [] ==> |history| <= chain[0].number + |chain|
  }

  /** What the range query answers, by where the range meets the in-memory blocks. */
  function RangeThroughOverlay(chain: seq<ExecutedBlock>, history: seq<Hash>, start: nat, end: nat): seq<Hash> {
    var hits := InRange(chain, start, end);
    HistoricalRange(history, start, if hits == [] then end else hits[0].number) + HashesOf(hits)
  }

  function InRange(chain: seq<ExecutedBlock>, start: nat, end: nat): seq<ExecutedBlock> {
    if chain == [] then []
    else (if start <= chain[0].number < end then [chain[0]] else []) + InRange(chain[1..], start, end)
  }

  lemma {:induction false} OneMoreHash(hashes: seq<Hash>, hits: seq<ExecutedBlock>, b: ExecutedBlock)
    requires Reversed(hashes) == HashesOf(hits)
    ensures Reversed(hashes + [b.hash]) == HashesOf([b] + hits)
  {
    assert Reversed(hashes + [b.hash]) == [b.hash] + Reversed(hashes);
    assert HashesOf([b] + hits) == [b.hash] + HashesOf(hits);
  }

  lemma {:induction false} InRangeFrom(chain: seq<ExecutedBlock>, i: nat, start: nat, end: nat)
    requires i < |chain|
    ensures InRange(chain[i..], start, end) ==
      (if start <= chain[i].number < end then [chain[i]] else []) + InRange(chain[i + 1..], start, end)
  {
    assert chain[i..][1..] == chain[i + 1..];
  }

  /** The query of the provider: one pass over the newest-first blocks, then the disk. */
  method CanonicalHashesRange(
    ghost chain: seq<ExecutedBlock>, inMemory: seq<ExecutedBlock>, history: seq<Hash>, start: nat, end: nat)
    returns (hashes: seq<Hash>)
    requires inMemory == NewestFirst(chain)
    ensures hashes == RangeThroughOverlay(chain, history, start, end)
  {
    var earliest: Option<nat> := None;
    var inMemoryHashes: seq<Hash> := [];
    ghost var hits: seq<ExecutedBlock> := [];
    assert chain[|chain|..] == [];
    for i := 0 to |inMemory|
      invariant hits == InRange(chain[|chain| - i..], start, end)
      invariant Reversed(inMemoryHashes) == HashesOf(hits)
      invariant earliest == if hits == [] then None else Some(hits[0].number)
    {
      var b := inMemory[i];
      InRangeFrom(chain, |chain| - i - 1, start, end);
      if start <= b.number < end {
        OneMoreHash(inMemoryHashes, hits, b);
        inMemoryHashes := inMemoryHashes + [b.hash];
        earliest := Some(b.number);
        hits := [b] + hits;
      }
    }
    assert chain[|chain| - |inMemory|..] == chain;
    hashes := HistoricalRange(history, start, earliest.GetOr(end)) + Reversed(inMemoryHashes);
  }

  function Reversed(s: seq<Hash>): (r: seq<Hash>)
    ensures |r| == |s| && forall i :: 0 <= i < |r| ==> r[i] == s[|s| - 1 - i]
  {
    if s == [] then [] else Reversed(s[1..]) + [s[0]]
  }

  predicate Consecutive(chain: seq<ExecutedBlock>) {
    forall i :: 0 <= i < |chain| ==> chain[i].number == chain[0].number + i
  }

  /** The consecutively numbered blocks whose numbers fall in `[start, end)` are a slice. */
  lemma {:induction false} InRangeIsSlice(chain: seq<ExecutedBlock>, start: nat, end: nat)
    requires Consecutive(chain)
    ensures InRange(chain, start, end) == Slice(chain, start, end)
  {
    if chain != [] {
      var rest := chain[1..];
      InRangeIsSlice(rest, start, end);
      if start <= chain[0].number < end {
        SliceWithFirst(chain, start, end);
      } else {
        SliceWithoutFirst(chain, start, end);
      }
    }
  }

  lemma {:induction false} SliceWithFirst(chain: seq<ExecutedBlock>, start: nat, end: nat)
    requires chain != [] && (|chain| > 1 ==> chain[1].number == chain[0].number + 1)
    requires start <= chain[0].number < end
    ensures Slice(chain, start, end) == [chain[0]] + Slice(chain[1..], start, end)
  {
    var hi := Min(end - chain[0].number, |chain|);
    assert chain[0..hi] == [chain[0]] + chain[1..][0..hi - 1];
    if hi > 1 { assert Slice(chain[1..], start, end) == chain[1..][0..hi - 1]; }
  }

  lemma {:induction false} SliceWithoutFirst(chain: seq<ExecutedBlock>, start: nat, end: nat)
    requires chain != [] && (|chain| > 1 ==> chain[1].number == chain[0].number + 1)
    requires !(start <= chain[0].number < end)
    ensures Slice(chain, start, end) == Slice(chain[1..], start, end)
  {
    var lo, hi := Max(start - chain[0].number, 0), Min(end - chain[0].number, |chain|);
    if lo < hi { TailSlice(chain, lo, hi); }
  }

  lemma {:induction false} TailSlice<T>(s: seq<T>, lo: nat, hi: nat)
    requires 0 < lo <= hi <= |s|
    ensures s[lo..hi] == s[1..][lo - 1..hi - 1]
  {
    forall i | 0 <= i < hi - lo ensures s[lo..hi][i] == s[1..][lo - 1..hi - 1][i] {
    }
  }

  function Slice(chain: seq<ExecutedBlock>, start: nat, end: nat): seq<ExecutedBlock> {
    if chain == [] then []
    else
      var lo, hi := Max(start - chain[0].number, 0), Min(end - chain[0].number, |chain|);
      if lo < hi then chain[lo..hi] else []
  }

  /** The answer is the ascending canonical hashes of all known blocks in the range, with no gap or
      duplicate at the seam, wherever the range falls. */
  lemma {:induction false} RangeIsCanonicalSlice(chain: seq<ExecutedBlock>, history: seq<Hash>, start: nat, end: nat)
    requires Joined(chain, history) && HistoryWithin(chain, history)
    ensures RangeThroughOverlay(chain, history, start, end) == HistoricalRange(Canonical(chain, history), start, end)
  {
    InRangeIsSlice(chain, start, end);
    if Slice(chain, start, end) == [] {
      if chain != [] { NothingInMemory(chain, history, start, end); }
    } else {
      SomethingInMemory(chain, history, start, end);
    }
  }

  lemma {:induction false} NothingInMemory(chain: seq<ExecutedBlock>, history: seq<Hash>, start: nat, end: nat)
    requires Joined(chain, history) && HistoryWithin(chain, history) && chain != []
    requires Slice(chain, start, end) == []
    ensures HistoricalRange(history, start, end) + HashesOf([])
         == HistoricalRange(Canonical(chain, history), start, end)
  {
  }

  lemma {:induction false} SomethingInMemory(chain: seq<ExecutedBlock>, history: seq<Hash>, start: nat, end: nat)
    requires Joined(chain, history) && Slice(chain, start, end) != []
    ensures HistoricalRange(history, start, Slice(chain, start, end)[0].number) + HashesOf(Slice(chain, start, end))
         == HistoricalRange(Canonical(chain, history), start, end)
  {
    var n0 := chain[0].number;
    var lo, hi := Max(start - n0, 0), Min(end - n0, |chain|);
    HashesOfSlice(chain, lo, hi);
    Seam(history[..n0], HashesOf(chain), history, start, end);
  }

  lemma {:induction false} HashesOfSlice(chain: seq<ExecutedBlock>, lo: nat, hi: nat)
    requires lo < hi <= |chain|
    ensures HashesOf(chain[lo..hi]) == HashesOf(chain)[lo..hi] && chain[lo..hi][0] == chain[lo]
  {
  }

  lemma {:induction false} Seam(below: seq<Hash>, mem: seq<Hash>, history: seq<Hash>, start: nat, end: nat)
    requires |below| <= |history| && below == history[..|below|]
    requires Max(start - |below|, 0) < Min(end - |below|, |mem|)
    ensures HistoricalRange(below + mem, start, end)
         == HistoricalRange(history, start, Max(start, |below|))
            + mem[Max(start - |below|, 0)..Min(end - |below|, |mem|)]
  {
    if start < |below| {
      assert (below + mem)[start..Min(end, |below + mem|)] == below[start..] + mem[..Min(end - |below|, |mem|)];
    }
  }

  /** Every range is answered canonically exactly when history stops at or before the block being
      read: a history that has moved past it leaks later blocks into the answer. */
  lemma {:induction false} RangesCanonicalIff(chain: seq<ExecutedBlock>, history: seq<Hash>)
    requires Joined(chain, history)
    ensures (forall start, end :: RangeThroughOverlay(chain, history, start, end)
                               == HistoricalRange(Canonical(chain, history), start, end))
        <==> HistoryWithin(chain, history)
  {
    if HistoryWithin(chain, history) {
      forall start, end ensures RangeThroughOverlay(chain, history, start, end)
                             == HistoricalRange(Canonical(chain, history), start, end) {
        RangeIsCanonicalSlice(chain, history, start, end);
      }
    } else {
      HistoryAheadLeaks(chain, history);
    }
  }

  lemma {:induction false} HistoryAheadLeaks(chain: seq<ExecutedBlock>, history: seq<Hash>)
    requires Joined(chain, history) && !HistoryWithin(chain, history)
    ensures var past := chain[0].number + |chain|;
            RangeThroughOverlay(chain, history, past, past + 1)
              != HistoricalRange(Canonical(chain, history), past, past + 1)
  {
    var past := chain[0].number + |chain|;
    InRangeIsSlice(chain, past, past + 1);
    assert |HistoricalRange(history, past, past + 1)| == 1;
    assert HistoricalRange(Canonical(chain, history), past, past + 1) == [];
  }

  /** Looking up single numbers and ranges agree on what is known. */
  lemma {:induction false} BlockHashIsCanonical(chain: seq<ExecutedBlock>, history: seq<Hash>, number: nat)
    requires Joined(chain, history) && HistoryWithin(chain, history)
    ensures BlockHash(NewestFirst(chain), history, number)
         == if number < |Canonical(chain, history)| then Some(Canonical(chain, history)[number]) else None
  {
    FoundInMemory(chain, history, number);
  }

  lemma {:induction false} FoundInMemory(chain: seq<ExecutedBlock>, history: seq<Hash>, number: nat)
    requires Linked(chain)
    ensures BlockHash(NewestFirst(chain), history, number)
         == if chain != [] && chain[0].number <= number < chain[0].number + |chain|
            then Some(chain[number - chain[0].number].hash)
            else if number < |history| then Some(history[number]) else None
  {
    if chain != [] {
      var init := chain[..|chain| - 1];
      LinkedPrefix(chain, |chain| - 1);
      assert chain[|chain| - 1].number == chain[0].number + |chain| - 1;
      FoundInMemory(init, history, number);
      NewestComesFirst(chain);
    }
  }

  lemma {:induction false} NewestComesFirst(chain: seq<ExecutedBlock>)
    requires chain != []
    ensures NewestFirst(chain) != [] && NewestFirst(chain)[0] == chain[|chain| - 1]
    ensures NewestFirst(chain)[1..] == NewestFirst(chain[..|chain| - 1])
  {
  }
}
