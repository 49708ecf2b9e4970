/** The canonical blocks that are not on disk yet: two maps, kept as one chain. */
module CanonicalState {
  import opened Sorting
  import opened Wrappers
  import opened Blocks

  // ---- The chain the two maps stand for ----

  /** Every block stored under its hash, linked to the state of the block below it. */
  function BlockMap(chain: seq<ExecutedBlock>): map<Hash, BlockState> {
    if chain == [] then map[]
    else BlockMap(chain[..|chain| - 1])[chain[|chain| - 1].hash := TipState(chain)]
  }

  /** Every block's hash stored under its number. */
  function NumberMap(chain: seq<ExecutedBlock>): map<nat, Hash> {
    if chain == [] then map[]
    else NumberMap(chain[..|chain| - 1])[chain[|chain| - 1].number := chain[|chain| - 1].hash]
  }

  ghost predicate Represents(chain: seq<ExecutedBlock>, blocks: map<Hash, BlockState>, numbers: map<nat, Hash>) {
    Linked(chain) && blocks == BlockMap(chain) && numbers == NumberMap(chain)
  }

  predicate Holds(chain: seq<ExecutedBlock>, number: int) {
    |chain| > 0 && 0 <= number - chain[0].number < |chain|
  }

  function BlockAt(chain: seq<ExecutedBlock>, number: nat): Option<ExecutedBlock> {
    if Holds(chain, number) then Some(chain[number - chain[0].number]) else None
  }

  /** `h` is the hash of the chain's block at the height it commits to. */
  predicate OnChain(chain: seq<ExecutedBlock>, h: Hash) {
    h.HashOf? && Holds(chain, h.height) && chain[h.height - chain[0].number].hash == h
  }

  /** Numbers are exactly the chain's contiguous heights, each mapped to the hash at that height. */
  lemma {:induction false} NumberMapAt(chain: seq<ExecutedBlock>, n: nat)
    requires Linked(chain)
    ensures n in NumberMap(chain) <==> Holds(chain, n)
    ensures Holds(chain, n) ==> NumberMap(chain)[n] == chain[n - chain[0].number].hash
  {
    if chain != [] {
      LinkedPrefix(chain, |chain| - 1);
      NumberMapAt(chain[..|chain| - 1], n);
    }
  }

  /** Hashes are exactly those of the chain, each mapped to its block linked to all those below. */
  lemma {:induction false} BlockMapAt(chain: seq<ExecutedBlock>, h: Hash)
    requires Linked(chain)
    ensures h in BlockMap(chain) <==> OnChain(chain, h)
    ensures OnChain(chain, h) ==> BlockMap(chain)[h] == TipState(chain[..h.height - chain[0].number + 1])
  {
    if chain != [] {
      var n := |chain| - 1;
      LinkedPrefix(chain, n);
      BlockMapAt(chain[..n], h);
      if h == chain[n].hash {
        assert chain[..n + 1] == chain;
      } else if OnChain(chain, h) {
        var i := h.height - chain[0].number;
        assert chain[..n][..i + 1] == chain[..i + 1];
      }
    }
  }

  lemma {:induction false} IndexOnChain(chain: seq<ExecutedBlock>, i: nat)
    requires Linked(chain) && i < |chain|
    ensures OnChain(chain, chain[i].hash) && chain[i].hash.height - chain[0].number == i
  {
  }

  /** The two maps are in bijection, and each stored state's parent link is the stored state of its
      parent hash, or absent when that parent is not in memory. */
  lemma {:induction false} MapsMirrorEachOther(chain: seq<ExecutedBlock>, h: Hash)
    requires Linked(chain)
    ensures h in BlockMap(chain) <==> h.HashOf? && h.height in NumberMap(chain) && NumberMap(chain)[h.height] == h
    ensures h in BlockMap(chain) ==>
              var s := BlockMap(chain)[h];
              && s.block.hash == h && s.block.number == h.height
              && s.parent == Lookup(BlockMap(chain), s.block.parentHash)
  {
    BlockMapAt(chain, h);
    if h.HashOf? { NumberMapAt(chain, h.height); }
    if OnChain(chain, h) {
      var i := h.height - chain[0].number;
      assert chain[..i + 1][..i] == chain[..i];
      BlockMapAt(chain, chain[i].parentHash);
      if i > 0 {
        assert ParentPrecedes(chain, i);
        IndexOnChain(chain, i - 1);
      }
    }
  }

  function Lookup(blocks: map<Hash, BlockState>, h: Hash): Option<BlockState> {
    if h in blocks then Some(blocks[h]) else None
  }

  /** The blocks numbered above `limit`. */
  function Above(chain: seq<ExecutedBlock>, limit: nat): seq<ExecutedBlock> {
    if chain == [] then []
    else if chain[0].number > limit then chain
    else Above(chain[1..], limit)
  }

  lemma {:induction false} AboveIsSuffix(chain: seq<ExecutedBlock>, limit: nat)
    requires Linked(chain)
    ensures |Above(chain, limit)| <= |chain|
    ensures Above(chain, limit) == chain[|chain| - |Above(chain, limit)|..]
    ensures forall i :: 0 <= i < |chain| ==> (chain[i].number > limit <==> i >= |chain| - |Above(chain, limit)|)
    ensures Linked(Above(chain, limit))
  {
    if chain != [] && chain[0].number <= limit {
      LinkedSuffix(chain, 1);
      AboveIsSuffix(chain[1..], limit);
      forall i | 0 < i < |chain|
        ensures chain[i].number > limit <==> i >= |chain| - |Above(chain, limit)|
      {
        assert chain[i] == chain[1..][i - 1];
      }
    }
  }

  /** The number of leading blocks that a reorg of `reorged` leaves in place. */
  function Kept(chain: seq<ExecutedBlock>, reorged: seq<ExecutedBlock>): nat {
    if |reorged| < |chain| then |chain| - |reorged| else 0
  }

  /** `reorged` is the tip end of the canonical chain; it may reach below the blocks in memory. */
  predicate IsTipOf(reorged: seq<ExecutedBlock>, chain: seq<ExecutedBlock>) {
    && Linked(reorged)
    && (|reorged| <= |chain| ==> reorged == chain[Kept(chain, reorged)..])
    && (|chain| < |reorged| ==> reorged[|reorged| - |chain|..] == chain)
  }

  /** The documented shape of a chain update: `new` is linked and continues the kept blocks. */
  predicate ConnectsTo(chain: seq<ExecutedBlock>, reorged: seq<ExecutedBlock>, added: seq<ExecutedBlock>) {
    && Linked(added)
    && (Kept(chain, reorged) > 0 && added != [] ==> Extends(chain[Kept(chain, reorged) - 1], added[0]))
  }

  /** The in-memory chain after an update: the kept blocks, then the new ones. */
  function Updated(
    mem: seq<ExecutedBlock>, reorged: seq<ExecutedBlock>, added: seq<ExecutedBlock>): seq<ExecutedBlock>
  {
    mem[..Kept(mem, reorged)] + added
  }

  /** The in-memory chain a trim leaves behind. */
  function Trimmed(mem: seq<ExecutedBlock>, persisted: NumHash, until: nat): seq<ExecutedBlock>
    requires persisted.number >= 0
  {
    if OnChain(mem, persisted.hash)
    then Above(mem, if until < persisted.number then until else persisted.number)
    else mem
  }

  /** A trim of a block that is in memory keeps exactly the blocks above one of the two limits, each at
      its height; any other trim keeps everything. */
  lemma {:induction false} TrimKeeps(mem: seq<ExecutedBlock>, persisted: NumHash, until: nat)
    requires Linked(mem) && persisted.number >= 0
    ensures var rest := Trimmed(mem, persisted, until);
            if OnChain(mem, persisted.hash) then
              && (forall b :: b in rest <==> b in mem && (b.number > until || b.number > persisted.number))
              && (forall n: nat ::
                    BlockAt(rest, n) == if n > until || n > persisted.number then BlockAt(mem, n) else None)
            else rest == mem
  {
    if OnChain(mem, persisted.hash) {
      var limit: nat := if until < persisted.number then until else persisted.number;
      AboveMembers(mem, limit);
      forall n: nat ensures BlockAt(Above(mem, limit), n) == if n > limit then BlockAt(mem, n) else None {
        AboveHeights(mem, limit, n);
      }
    }
  }

  lemma {:induction false} AboveMembers(mem: seq<ExecutedBlock>, limit: nat)
    requires Linked(mem)
    ensures Linked(Above(mem, limit))
    ensures forall b :: b in Above(mem, limit) <==> b in mem && b.number > limit
  {
    AboveIsSuffix(mem, limit);
    SuffixMembers(mem, |mem| - |Above(mem, limit)|, limit);
  }

  lemma {:induction false} AboveHeights(mem: seq<ExecutedBlock>, limit: nat, n: nat)
    requires Linked(mem)
    ensures BlockAt(Above(mem, limit), n) == if n > limit then BlockAt(mem, n) else None
  {
    AboveIsSuffix(mem, limit);
    SuffixHeights(mem, |mem| - |Above(mem, limit)|, limit, n);
  }

  lemma {:induction false} SuffixMembers(mem: seq<ExecutedBlock>, d: nat, limit: nat)
    requires d <= |mem| && forall i :: 0 <= i < |mem| ==> (mem[i].number > limit <==> i >= d)
    ensures forall b :: b in mem[d..] <==> b in mem && b.number > limit
  {
    forall b | b in mem && b.number > limit ensures b in mem[d..] {
      var i :| 0 <= i < |mem| && mem[i] == b;
      assert mem[d..][i - d] == b;
    }
  }

  lemma {:induction false} SuffixHeights(mem: seq<ExecutedBlock>, d: nat, limit: nat, n: nat)
    requires Linked(mem) && d <= |mem| && forall i :: 0 <= i < |mem| ==> (mem[i].number > limit <==> i >= d)
    ensures BlockAt(mem[d..], n) == if n > limit then BlockAt(mem, n) else None
  {
    if Holds(mem, n) { assert mem[n - mem[0].number].number == n; }
  }

  /** An update keeps exactly the blocks not reorged and adds the new ones. */
  lemma {:induction false} UpdateKeeps(mem: seq<ExecutedBlock>, reorged: seq<ExecutedBlock>, added: seq<ExecutedBlock>)
    requires Linked(mem) && IsTipOf(reorged, mem)
    ensures forall b :: b in Updated(mem, reorged, added) <==> b in added || (b in mem && b !in reorged)
  {
    var kept := Kept(mem, reorged);
    forall b ensures b in mem[..kept] <==> b in mem && b !in reorged {
      if b in mem[..kept] {
        var i :| 0 <= i < kept && mem[i] == b;
        ReorgedExactly(mem, reorged, i);
      }
      if b in mem {
        var i :| 0 <= i < |mem| && mem[i] == b;
        assert i >= kept ==> reorged[i - |mem| + |reorged|] == b;
      }
    }
  }

  // ---- Keeping the representation ----

  lemma {:induction false} AppendRepresents(
    chain: seq<ExecutedBlock>, blocks: map<Hash, BlockState>, numbers: map<nat, Hash>, b: ExecutedBlock)
    requires Represents(chain, blocks, numbers) && Linked(chain + [b])
    ensures Represents(chain + [b], blocks[b.hash := BlockState(b, Lookup(blocks, b.parentHash))],
                       numbers[b.number := b.hash])
  {
    var n := |chain|;
    assert (chain + [b])[..n] == chain;
    if n > 0 {
      assert ParentPrecedes(chain + [b], n);
    }
  }

  lemma {:induction false} AppendNext(
    chain: seq<ExecutedBlock>, added: seq<ExecutedBlock>, i: nat, blocks: map<Hash, BlockState>,
    numbers: map<nat, Hash>)
    requires i < |added| && Linked(chain + added) && Represents(chain + added[..i], blocks, numbers)
    ensures Represents(chain + added[..i + 1],
                       blocks[added[i].hash := BlockState(added[i], Lookup(blocks, added[i].parentHash))],
                       numbers[added[i].number := added[i].hash])
  {
    var shorter, longer := chain + added[..i], chain + added[..i + 1];
    assert longer == shorter + [added[i]];
    assert longer == (chain + added)[..|longer|];
    LinkedPrefix(chain + added, |longer|);
    AppendRepresents(shorter, blocks, numbers, added[i]);
  }

  lemma {:induction false} SortedSurvivors(chain: seq<ExecutedBlock>, limit: nat, drained: seq<ExecutedBlock>)
    requires Linked(chain) && DistinctNumbers(drained)
    requires forall b :: b in drained <==> b in Above(chain, limit)
    ensures Sort(NotAbove, drained) == Above(chain, limit)
    ensures Represents([], map[], map[]) && Linked([] + Sort(NotAbove, drained))
  {
    AboveIsSuffix(chain, limit);
    SortByNumber(drained);
    SortedLinkedIsUnique(Sort(NotAbove, drained), Above(chain, limit));
    assert [] + Sort(NotAbove, drained) == Sort(NotAbove, drained);
  }

  lemma {:induction false} RemoveRepresents(chain: seq<ExecutedBlock>, reorged: seq<ExecutedBlock>)
    requires Linked(chain) && IsTipOf(reorged, chain)
    ensures Represents(chain[..Kept(chain, reorged)], BlockMap(chain) - Hashes(reorged),
                       NumberMap(chain) - Numbers(reorged))
  {
    LinkedPrefix(chain, Kept(chain, reorged));
    RemovedHashes(chain, reorged);
    RemovedNumbers(chain, reorged);
  }

  lemma {:induction false} RemovedHashes(chain: seq<ExecutedBlock>, reorged: seq<ExecutedBlock>)
    requires Linked(chain) && IsTipOf(reorged, chain) && Linked(chain[..Kept(chain, reorged)])
    ensures BlockMap(chain[..Kept(chain, reorged)]) == BlockMap(chain) - Hashes(reorged)
  {
    var kept, whole := BlockMap(chain[..Kept(chain, reorged)]), BlockMap(chain);
    forall h ensures h in kept <==> h in whole - Hashes(reorged) { RemovedHash(chain, reorged, h); }
    forall h | h in kept ensures kept[h] == whole[h] { RemovedHash(chain, reorged, h); }
  }

  lemma {:induction false} RemovedNumbers(chain: seq<ExecutedBlock>, reorged: seq<ExecutedBlock>)
    requires Linked(chain) && IsTipOf(reorged, chain) && Linked(chain[..Kept(chain, reorged)])
    ensures NumberMap(chain[..Kept(chain, reorged)]) == NumberMap(chain) - Numbers(reorged)
  {
    var kept, whole := NumberMap(chain[..Kept(chain, reorged)]), NumberMap(chain);
    forall n: nat ensures n in kept <==> n in whole && n !in Numbers(reorged) { RemovedNumber(chain, reorged, n); }
    forall n: nat | n in kept ensures kept[n] == whole[n] { RemovedNumber(chain, reorged, n); }
  }

  lemma {:induction false} RemovedHash(chain: seq<ExecutedBlock>, reorged: seq<ExecutedBlock>, h: Hash)
    requires Linked(chain) && IsTipOf(reorged, chain) && Linked(chain[..Kept(chain, reorged)])
    ensures var kept := chain[..Kept(chain, reorged)];
            && (h in BlockMap(kept) <==> h in BlockMap(chain) && h !in Hashes(reorged))
            && (h in BlockMap(kept) ==> BlockMap(kept)[h] == BlockMap(chain)[h])
  {
    var kept := chain[..Kept(chain, reorged)];
    BlockMapAt(chain, h);
    BlockMapAt(kept, h);
    if OnChain(chain, h) {
      var i := h.height - chain[0].number;
      ReorgedExactly(chain, reorged, i);
      if i < |kept| { assert kept[..i + 1] == chain[..i + 1]; }
    }
  }

  lemma {:induction false} RemovedNumber(chain: seq<ExecutedBlock>, reorged: seq<ExecutedBlock>, n: nat)
    requires Linked(chain) && IsTipOf(reorged, chain) && Linked(chain[..Kept(chain, reorged)])
    ensures var kept := chain[..Kept(chain, reorged)];
            && (n in NumberMap(kept) <==> n in NumberMap(chain) && n !in Numbers(reorged))
            && (n in NumberMap(kept) ==> NumberMap(kept)[n] == NumberMap(chain)[n])
  {
    NumberMapAt(chain, n);
    NumberMapAt(chain[..Kept(chain, reorged)], n);
    if Holds(chain, n) { ReorgedExactly(chain, reorged, n - chain[0].number); }
  }

  /** Of the in-memory blocks, a tip-aligned `reorged` names exactly those beyond the kept ones. */
  lemma {:induction false} ReorgedExactly(chain: seq<ExecutedBlock>, reorged: seq<ExecutedBlock>, i: nat)
    requires Linked(chain) && IsTipOf(reorged, chain) && i < |chain|
    ensures chain[i].hash in Hashes(reorged) <==> i >= Kept(chain, reorged)
    ensures chain[i].number in Numbers(reorged) <==> i >= Kept(chain, reorged)
  {
    var k := Kept(chain, reorged);
    var below := if |chain| < |reorged| then |reorged| - |chain| else 0;
    if i >= k {
      assert reorged[i - k + below] == chain[i];
    } else if reorged != [] {
      assert reorged[0] == chain[k];
    }
  }

  function Hashes(bs: seq<ExecutedBlock>): set<Hash> { set i | 0 <= i < |bs| :: bs[i].hash }
  function Numbers(bs: seq<ExecutedBlock>): set<nat> { set i | 0 <= i < |bs| :: bs[i].number }

  lemma {:induction false} OneMore(bs: seq<ExecutedBlock>, i: nat)
    requires i < |bs|
    ensures Hashes(bs[..i + 1]) == Hashes(bs[..i]) + {bs[i].hash}
    ensures Numbers(bs[..i + 1]) == Numbers(bs[..i]) + {bs[i].number}
  {
  }

  // ---- Sorting the surviving blocks ----

  predicate SortedByNumber(s: seq<ExecutedBlock>) {
    forall i, j :: 0 <= i < j < |s| ==> s[i].number < s[j].number
  }

  predicate DistinctNumbers(s: seq<ExecutedBlock>) {
    forall i, j :: 0 <= i < j < |s| ==> s[i].number != s[j].number
  }

  predicate NotAbove(a: ExecutedBlock, b: ExecutedBlock) { a.number <= b.number }

  lemma {:induction false} AtMostOnce(s: seq<ExecutedBlock>, x: ExecutedBlock)
    requires DistinctNumbers(s)
    ensures multiset(s)[x] <= 1
  {
    if s != [] {
      assert s == [s[0]] + s[1..];
      AtMostOnce(s[1..], x);
      if x == s[0] {
        forall i | 0 <= i < |s[1..]| ensures s[1..][i] != x { assert s[1..][i] == s[i + 1]; }
        assert x !in multiset(s[1..]);
      }
    }
  }

  lemma {:induction false} Twice(s: seq<ExecutedBlock>, i: nat, j: nat)
    requires i < j < |s| && s[i] == s[j]
    ensures multiset(s)[s[i]] >= 2
  {
    assert s == s[..j] + s[j..];
    assert s[..j][i] in multiset(s[..j]) && s[j..][0] in multiset(s[j..]);
  }

  /** Sorting blocks with distinct numbers puts them in strictly ascending order. */
  lemma {:induction false} SortByNumber(s: seq<ExecutedBlock>)
    requires DistinctNumbers(s)
    ensures SortedByNumber(Sort(NotAbove, s)) && forall x :: x in Sort(NotAbove, s) <==> x in s
  {
    var r := Sort(NotAbove, s);
    SortSorts(NotAbove, s);
    SameMembers(r, s);
    forall i, j | 0 <= i < j < |r| ensures r[i].number < r[j].number {
      assert NotAbove(r[i], r[j]) && r[i] in s && r[j] in s;
      AtMostOnce(s, r[i]);
      if r[i] == r[j] { Twice(r, i, j); }
    }
  }

  lemma {:induction false} HasMember(s: seq<ExecutedBlock>)
    ensures s != [] ==> exists x :: x in s
  {
    if s != [] { assert s[0] in s; }
  }

  lemma {:induction false} SortedLinkedIsUnique(r: seq<ExecutedBlock>, t: seq<ExecutedBlock>)
    requires SortedByNumber(r) && Linked(t) && forall x :: x in r <==> x in t
    ensures r == t
  {
    HasMember(r);
    HasMember(t);
    if r != [] {
      var m, n := |r| - 1, |t| - 1;
      assert r[m] in t;
      assert t[n] in r;
      assert r[m] == t[n];
      forall x ensures x in r[..m] <==> x in t[..n] {
        if x in r[..m] { assert x in t; }
        if x in t[..n] { assert x in r; }
      }
      LinkedPrefix(t, n);
      SortedLinkedIsUnique(r[..m], t[..n]);
    }
  }

  // ---- The shared state ----

  class InMemoryState {
    var blocks: map<Hash, BlockState>
    var numbers: map<nat, Hash>
    var pending: Option<BlockState>
    var persisted: Option<NumHash>
    ghost var chain: seq<ExecutedBlock>

    /** The maps index one linked chain, and the pending block hangs off the stored state of its
        parent, or off nothing when that parent is not in memory. */
    ghost predicate Valid()
      reads this
    {
      && Represents(chain, blocks, numbers)
      && (pending.Some? ==> pending.value.parent == Lookup(blocks, pending.value.block.parentHash))
    }

    constructor ()
      ensures Valid() && chain == [] && pending == None && persisted == None
    {
      blocks, numbers, pending, persisted, chain := map[], map[], None, None, [];
    }

    function StateByHash(h: Hash): (r: Option<BlockState>)
      reads this
      requires Valid()
      ensures r == if OnChain(chain, h) then Some(TipState(chain[..h.height - chain[0].number + 1])) else None
    {
      BlockMapAt(chain, h);
      Lookup(blocks, h)
    }

    function StateByNumber(n: nat): (r: Option<BlockState>)
      reads this
      requires Valid()
      ensures r == if Holds(chain, n) then Some(TipState(chain[..n - chain[0].number + 1])) else None
      ensures (if r.Some? then Some(r.value.block) else None) == BlockAt(chain, n)
    {
      NumberMapAt(chain, n);
      if n in numbers then
        IndexOnChain(chain, n - chain[0].number);
        StateByHash(numbers[n])
      else None
    }

    /** The state at the greatest number, which is the tip of the chain. */
    method HeadState() returns (r: Option<BlockState>)
      requires Valid()
      ensures r == if chain == [] then None else Some(TipState(chain))
    {
      if chain != [] { NumberMapAt(chain, chain[|chain| - 1].number); }
      if numbers == map[] { return None; }
      var last :| last in numbers;
      var rest := numbers.Keys - {last};
      while rest != {}
        invariant last in numbers && rest <= numbers.Keys
        invariant forall n :: n in numbers ==> n in rest || n <= last
        decreases rest
      {
        var n :| n in rest;
        if n > last { last := n; }
        rest := rest - {n};
      }
      NumberMapAt(chain, last);
      assert last == chain[|chain| - 1].number;
      IndexOnChain(chain, |chain| - 1);
      assert chain[..|chain|] == chain;
      r := StateByHash(numbers[last]);
    }

    /** All canonical in-memory blocks, newest first. */
    method CanonicalChain() returns (r: seq<ExecutedBlock>)
      requires Valid()
      ensures r == NewestFirst(chain)
    {
      var head := HeadState();
      if head == None { return []; }
      ChainOfTipState(chain);
      r := ChainOf(head.value);
    }

    /** The in-memory blocks handed to the state provider of block `h`, newest first. */
    method InMemoryBlocksFor(h: Hash) returns (r: seq<ExecutedBlock>)
      requires Valid()
      ensures r == if OnChain(chain, h) then NewestFirst(chain[..h.height - chain[0].number + 1]) else []
    {
      var s := StateByHash(h);
      r := [];
      if s.Some? {
        ChainOfTipState(chain[..h.height - chain[0].number + 1]);
        r := ChainOf(s.value);
      }
    }

    method Clear()
      requires Valid()
      modifies this
      ensures Valid() && chain == [] && pending == None && persisted == old(persisted)
    {
      numbers, blocks, pending := map[], map[], None;
      chain := [];
    }

    method SetPendingBlock(b: ExecutedBlock)
      requires Valid()
      modifies this`pending
      ensures Valid()
      ensures pending == Some(BlockState(b, StateByHash(b.parentHash)))
    {
      pending := Some(BlockState(b, StateByHash(b.parentHash)));
    }

    /** Removes the reorged blocks and appends the new ones to what is left. */
    method UpdateBlocks(newBlocks: seq<ExecutedBlock>, reorged: seq<ExecutedBlock>)
      requires Valid() && IsTipOf(reorged, chain) && ConnectsTo(chain, reorged, newBlocks)
      modifies this
      ensures Valid()
      ensures chain == Updated(old(chain), reorged, newBlocks)
      ensures forall b :: b in chain <==> b in newBlocks || (b in old(chain) && b !in reorged)
      ensures pending == None && persisted == old(persisted)
    {
      UpdateKeeps(chain, reorged, newBlocks);
      RemoveReorged(reorged);
      LinkedConcat(chain, newBlocks);
      InsertBlocks(newBlocks);
      pending := None;
    }

    method RemoveReorged(reorged: seq<ExecutedBlock>)
      requires Represents(chain, blocks, numbers) && IsTipOf(reorged, chain)
      modifies this`blocks, this`numbers, this`chain
      ensures chain == old(chain)[..Kept(old(chain), reorged)] && Represents(chain, blocks, numbers)
    {
      RemoveEach(reorged);
      RemoveRepresents(chain, reorged);
      chain := chain[..Kept(chain, reorged)];
    }

    method RemoveEach(reorged: seq<ExecutedBlock>)
      modifies this`blocks, this`numbers
      ensures blocks == old(blocks) - Hashes(reorged) && numbers == old(numbers) - Numbers(reorged)
    {
      for i := 0 to |reorged|
        invariant blocks == old(blocks) - Hashes(reorged[..i])
        invariant numbers == old(numbers) - Numbers(reorged[..i])
      {
        OneMore(reorged, i);
        blocks := blocks - {reorged[i].hash};
        numbers := numbers - {reorged[i].number};
      }
      assert reorged[..|reorged|] == reorged;
    }

    /** The insertion loop shared by chain updates and trimming. */
    method InsertBlocks(newBlocks: seq<ExecutedBlock>)
      requires Represents(chain, blocks, numbers) && Linked(chain + newBlocks)
      modifies this`blocks, this`numbers, this`chain
      ensures chain == old(chain) + newBlocks && Represents(chain, blocks, numbers)
    {
      assert chain == chain + newBlocks[..0];
      for i := 0 to |newBlocks|
        invariant chain == old(chain) + newBlocks[..i]
        invariant Represents(chain, blocks, numbers)
      {
        var b := newBlocks[i];
        AppendNext(old(chain), newBlocks, i, blocks, numbers);
        blocks, numbers := blocks[b.hash := BlockState(b, Lookup(blocks, b.parentHash))], numbers[b.number := b.hash];
        chain := old(chain) + newBlocks[..i + 1];
      }
      assert newBlocks[..|newBlocks|] == newBlocks;
    }

    /** Drops the blocks up to `removeUntil` once they are on disk and relinks the others.  A
        persisted block that is no longer in memory was reorged away, and nothing is dropped. */
    method RemovePersistedBlocksUntil(persistedBlock: NumHash, removeUntil: nat)
      requires Valid() && persistedBlock.number >= 0
      modifies this
      ensures Valid() && persisted == Some(persistedBlock)
      ensures chain == Trimmed(old(chain), persistedBlock, removeUntil)
      ensures persistedBlock.hash !in old(blocks) ==>
        blocks == old(blocks) && numbers == old(numbers) && chain == old(chain) && pending == old(pending)
      ensures persistedBlock.hash in old(blocks) ==>
        forall b :: b in chain <==> b in old(chain) && (b.number > removeUntil || b.number > persistedBlock.number)
      ensures persistedBlock.hash in old(blocks) ==>
        forall n: nat :: StateByNumber(n).Some? <==>
          old(StateByNumber(n)).Some? && (n > removeUntil || n > persistedBlock.number)
      ensures forall n: nat :: StateByNumber(n).Some? ==>
        old(StateByNumber(n)).Some? && StateByNumber(n).value.block == old(StateByNumber(n)).value.block
      ensures pending.Some? == old(pending).Some?
      ensures pending.Some? ==> pending.value.block == old(pending).value.block
    {
      ghost var before := chain;
      TrimChain(persistedBlock, removeUntil);
      assert forall n: nat :: StateByNumber(n).Some? <==> BlockAt(chain, n).Some?;
      assert forall n: nat :: old(StateByNumber(n)).Some? <==> BlockAt(before, n).Some?;
    }

    method TrimChain(persistedBlock: NumHash, removeUntil: nat)
      requires Valid() && persistedBlock.number >= 0
      modifies this
      ensures Valid() && persisted == Some(persistedBlock)
      ensures chain == Trimmed(old(chain), persistedBlock, removeUntil)
      ensures persistedBlock.hash !in old(blocks) ==>
        blocks == old(blocks) && numbers == old(numbers) && chain == old(chain) && pending == old(pending)
      ensures persistedBlock.hash in old(blocks) ==>
        && (forall b :: b in chain <==>
              b in old(chain) && (b.number > removeUntil || b.number > persistedBlock.number))
        && (forall n: nat :: BlockAt(chain, n) ==
              if n > removeUntil || n > persistedBlock.number then BlockAt(old(chain), n) else None)
      ensures pending.Some? == old(pending).Some?
      ensures pending.Some? ==> pending.value.block == old(pending).value.block
    {
      TrimKeeps(chain, persistedBlock, removeUntil);
      BlockMapAt(chain, persistedBlock.hash);
      TrimMaps(persistedBlock, removeUntil);
    }

    method TrimMaps(persistedBlock: NumHash, removeUntil: nat)
      requires Valid() && persistedBlock.number >= 0
      modifies this
      ensures Valid() && persisted == Some(persistedBlock)
      ensures chain == Trimmed(old(chain), persistedBlock, removeUntil)
      ensures persistedBlock.hash !in old(blocks) ==>
        blocks == old(blocks) && numbers == old(numbers) && pending == old(pending)
      ensures pending.Some? == old(pending).Some?
      ensures pending.Some? ==> pending.value.block == old(pending).value.block
    {
      persisted := Some(persistedBlock);
      BlockMapAt(chain, persistedBlock.hash);
      if persistedBlock.hash !in blocks { return; }
      RebuildAbove(if removeUntil < persistedBlock.number then removeUntil else persistedBlock.number);
      if pending.Some? {
        pending := Some(pending.value.(parent := Lookup(blocks, pending.value.block.parentHash)));
      }
    }

    /** Drains the maps and re-inserts the blocks above `limit` from lowest to highest. */
    method RebuildAbove(limit: nat)
      requires Represents(chain, blocks, numbers)
      modifies this`blocks, this`numbers, this`chain
      ensures Represents(chain, blocks, numbers) && chain == Above(old(chain), limit)
    {
      var survivors := DrainAbove(limit);
      SortedSurvivors(chain, limit, survivors);
      blocks, numbers, chain := map[], map[], [];
      InsertBlocks(Sort(NotAbove, survivors));
    }

    /** The blocks above `limit` in whatever order the hash map yields them. */
    method DrainAbove(limit: nat) returns (r: seq<ExecutedBlock>)
      requires Represents(chain, blocks, numbers)
      ensures DistinctNumbers(r)
      ensures forall b :: b in r <==> b in Above(chain, limit)
    {
      r := [];
      var todo := blocks.Keys;
      while todo != {}
        invariant todo <= blocks.Keys
        invariant DistinctNumbers(r)
        invariant forall b :: b in r <==> Stored(blocks, b) && b.hash !in todo && b.number > limit
        decreases todo
      {
        var h :| h in todo;
        MapsMirrorEachOther(chain, h);
        forall i | 0 <= i < |r| ensures r[i].number != blocks[h].block.number {
          assert r[i] in r;
          MapsMirrorEachOther(chain, r[i].hash);
        }
        todo := todo - {h};
        if blocks[h].block.number > limit {
          r := r + [blocks[h].block];
        }
      }
      forall b ensures b in r <==> b in Above(chain, limit) { StoredAbove(chain, limit, b); }
    }
  }

  predicate Stored(blocks: map<Hash, BlockState>, b: ExecutedBlock) {
    b.hash in blocks && blocks[b.hash].block == b
  }

  lemma {:induction false} StoredIsMember(chain: seq<ExecutedBlock>, b: ExecutedBlock)
    requires Linked(chain)
    ensures Stored(BlockMap(chain), b) <==> b in chain
  {
    BlockMapAt(chain, b.hash);
    if Stored(BlockMap(chain), b) { assert chain[b.hash.height - chain[0].number] == b; }
    if i :| 0 <= i < |chain| && chain[i] == b { IndexOnChain(chain, i); }
  }

  lemma {:induction false} StoredAbove(chain: seq<ExecutedBlock>, limit: nat, b: ExecutedBlock)
    requires Linked(chain)
    ensures Stored(BlockMap(chain), b) && b.number > limit <==> b in Above(chain, limit)
  {
    AboveMembers(chain, limit);
    StoredIsMember(chain, b);
  }
}
