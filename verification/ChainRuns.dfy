/** Whole runs of the node: chain updates, flushes to disk, trims and clears in any order. */
module ChainRuns {
  import opened Blocks
  import opened StateOverlay
  import opened CanonicalState

  /** `mem` is the in-memory chain and `disk` the database.  `flushed` counts the leading blocks of
      `mem` that are on disk but not trimmed yet.  The canonical chain since `base` is
      `gone + mem`; no operation reads the ghost fields. */
  datatype Node = Node(
    mem: seq<ExecutedBlock>, disk: State, flushed: nat,
    ghost base: State, ghost gone: seq<ExecutedBlock>)

  datatype Op =
    | Update(added: seq<ExecutedBlock>, reorged: seq<ExecutedBlock>)
    | Flush(count: nat)
    | Trim(persisted: NumHash, until: nat)
    | Clear

  ghost function Start(base: State): Node { Node([], base, 0, base, []) }

  /** Updates have the documented shape and contain executed blocks; the reorged ones may be on disk, in
      memory or both. A flush writes blocks that are in memory. A trim names a block and, if that block
      is still canonical, it is on disk. */
  ghost predicate Enabled(n: Node, op: Op) {
    match op
    case Update(added, reorged) =>
      && IsTipOf(reorged, n.mem) && ConnectsTo(n.mem, reorged, added)
      && |reorged| <= |n.gone + n.mem|
      && Executed(n.base, Left(n, reorged) + Updated(n.mem, reorged, added))
    case Flush(count) => n.flushed + count <= |n.mem|
    case Trim(persisted, until) =>
      && persisted.hash.HashOf? && persisted.number == persisted.hash.height
      && (OnChain(n.mem, persisted.hash) ==> persisted.number - n.mem[0].number < n.flushed)
    case Clear => true
  }

  /** What a reorg leaves of the blocks that are only on disk. */
  ghost function Left(n: Node, reorged: seq<ExecutedBlock>): seq<ExecutedBlock>
    requires |reorged| <= |n.gone + n.mem|
  {
    if |reorged| <= |n.mem| then n.gone else n.gone[..|n.gone| + |n.mem| - |reorged|]
  }

  lemma {:induction false} TrimmedIsSuffix(mem: seq<ExecutedBlock>, persisted: NumHash, until: nat, flushed: nat)
    requires Linked(mem) && persisted.number >= 0 && flushed <= |mem|
    requires OnChain(mem, persisted.hash) ==> persisted.number - mem[0].number < flushed
    ensures var rest := Trimmed(mem, persisted, until);
            && |rest| <= |mem| && rest == mem[|mem| - |rest|..] && Linked(rest)
            && |mem| - |rest| <= flushed
  {
    if OnChain(mem, persisted.hash) {
      var limit: nat := if until < persisted.number then until else persisted.number;
      AboveIsSuffix(mem, limit);
      if flushed < |mem| { assert mem[flushed].number > limit; }
    }
  }

  ghost function Step(n: Node, op: Op): Node
    requires Enabled(n, op)
  {
    match op
    case Update(added, reorged) => Rebased(n, added, reorged)
    case Flush(count) => WrittenOut(n, count)
    case Trim(persisted, until) =>
      var rest := Trimmed(n.mem, persisted, until);
      if |n.mem| - n.flushed <= |rest| <= |n.mem| then Dropped(n, |n.mem| - |rest|) else n
    case Clear => Cleared(n)
  }

  /** A reorg that undoes blocks on disk unwinds the database to the blocks kept. */
  ghost function Rebased(n: Node, added: seq<ExecutedBlock>, reorged: seq<ExecutedBlock>): Node
    requires |reorged| <= |n.gone + n.mem|
  {
    var kept, left := Kept(n.mem, reorged), Left(n, reorged);
    var unwound := kept < n.flushed || |left| < |n.gone|;
    n.(mem := Updated(n.mem, reorged, added), gone := left,
       flushed := if kept < n.flushed then kept else n.flushed,
       disk := if unwound then Replay(n.base, left + n.mem[..kept]) else n.disk)
  }

  ghost function WrittenOut(n: Node, count: nat): Node
    requires n.flushed + count <= |n.mem|
  {
    n.(disk := Replay(n.disk, n.mem[n.flushed..n.flushed + count]), flushed := n.flushed + count)
  }

  ghost function Cleared(n: Node): Node {
    n.(mem := [], flushed := 0, gone := n.gone + Flushed(n))
  }

  /** The in-memory blocks that are on disk as well. */
  ghost function Flushed(n: Node): seq<ExecutedBlock> {
    if n.flushed <= |n.mem| then n.mem[..n.flushed] else n.mem
  }

  ghost function Dropped(n: Node, d: nat): Node
    requires d <= n.flushed && d <= |n.mem|
  {
    n.(mem := n.mem[d..], flushed := n.flushed - d, gone := n.gone + n.mem[..d])
  }

  ghost predicate Run(n: Node, ops: seq<Op>, end: Node)
    decreases |ops|
  {
    if ops == [] then end == n
    else Enabled(n, ops[0]) && Run(Step(n, ops[0]), ops[1..], end)
  }

  ghost predicate Inv(n: Node) {
    && Linked(n.mem) && n.flushed <= |n.mem|
    && n.disk == Replay(n.base, n.gone + n.mem[..n.flushed])
    && Executed(n.base, n.gone + n.mem)
  }

  lemma {:induction false} ReplayConcat(base: State, a: seq<ExecutedBlock>, b: seq<ExecutedBlock>)
    ensures Replay(Replay(base, a), b) == Replay(base, a + b)
  {
    if b == [] {
      assert a + b == a;
    } else {
      var n := |b| - 1;
      assert (a + b)[..|a| + n] == a + b[..n];
      ReplayConcat(base, a, b[..n]);
    }
  }

  lemma {:induction false} UpdateKeepsInv(n: Node, added: seq<ExecutedBlock>, reorged: seq<ExecutedBlock>)
    requires Inv(n) && Enabled(n, Update(added, reorged))
    ensures Inv(Rebased(n, added, reorged))
  {
    var kept := Kept(n.mem, reorged);
    UpdatedKeepsPrefix(n.mem, reorged, added, if kept < n.flushed then kept else n.flushed);
  }

  lemma {:induction false} UpdatedKeepsPrefix(
    mem: seq<ExecutedBlock>, reorged: seq<ExecutedBlock>, added: seq<ExecutedBlock>, k: nat)
    requires Linked(mem) && ConnectsTo(mem, reorged, added) && k <= Kept(mem, reorged)
    ensures var mem' := Updated(mem, reorged, added);
            Linked(mem') && k <= |mem'| && mem'[..k] == mem[..k]
  {
    LinkedPrefix(mem, Kept(mem, reorged));
    LinkedConcat(mem[..Kept(mem, reorged)], added);
  }

  lemma {:induction false} ClearKeepsInv(n: Node)
    requires Inv(n)
    ensures Inv(Cleared(n))
  {
    DiskIsExecuted(n.base, n.gone, n.mem, n.flushed);
    assert Cleared(n).mem[..0] == [];
  }

  lemma {:induction false} DiskIsExecuted(
    base: State, gone: seq<ExecutedBlock>, mem: seq<ExecutedBlock>, flushed: nat)
    requires Executed(base, gone + mem) && flushed <= |mem|
    ensures var onDisk := gone + mem[..flushed];
            Executed(base, onDisk) && onDisk + [] == onDisk
  {
    var onDisk := gone + mem[..flushed];
    assert onDisk == (gone + mem)[..|onDisk|];
    ExecutedPrefix(base, gone + mem, |onDisk|);
  }

  lemma {:induction false} FlushKeepsInv(n: Node, count: nat)
    requires Inv(n) && n.flushed + count <= |n.mem|
    ensures Inv(WrittenOut(n, count))
  {
    FlushedReplay(n.base, n.gone, n.mem, n.flushed, n.flushed + count);
  }

  lemma {:induction false} FlushedReplay(
    base: State, gone: seq<ExecutedBlock>, mem: seq<ExecutedBlock>, lo: nat, hi: nat)
    requires lo <= hi <= |mem|
    ensures Replay(Replay(base, gone + mem[..lo]), mem[lo..hi]) == Replay(base, gone + mem[..hi])
  {
    assert (gone + mem[..lo]) + mem[lo..hi] == gone + mem[..hi];
    ReplayConcat(base, gone + mem[..lo], mem[lo..hi]);
  }

  lemma {:induction false} TrimStep(n: Node, persisted: NumHash, until: nat) returns (d: nat)
    requires Inv(n) && Enabled(n, Trim(persisted, until))
    ensures d <= n.flushed && d == |n.mem| - |Trimmed(n.mem, persisted, until)|
    ensures Step(n, Trim(persisted, until)) == Dropped(n, d)
    ensures Trimmed(n.mem, persisted, until) == Dropped(n, d).mem
  {
    TrimmedIsSuffix(n.mem, persisted, until, n.flushed);
    d := |n.mem| - |Trimmed(n.mem, persisted, until)|;
  }

  lemma {:induction false} DropKeepsInv(n: Node, d: nat)
    requires Inv(n) && d <= n.flushed
    ensures Inv(Dropped(n, d))
  {
    LinkedSuffix(n.mem, d);
    DropMovesPrefix(n.gone, n.mem, d, n.flushed);
  }

  lemma {:induction false} DropMovesPrefix(gone: seq<ExecutedBlock>, mem: seq<ExecutedBlock>, d: nat, flushed: nat)
    requires d <= flushed <= |mem|
    ensures (gone + mem[..d]) + mem[d..] == gone + mem
    ensures (gone + mem[..d]) + mem[d..][..flushed - d] == gone + mem[..flushed]
  {
  }

  lemma {:induction false} RunKeepsInv(n: Node, ops: seq<Op>, end: Node)
    requires Inv(n) && Run(n, ops, end)
    ensures Inv(end) && end.base == n.base
    decreases |ops|
  {
    if ops != [] {
      match ops[0] {
        case Update(added, reorged) => UpdateKeepsInv(n, added, reorged);
        case Flush(count) => FlushKeepsInv(n, count);
        case Trim(persisted, until) =>
          var d := TrimStep(n, persisted, until);
          DropKeepsInv(n, d);
        case Clear => ClearKeepsInv(n);
      }
      RunKeepsInv(Step(n, ops[0]), ops[1..], end);
    }
  }

  // ---- What each operation does to the canonical chain, the memory and the disk ----

  /** The canonical blocks that are on disk. */
  ghost function OnDisk(n: Node): seq<ExecutedBlock> { n.gone + Flushed(n) }

  /** An update replaces the reorged end of the canonical chain; the disk keeps what is still canonical. */
  lemma {:induction false} UpdateOnChains(n: Node, added: seq<ExecutedBlock>, reorged: seq<ExecutedBlock>)
    requires Inv(n) && Enabled(n, Update(added, reorged))
    ensures var n', all := Step(n, Update(added, reorged)), n.gone + n.mem;
            var kept := all[..|all| - |reorged|];
            && n'.gone + n'.mem == kept + added
            && OnDisk(n') == if |OnDisk(n)| <= |kept| then OnDisk(n) else kept
  {
    RebasedOnChains(n, added, reorged);
  }

  lemma {:induction false} RebasedOnChains(n: Node, added: seq<ExecutedBlock>, reorged: seq<ExecutedBlock>)
    requires |reorged| <= |n.gone + n.mem| && n.flushed <= |n.mem|
    ensures var n', all := Rebased(n, added, reorged), n.gone + n.mem;
            var kept := all[..|all| - |reorged|];
            && n'.gone + n'.mem == kept + added
            && OnDisk(n') == if |OnDisk(n)| <= |kept| then OnDisk(n) else kept
  {
    RebasedChain(n.gone, n.mem, |reorged|, added);
    RebasedDisk(n.gone, n.mem, |reorged|, added, n.flushed);
  }

  lemma {:induction false} RebasedChain(
    gone: seq<ExecutedBlock>, mem: seq<ExecutedBlock>, undone: nat, added: seq<ExecutedBlock>)
    requires undone <= |gone + mem|
    ensures var kept := if undone < |mem| then |mem| - undone else 0;
            var left := if undone <= |mem| then gone else gone[..|gone| + |mem| - undone];
            left + (mem[..kept] + added) == (gone + mem)[..|gone + mem| - undone] + added
  {
  }

  lemma {:induction false} RebasedDisk(
    gone: seq<ExecutedBlock>, mem: seq<ExecutedBlock>, undone: nat, added: seq<ExecutedBlock>, flushed: nat)
    requires undone <= |gone + mem| && flushed <= |mem|
    ensures var kept := if undone < |mem| then |mem| - undone else 0;
            var left := if undone <= |mem| then gone else gone[..|gone| + |mem| - undone];
            var still := (gone + mem)[..|gone + mem| - undone];
            left + (mem[..kept] + added)[..if kept < flushed then kept else flushed] ==
              if |gone + mem[..flushed]| <= |still| then gone + mem[..flushed] else still
  {
  }

  /** A flush puts the next blocks of the canonical chain on disk. */
  lemma {:induction false} FlushOnChains(n: Node, count: nat)
    requires Inv(n) && Enabled(n, Flush(count))
    ensures var n', all := Step(n, Flush(count)), n.gone + n.mem;
            && n'.gone + n'.mem == all && n'.mem == n.mem
            && |OnDisk(n)| + count <= |all| && OnDisk(n') == all[..|OnDisk(n)| + count]
  {
  }

  /** A trim changes neither the canonical chain nor the disk, and leaves in memory exactly the blocks
      above one of its limits. */
  lemma {:induction false} TrimOnChains(n: Node, persisted: NumHash, until: nat)
    requires Inv(n) && Enabled(n, Trim(persisted, until))
    ensures var n' := Step(n, Trim(persisted, until));
            && n'.gone + n'.mem == n.gone + n.mem && OnDisk(n') == OnDisk(n) && n'.disk == n.disk
            && (forall b :: b in n'.mem <==>
                  b in n.mem && (OnChain(n.mem, persisted.hash) ==> b.number > until || b.number > persisted.number))
  {
    var d := TrimStep(n, persisted, until);
    TrimKeeps(n.mem, persisted, until);
    DropMovesPrefix(n.gone, n.mem, d, n.flushed);
  }

  /** A clear leaves the blocks on disk and nothing in memory. */
  lemma {:induction false} ClearOnChains(n: Node)
    requires Inv(n)
    ensures var n' := Step(n, Clear); n'.mem == [] && n'.gone == OnDisk(n') == OnDisk(n) && n'.disk == n.disk
  {
    assert OnDisk(n) + [] == OnDisk(n);
  }

  /** A trim asked for after its block was reorged away drops nothing. */
  lemma {:induction false} ReorgedTrimIsIgnored(
    n: Node, added: seq<ExecutedBlock>, reorged: seq<ExecutedBlock>, i: nat, until: nat)
    requires Inv(n) && Enabled(n, Update(added, reorged))
    requires Kept(n.mem, reorged) <= i < |n.mem| && forall b :: b in added ==> b.hash != n.mem[i].hash
    ensures var after, persisted := Step(n, Update(added, reorged)), NumHash(n.mem[i].number, n.mem[i].hash);
            Enabled(after, Trim(persisted, until)) && Step(after, Trim(persisted, until)) == after
  {
    ReorgedIsOffChain(n.mem, reorged, added, i);
  }

  lemma {:induction false} ReorgedIsOffChain(
    mem: seq<ExecutedBlock>, reorged: seq<ExecutedBlock>, added: seq<ExecutedBlock>, i: nat)
    requires Linked(mem) && Kept(mem, reorged) <= i < |mem| && forall b :: b in added ==> b.hash != mem[i].hash
    ensures !OnChain(Updated(mem, reorged, added), mem[i].hash)
    ensures mem[i].hash == HashOf(mem[i].number, mem[i].hash.salt)
  {
    var kept, mem' := Kept(mem, reorged), Updated(mem, reorged, added);
    forall j | 0 <= j < |mem'| ensures mem'[j].hash != mem[i].hash {
      if j >= kept { assert mem'[j] == added[j - kept] && added[j - kept] in added; }
    }
  }

  /** Every read through `inMemory` over history `h` gives what state `s` holds. */
  ghost predicate ReadsAs(inMemory: seq<ExecutedBlock>, h: State, s: State) {
    && (forall a :: BasicAccount(inMemory, h, a) == s.account(a))
    && (forall c :: BytecodeByHash(inMemory, h, c) == s.code(c))
    && (forall a, k :: Storage(inMemory, h, a, k).GetOr(0) == SlotValue(s, a, k))
  }

  lemma {:induction false} OverlayReadsAs(
    base: State, chain: seq<ExecutedBlock>, q: nat, j: nat, inMemory: seq<ExecutedBlock>, h: State)
    requires Executed(base, chain) && q <= j <= |chain|
    requires inMemory == NewestFirst(chain[q..]) && h == Replay(base, chain[..j])
    ensures ReadsAs(inMemory, h, Replay(base, chain))
  {
    OverlayIsReplay(base, chain, q, j);
  }

  /** After any run, every in-memory block's overlay reads exactly the canonical state at that
      block, over any history standing between the trimmed blocks and the block itself. */
  lemma {:induction false} EveryRunReadsCanonicalState(base: State, ops: seq<Op>, end: Node, i: nat, j: nat)
    requires Run(Start(base), ops, end)
    requires i < |end.mem| && j <= i + 1
    ensures ReadsAs(NewestFirst(end.mem[..i + 1]), Replay(base, end.gone + end.mem[..j]),
                    Replay(base, end.gone + end.mem[..i + 1]))
  {
    StartsValid(base);
    RunKeepsInv(Start(base), ops, end);
    ReadsAtBlock(base, end.gone, end.mem, i, j);
  }

  lemma {:induction false} StartsValid(base: State)
    ensures Inv(Start(base))
  {
    assert [] + Start(base).mem[..0] == [];
  }

  lemma {:induction false} ReadsAtBlock(base: State, gone: seq<ExecutedBlock>, mem: seq<ExecutedBlock>, i: nat, j: nat)
    requires Executed(base, gone + mem) && i < |mem| && j <= i + 1
    ensures ReadsAs(NewestFirst(mem[..i + 1]), Replay(base, gone + mem[..j]), Replay(base, gone + mem[..i + 1]))
  {
    var upto := gone + mem[..i + 1];
    assert upto == (gone + mem)[..|upto|];
    ExecutedPrefix(base, gone + mem, |upto|);
    assert upto[|gone|..] == mem[..i + 1];
    assert upto[..|gone| + j] == gone + mem[..j];
    OverlayReadsAs(base, upto, |gone|, |gone| + j, NewestFirst(mem[..i + 1]), Replay(base, gone + mem[..j]));
  }

  /** The database is such a history for the tip: its readers always see the whole canonical
      state, whatever part of it is in memory, on disk or both. */
  lemma {:induction false} TipReadsThroughDisk(base: State, ops: seq<Op>, end: Node)
    requires Run(Start(base), ops, end)
    ensures ReadsAs(NewestFirst(end.mem), end.disk, Replay(base, end.gone + end.mem))
  {
    StartsValid(base);
    RunKeepsInv(Start(base), ops, end);
    ReadsAtTip(base, end.gone, end.mem, end.flushed);
  }

  lemma {:induction false} ReadsAtTip(base: State, gone: seq<ExecutedBlock>, mem: seq<ExecutedBlock>, flushed: nat)
    requires Executed(base, gone + mem) && flushed <= |mem|
    ensures ReadsAs(NewestFirst(mem), Replay(base, gone + mem[..flushed]), Replay(base, gone + mem))
  {
    SplitAt(gone, mem, flushed);
    OverlayReadsAs(base, gone + mem, |gone|, |gone| + flushed, NewestFirst(mem), Replay(base, gone + mem[..flushed]));
  }

  lemma {:induction false} SplitAt(gone: seq<ExecutedBlock>, mem: seq<ExecutedBlock>, flushed: nat)
    requires flushed <= |mem|
    ensures (gone + mem)[|gone|..] == mem && (gone + mem)[..|gone| + flushed] == gone + mem[..flushed]
  {
  }

  /** A trim changes no read of a surviving block when the history handed to its reader moves from
      the old anchor to the new one: both read the canonical state at that block. */
  lemma {:induction false} TrimIsInvisible(n: Node, persisted: NumHash, until: nat, i: nat)
    requires Inv(n) && Enabled(n, Trim(persisted, until))
    requires i < |n.mem| && |n.mem| - |Trimmed(n.mem, persisted, until)| <= i
    ensures var n', at := Step(n, Trim(persisted, until)), Replay(n.base, n.gone + n.mem[..i + 1]);
            var d := |n.mem| - |n'.mem|;
            && 0 <= d <= i && n'.mem[i - d] == n.mem[i]
            && ReadsAs(NewestFirst(n.mem[..i + 1]), Replay(n.base, n.gone), at)
            && ReadsAs(NewestFirst(n'.mem[..i - d + 1]), Replay(n.base, n'.gone), at)
  {
    var d := TrimStep(n, persisted, until);
    ReadsBeforeDrop(n, i);
    ReadsAfterDrop(n, d, i);
  }

  lemma {:induction false} ReadsBeforeDrop(n: Node, i: nat)
    requires Inv(n) && i < |n.mem|
    ensures ReadsAs(NewestFirst(n.mem[..i + 1]), Replay(n.base, n.gone), Replay(n.base, n.gone + n.mem[..i + 1]))
  {
    assert n.gone + n.mem[..0] == n.gone;
    ReadsAtBlock(n.base, n.gone, n.mem, i, 0);
  }

  lemma {:induction false} ReadsAfterDrop(n: Node, d: nat, i: nat)
    requires Inv(n) && d <= n.flushed && d <= i < |n.mem|
    ensures ReadsAs(NewestFirst(Dropped(n, d).mem[..i - d + 1]), Replay(n.base, Dropped(n, d).gone),
                    Replay(n.base, n.gone + n.mem[..i + 1]))
  {
    ReadsAbove(n.base, n.gone, n.mem, d, i);
  }

  lemma {:induction false} ReadsAbove(base: State, gone: seq<ExecutedBlock>, mem: seq<ExecutedBlock>, d: nat, i: nat)
    requires Executed(base, gone + mem) && d <= i < |mem|
    ensures ReadsAs(NewestFirst(mem[d..][..i - d + 1]), Replay(base, gone + mem[..d]),
                    Replay(base, gone + mem[..i + 1]))
  {
    DropMovesPrefix(gone, mem, d, i + 1);
    DropMovesPrefix(gone, mem, d, d);
    ReadsAtBlock(base, gone + mem[..d], mem[d..], i - d, 0);
  }
}
