/** Reads through in-memory blocks laid over a historical state, and what persisting blocks does
    to those reads. */
module StateOverlay {
  import opened Wrappers
  import opened Blocks

  /** The plain state tables of the database, as lookups. */
  datatype State = State(
    account: Address -> Option<Account>,
    slot: (Address, Slot) -> Option<Value>,
    code: CodeHash -> Option<Bytecode>)

  ghost predicate StoresNoZero(st: State) {
    forall a, k :: st.slot(a, k) != Some(0)
  }

  /** An absent slot is zero. */
  function SlotValue(st: State, a: Address, k: Slot): Value {
    st.slot(a, k).GetOr(0)
  }

  // ---- What one block knows ----

  function BlockAccount(b: ExecutedBlock, a: Address): Option<Option<Account>> {
    if a in b.accounts then Some(b.accounts[a].info) else None
  }

  function BlockSlot(b: ExecutedBlock, a: Address, k: Slot): Option<Value> {
    if a !in b.accounts then None
    else if k in b.accounts[a].storage then Some(b.accounts[a].storage[k])
    else if b.accounts[a].storageKnown then Some(0)
    else None
  }

  function BlockCode(b: ExecutedBlock, c: CodeHash): Option<Option<Bytecode>> {
    if c in b.contracts then Some(Some(b.contracts[c])) else None
  }

  function AccountRead(a: Address): ExecutedBlock -> Option<Option<Account>> { b => BlockAccount(b, a) }
  function SlotRead(a: Address, k: Slot): ExecutedBlock -> Option<Value> { b => BlockSlot(b, a, k) }
  function CodeRead(c: CodeHash): ExecutedBlock -> Option<Option<Bytecode>> { b => BlockCode(b, c) }

  // ---- Reads through the overlay: newest block first, then history ----

  function FindNewest<V>(inMemory: seq<ExecutedBlock>, read: ExecutedBlock -> Option<V>): Option<V> {
    if inMemory == [] then None
    else if read(inMemory[0]).Some? then read(inMemory[0])
    else FindNewest(inMemory[1..], read)
  }

  function BasicAccount(inMemory: seq<ExecutedBlock>, historical: State, a: Address): Option<Account> {
    match FindNewest(inMemory, AccountRead(a))
    case Some(account) => account
    case None => historical.account(a)
  }

  function Storage(inMemory: seq<ExecutedBlock>, historical: State, a: Address, k: Slot): Option<Value> {
    match FindNewest(inMemory, SlotRead(a, k))
    case Some(value) => Some(value)
    case None => historical.slot(a, k)
  }

  function BytecodeByHash(inMemory: seq<ExecutedBlock>, historical: State, c: CodeHash): Option<Bytecode> {
    match FindNewest(inMemory, CodeRead(c))
    case Some(code) => code
    case None => historical.code(c)
  }

  // ---- Persisting blocks ----

  /** Writes one block into the plain state tables: accounts are upserted or deleted, a destroyed
      account loses its storage, and zero values are deleted rather than stored. */
  function Persist(st: State, b: ExecutedBlock): State {
    State(
      a => BlockAccount(b, a).GetOr(st.account(a)),
      (a, k) => PersistedSlot(st, b, a, k),
      c => BlockCode(b, c).GetOr(st.code(c)))
  }

  function PersistedSlot(st: State, b: ExecutedBlock, a: Address, k: Slot): Option<Value> {
    if a in b.accounts && k in b.accounts[a].storage then
      if b.accounts[a].storage[k] == 0 then None else Some(b.accounts[a].storage[k])
    else if a in b.accounts && b.accounts[a].destroyed then None
    else st.slot(a, k)
  }

  /** Storage can be fully known without a self-destruct only for an account that had none. */
  ghost predicate ExecutedOn(st: State, b: ExecutedBlock) {
    forall a :: a in b.accounts ==>
      && (b.accounts[a].destroyed ==> b.accounts[a].storageKnown)
      && (b.accounts[a].storageKnown && !b.accounts[a].destroyed ==> HasNoStorage(st, a))
  }

  ghost predicate HasNoStorage(st: State, a: Address) {
    forall k: Slot :: st.slot(a, k) == None
  }

  /** State after persisting a chain, oldest block first. */
  function Replay(base: State, chain: seq<ExecutedBlock>): State {
    if chain == [] then base
    else Persist(Replay(base, chain[..|chain| - 1]), chain[|chain| - 1])
  }

  ghost predicate Executed(base: State, chain: seq<ExecutedBlock>) {
    chain == [] || (var init := chain[..|chain| - 1];
                    Executed(base, init) && ExecutedOn(Replay(base, init), chain[|chain| - 1]))
  }

  lemma {:induction false} ExecutedPrefix(base: State, chain: seq<ExecutedBlock>, k: nat)
    requires Executed(base, chain) && k <= |chain|
    ensures Executed(base, chain[..k])
  {
    if k < |chain| {
      assert chain[..|chain| - 1][..k] == chain[..k];
      ExecutedPrefix(base, chain[..|chain| - 1], k);
    } else {
      assert chain[..k] == chain;
    }
  }

  // ---- The last writer of a key ----

  /** `at[i]` is the value of one key after `i` blocks.  Reading newest-first through any suffix of
      the chain, over a history standing anywhere between that suffix's start and the tip, gives
      the value at the tip. */
  lemma {:induction false} LastWriter<V>(
    chain: seq<ExecutedBlock>, read: ExecutedBlock -> Option<V>, at: seq<V>, q: nat, j: nat)
    requires |at| == |chain| + 1 && q <= j <= |chain|
    requires forall i :: 0 <= i < |chain| ==> at[i + 1] == read(chain[i]).GetOr(at[i])
    ensures FindNewest(NewestFirst(chain[q..]), read).GetOr(at[j]) == at[|chain|]
  {
    var n := |chain|;
    if q == n {
      assert NewestFirst(chain[q..]) == [];
    } else {
      var found := NewestFirst(chain[q..]);
      assert found[0] == chain[n - 1];
      assert at[(n - 1) + 1] == read(chain[n - 1]).GetOr(at[n - 1]);
      if read(chain[n - 1]).None? {
        var shorter := chain[..n - 1];
        assert chain[q..][..n - 1 - q] == shorter[q..];
        assert found[1..] == NewestFirst(shorter[q..]);
        LastWriter(shorter, read, at[..n], q, if j == n then n - 1 else j);
      }
    }
  }

  lemma {:induction false} ReplayStep(base: State, chain: seq<ExecutedBlock>, i: nat)
    requires i < |chain|
    ensures Replay(base, chain[..i + 1]) == Persist(Replay(base, chain[..i]), chain[i])
  {
    assert chain[..i + 1][..i] == chain[..i];
  }

  lemma {:induction false} PersistSlotValue(st: State, b: ExecutedBlock, a: Address, k: Slot)
    requires ExecutedOn(st, b)
    ensures SlotValue(Persist(st, b), a, k) == BlockSlot(b, a, k).GetOr(SlotValue(st, a, k))
  {
  }

  /** Central law: a read through the in-memory suffix `chain[q..]` over a history that has
      absorbed any number `j` of blocks between the suffix's start and its tip is the read of the
      fully replayed state.  Storage is compared as values, an absent slot being zero. */
  lemma {:induction false} OverlayIsReplay(base: State, chain: seq<ExecutedBlock>, q: nat, j: nat)
    requires Executed(base, chain) && q <= j <= |chain|
    ensures var inMemory := NewestFirst(chain[q..]);
            var h, tip := Replay(base, chain[..j]), Replay(base, chain);
            && (forall a :: BasicAccount(inMemory, h, a) == tip.account(a))
            && (forall c :: BytecodeByHash(inMemory, h, c) == tip.code(c))
            && (forall a, k :: Storage(inMemory, h, a, k).GetOr(0) == SlotValue(tip, a, k))
  {
    forall a ensures BasicAccount(NewestFirst(chain[q..]), Replay(base, chain[..j]), a)
                  == Replay(base, chain).account(a) {
      OverlayAccount(base, chain, q, j, a);
    }
    forall c ensures BytecodeByHash(NewestFirst(chain[q..]), Replay(base, chain[..j]), c)
                  == Replay(base, chain).code(c) {
      OverlayCode(base, chain, q, j, c);
    }
    forall a, k ensures Storage(NewestFirst(chain[q..]), Replay(base, chain[..j]), a, k).GetOr(0)
                     == SlotValue(Replay(base, chain), a, k) {
      OverlaySlot(base, chain, q, j, a, k);
    }
  }

  lemma {:induction false} OverlayAccount(base: State, chain: seq<ExecutedBlock>, q: nat, j: nat, a: Address)
    requires q <= j <= |chain|
    ensures BasicAccount(NewestFirst(chain[q..]), Replay(base, chain[..j]), a)
         == Replay(base, chain).account(a)
  {
    var n := |chain|;
    assert chain[..n] == chain;
    var at := seq(n + 1, i requires 0 <= i <= n => Replay(base, chain[..i]).account(a));
    forall i | 0 <= i < n ensures at[i + 1] == AccountRead(a)(chain[i]).GetOr(at[i]) {
      ReplayStep(base, chain, i);
    }
    LastWriter(chain, AccountRead(a), at, q, j);
  }

  lemma {:induction false} OverlayCode(base: State, chain: seq<ExecutedBlock>, q: nat, j: nat, c: CodeHash)
    requires q <= j <= |chain|
    ensures BytecodeByHash(NewestFirst(chain[q..]), Replay(base, chain[..j]), c)
         == Replay(base, chain).code(c)
  {
    var n := |chain|;
    assert chain[..n] == chain;
    var at := seq(n + 1, i requires 0 <= i <= n => Replay(base, chain[..i]).code(c));
    forall i | 0 <= i < n ensures at[i + 1] == CodeRead(c)(chain[i]).GetOr(at[i]) {
      ReplayStep(base, chain, i);
    }
    LastWriter(chain, CodeRead(c), at, q, j);
  }

  lemma {:induction false} OverlaySlot(base: State, chain: seq<ExecutedBlock>, q: nat, j: nat, a: Address, k: Slot)
    requires Executed(base, chain) && q <= j <= |chain|
    ensures Storage(NewestFirst(chain[q..]), Replay(base, chain[..j]), a, k).GetOr(0)
         == SlotValue(Replay(base, chain), a, k)
  {
    var at := SlotHistory(base, chain, a, k);
    assert chain[..|chain|] == chain;
    StorageThrough(chain, Replay(base, chain[..j]), at, q, j, a, k);
  }

  lemma {:induction false} SlotHistory(
    base: State, chain: seq<ExecutedBlock>, a: Address, k: Slot)
    returns (at: seq<Value>)
    requires Executed(base, chain)
    ensures |at| == |chain| + 1
    ensures forall i :: 0 <= i <= |chain| ==> at[i] == SlotValue(Replay(base, chain[..i]), a, k)
    ensures forall i :: 0 <= i < |chain| ==> at[i + 1] == BlockSlot(chain[i], a, k).GetOr(at[i])
  {
    at := seq(|chain| + 1, i requires 0 <= i <= |chain| => SlotValue(Replay(base, chain[..i]), a, k));
    forall i | 0 <= i < |chain| ensures at[i + 1] == BlockSlot(chain[i], a, k).GetOr(at[i]) {
      ReplayStep(base, chain, i);
      ExecutedPrefix(base, chain, i + 1);
      assert chain[..i + 1][..i] == chain[..i];
      PersistSlotValue(Replay(base, chain[..i]), chain[i], a, k);
    }
  }

  lemma {:induction false} StorageThrough(
    chain: seq<ExecutedBlock>, h: State, at: seq<Value>, q: nat, j: nat, a: Address, k: Slot)
    requires |at| == |chain| + 1 && q <= j <= |chain| && at[j] == SlotValue(h, a, k)
    requires forall i :: 0 <= i < |chain| ==> at[i + 1] == BlockSlot(chain[i], a, k).GetOr(at[i])
    ensures Storage(NewestFirst(chain[q..]), h, a, k).GetOr(0) == at[|chain|]
  {
    LastWriter(chain, SlotRead(a, k), at, q, j);
  }

  /** Two readers of the same block agree on every account, code and slot value, wherever their
      in-memory suffixes begin and however far their histories have absorbed the chain. */
  lemma {:induction false} SuffixesAgree(base: State, chain: seq<ExecutedBlock>, q: nat, j: nat, q': nat, j': nat)
    requires Executed(base, chain) && q <= j <= |chain| && q' <= j' <= |chain|
    ensures var m, m' := NewestFirst(chain[q..]), NewestFirst(chain[q'..]);
            var h, h' := Replay(base, chain[..j]), Replay(base, chain[..j']);
            && (forall a :: BasicAccount(m, h, a) == BasicAccount(m', h', a))
            && (forall c :: BytecodeByHash(m, h, c) == BytecodeByHash(m', h', c))
            && (forall a, k :: Storage(m, h, a, k).GetOr(0) == Storage(m', h', a, k).GetOr(0))
  {
    OverlayIsReplay(base, chain, q, j);
    OverlayIsReplay(base, chain, q', j');
  }

  // ---- Presence of a slot, not only its value ----

  lemma {:induction false} ReplayStoresNoZero(base: State, chain: seq<ExecutedBlock>)
    requires StoresNoZero(base)
    ensures StoresNoZero(Replay(base, chain))
  {
    if chain != [] {
      ReplayStoresNoZero(base, chain[..|chain| - 1]);
    }
  }

  lemma {:induction false} FindNewestConcat<V>(
    newer: seq<ExecutedBlock>, older: seq<ExecutedBlock>, read: ExecutedBlock -> Option<V>)
    ensures FindNewest(newer + older, read)
         == if FindNewest(newer, read).Some? then FindNewest(newer, read) else FindNewest(older, read)
  {
    if newer == [] {
      assert newer + older == older;
    } else {
      assert (newer + older)[1..] == newer[1..] + older;
      FindNewestConcat(newer[1..], older, read);
    }
  }

  /** When blocks below `q'` are persisted and trimmed, a slot read keeps its `Option` shape if and
      only if it was not an explicit zero or a surviving block still records the slot. */
  lemma {:induction false} SlotPresenceAfterTrim(
    base: State, chain: seq<ExecutedBlock>, q: nat, q': nat, a: Address, k: Slot)
    requires Executed(base, chain) && StoresNoZero(base) && q <= q' <= |chain|
    ensures var before := Storage(NewestFirst(chain[q..]), Replay(base, chain[..q]), a, k);
            var after := Storage(NewestFirst(chain[q'..]), Replay(base, chain[..q']), a, k);
            before == after <==>
              before != Some(0) || FindNewest(NewestFirst(chain[q'..]), SlotRead(a, k)).Some?
  {
    var newer, older := NewestFirst(chain[q'..]), NewestFirst(chain[q..q']);
    NewestFirstSplit(chain, q, q');
    OverlaySlot(base, chain, q, q, a, k);
    OverlaySlot(base, chain, q', q', a, k);
    ReplayStoresNoZero(base, chain[..q']);
    PresenceIsKept(newer, older, Replay(base, chain[..q]), Replay(base, chain[..q']), a, k);
  }

  lemma {:induction false} NewestFirstSplit(chain: seq<ExecutedBlock>, q: nat, q': nat)
    requires q <= q' <= |chain|
    ensures NewestFirst(chain[q..]) == NewestFirst(chain[q'..]) + NewestFirst(chain[q..q'])
  {
  }

  lemma {:induction false} PresenceIsKept(
    newer: seq<ExecutedBlock>, older: seq<ExecutedBlock>, h: State, h': State, a: Address, k: Slot)
    requires StoresNoZero(h')
    requires Storage(newer + older, h, a, k).GetOr(0) == Storage(newer, h', a, k).GetOr(0)
    ensures Storage(newer + older, h, a, k) == Storage(newer, h', a, k) <==>
              Storage(newer + older, h, a, k) != Some(0) || FindNewest(newer, SlotRead(a, k)).Some?
  {
    FindNewestConcat(newer, older, SlotRead(a, k));
  }

  /** The presence of a slot really can change: a slot set to zero reads `Some(0)` while its block
      is in memory and `None` once that block is on disk. */
  lemma {:induction false} TrimmedZeroReadsAbsent()
    ensures var b := ExecutedBlock(HashOf(1, 0), 1, HashOf(0, 0),
                       map[7 := BundleAccount(Some(1), Some(1), map[3 := 0], false, false)], map[]);
            forall base: State :: base.slot(7, 3) == Some(9) ==>
              && Executed(base, [b])
              && Storage(NewestFirst([b]), base, 7, 3) == Some(0)
              && Storage([], Replay(base, [b]), 7, 3) == None
  {
    var b := ExecutedBlock(HashOf(1, 0), 1, HashOf(0, 0),
               map[7 := BundleAccount(Some(1), Some(1), map[3 := 0], false, false)], map[]);
    assert [b][..0] == [];
    assert NewestFirst([b]) == [b];
    forall base: State | base.slot(7, 3) == Some(9)
      ensures Executed(base, [b])
      ensures Storage(NewestFirst([b]), base, 7, 3) == Some(0) && Storage([], Replay(base, [b]), 7, 3) == None
    {
      assert Replay(base, [b]) == Persist(base, b);
      assert Executed(base, [b][..0]);
    }
  }

  // ---- Reads in terms of the blocks' own entries ----

  lemma {:induction false} NewestAnswer<V>(chain: seq<ExecutedBlock>, read: ExecutedBlock -> Option<V>, i: nat)
    requires i < |chain| && read(chain[i]).Some? && forall j :: i < j < |chain| ==> read(chain[j]).None?
    ensures FindNewest(NewestFirst(chain), read) == read(chain[i])
  {
    var n := |chain| - 1;
    assert NewestFirst(chain)[1..] == NewestFirst(chain[..n]);
    if i < n { NewestAnswer(chain[..n], read, i); }
  }

  lemma {:induction false} NoAnswer<V>(chain: seq<ExecutedBlock>, read: ExecutedBlock -> Option<V>)
    requires forall j :: 0 <= j < |chain| ==> read(chain[j]).None?
    ensures FindNewest(NewestFirst(chain), read) == None
  {
    if chain != [] {
      assert NewestFirst(chain)[1..] == NewestFirst(chain[..|chain| - 1]);
      NoAnswer(chain[..|chain| - 1], read);
    }
  }

  /** Code is the contract of the newest block that has it, read through the overlay or replayed. */
  lemma {:induction false} CodeOfNewestBlock(h: State, chain: seq<ExecutedBlock>, c: CodeHash, i: nat)
    requires i < |chain| && c in chain[i].contracts && forall j :: i < j < |chain| ==> c !in chain[j].contracts
    ensures BytecodeByHash(NewestFirst(chain), h, c) == Some(chain[i].contracts[c])
    ensures Replay(h, chain).code(c) == Some(chain[i].contracts[c])
  {
    NewestAnswer(chain, CodeRead(c), i);
    if i < |chain| - 1 { CodeOfNewestBlock(h, chain[..|chain| - 1], c, i); }
  }

  /** Code that no block has is the history's. */
  lemma {:induction false} CodeOfHistory(h: State, chain: seq<ExecutedBlock>, c: CodeHash)
    requires forall j :: 0 <= j < |chain| ==> c !in chain[j].contracts
    ensures BytecodeByHash(NewestFirst(chain), h, c) == h.code(c) == Replay(h, chain).code(c)
  {
    NoAnswer(chain, CodeRead(c));
    if chain != [] { CodeOfHistory(h, chain[..|chain| - 1], c); }
  }

  /** An account is as the newest block that mentions it left it, also when that is deleted. */
  lemma {:induction false} AccountOfNewestBlock(h: State, chain: seq<ExecutedBlock>, a: Address, i: nat)
    requires i < |chain| && a in chain[i].accounts && forall j :: i < j < |chain| ==> a !in chain[j].accounts
    ensures BasicAccount(NewestFirst(chain), h, a) == chain[i].accounts[a].info
    ensures Replay(h, chain).account(a) == chain[i].accounts[a].info
  {
    NewestAnswer(chain, AccountRead(a), i);
    if i < |chain| - 1 { AccountOfNewestBlock(h, chain[..|chain| - 1], a, i); }
  }

  lemma {:induction false} AccountOfHistory(h: State, chain: seq<ExecutedBlock>, a: Address)
    requires forall j :: 0 <= j < |chain| ==> a !in chain[j].accounts
    ensures BasicAccount(NewestFirst(chain), h, a) == h.account(a) == Replay(h, chain).account(a)
  {
    NoAnswer(chain, AccountRead(a));
    if chain != [] { AccountOfHistory(h, chain[..|chain| - 1], a); }
  }

  /** A slot is what the newest block that writes it wrote, unless a later block knows all of the
      account's storage; zero then, and the history's when no block says anything. */
  lemma {:induction false} SlotOfNewestBlock(h: State, chain: seq<ExecutedBlock>, a: Address, k: Slot, i: nat)
    requires i < |chain| && a in chain[i].accounts
    requires k in chain[i].accounts[a].storage || chain[i].accounts[a].storageKnown
    requires forall j :: i < j < |chain| && a in chain[j].accounts ==>
      k !in chain[j].accounts[a].storage && !chain[j].accounts[a].storageKnown
    ensures Storage(NewestFirst(chain), h, a, k) ==
      Some(if k in chain[i].accounts[a].storage then chain[i].accounts[a].storage[k] else 0)
  {
    NewestAnswer(chain, SlotRead(a, k), i);
  }

  lemma {:induction false} SlotOfHistory(h: State, chain: seq<ExecutedBlock>, a: Address, k: Slot)
    requires forall j :: 0 <= j < |chain| && a in chain[j].accounts ==>
      k !in chain[j].accounts[a].storage && !chain[j].accounts[a].storageKnown
    ensures Storage(NewestFirst(chain), h, a, k) == h.slot(a, k)
  {
    NoAnswer(chain, SlotRead(a, k));
  }

  /** On disk a slot is what the newest block that writes it wrote, a zero being deleted, and absent after
      a later self-destruct. */
  lemma {:induction false} DiskSlotOfNewestBlock(h: State, chain: seq<ExecutedBlock>, a: Address, k: Slot, i: nat)
    requires i < |chain| && a in chain[i].accounts
    requires k in chain[i].accounts[a].storage || chain[i].accounts[a].destroyed
    requires forall j :: i < j < |chain| && a in chain[j].accounts ==>
      k !in chain[j].accounts[a].storage && !chain[j].accounts[a].destroyed
    ensures var written := chain[i].accounts[a].storage;
            Replay(h, chain).slot(a, k) == if k in written && written[k] != 0 then Some(written[k]) else None
  {
    if i < |chain| - 1 { DiskSlotOfNewestBlock(h, chain[..|chain| - 1], a, k, i); }
  }

  lemma {:induction false} DiskSlotOfHistory(h: State, chain: seq<ExecutedBlock>, a: Address, k: Slot)
    requires forall j :: 0 <= j < |chain| && a in chain[j].accounts ==>
      k !in chain[j].accounts[a].storage && !chain[j].accounts[a].destroyed
    ensures Replay(h, chain).slot(a, k) == h.slot(a, k)
  {
    if chain != [] { DiskSlotOfHistory(h, chain[..|chain| - 1], a, k); }
  }
}
