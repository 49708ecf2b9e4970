/** The hashed view of in-memory state used for trie roots and proofs, and its agreement with the
    plain view.  Hashing is injective, so a hashed key is named by its preimage. */
module HashedOverlay {
  import opened Wrappers
  import opened Blocks
  import opened StateOverlay

  datatype HashedStorage = HashedStorage(wiped: bool, storage: map<Slot, Value>)

  datatype HashedPostState = HashedPostState(
    accounts: map<Address, Option<Account>>,
    storages: map<Address, HashedStorage>)

  const EMPTY := HashedPostState(map[], map[])

  /** A wiped extension discards what was there; otherwise its entries take precedence. */
  function ExtendStorage(s: HashedStorage, t: HashedStorage): HashedStorage {
    if t.wiped then HashedStorage(true, t.storage) else HashedStorage(s.wiped, s.storage + t.storage)
  }

  function StorageOf(s: HashedPostState, a: Address): HashedStorage {
    if a in s.storages then s.storages[a] else HashedStorage(false, map[])
  }

  function Extend(s: HashedPostState, t: HashedPostState): HashedPostState {
    HashedPostState(
      s.accounts + t.accounts,
      map a | a in s.storages.Keys + t.storages.Keys ::
        if a in t.storages then ExtendStorage(StorageOf(s, a), t.storages[a]) else s.storages[a])
  }

  function SlotOf(s: HashedStorage, k: Slot): Option<Value> {
    if k in s.storage then Some(s.storage[k]) else if s.wiped then Some(0) else None
  }

  function SlotIn(s: HashedPostState, a: Address, k: Slot): Option<Value> {
    SlotOf(StorageOf(s, a), k)
  }

  function AccountIn(s: HashedPostState, a: Address): Option<Option<Account>> {
    if a in s.accounts then Some(s.accounts[a]) else None
  }

  /** Later entries win, key by key. */
  lemma {:induction false} ExtendLookup(s: HashedPostState, t: HashedPostState, a: Address, k: Slot)
    ensures SlotIn(Extend(s, t), a, k) == if SlotIn(t, a, k).Some? then SlotIn(t, a, k) else SlotIn(s, a, k)
    ensures AccountIn(Extend(s, t), a) == if AccountIn(t, a).Some? then AccountIn(t, a) else AccountIn(s, a)
  {
  }

  /** The aggregate of newest-first states, the newest applied last. */
  function Merged(inMemory: seq<HashedPostState>): HashedPostState {
    if inMemory == [] then EMPTY else Extend(Merged(inMemory[1..]), inMemory[0])
  }

  /** First answer found going from the newest state to the oldest. */
  function NewestSlot(inMemory: seq<HashedPostState>, a: Address, k: Slot): Option<Value> {
    if inMemory == [] then None
    else if SlotIn(inMemory[0], a, k).Some? then SlotIn(inMemory[0], a, k)
    else NewestSlot(inMemory[1..], a, k)
  }

  /** Aggregating oldest-to-newest answers exactly like searching newest-to-oldest. */
  lemma {:induction false} MergedReadsNewest(inMemory: seq<HashedPostState>, a: Address, k: Slot)
    ensures SlotIn(Merged(inMemory), a, k) == NewestSlot(inMemory, a, k)
  {
    if inMemory != [] {
      MergedReadsNewest(inMemory[1..], a, k);
      ExtendLookup(Merged(inMemory[1..]), inMemory[0], a, k);
    }
  }

  method TrieInput(inMemory: seq<HashedPostState>) returns (input: HashedPostState)
    ensures input == Merged(inMemory)
  {
    input := EMPTY;
    assert inMemory[|inMemory|..] == [];
    for i := |inMemory| downto 0
      invariant input == Merged(inMemory[i..])
    {
      assert inMemory[i..][1..] == inMemory[i + 1..];
      input := Extend(input, inMemory[i]);
    }
    assert inMemory[0..] == inMemory;
  }

  /** Caller-supplied storage laid over the aggregate for one account. */
  function MergedHashedStorage(inMemory: seq<HashedPostState>, a: Address, storage: HashedStorage): (r: HashedStorage)
    ensures forall k ::
              SlotOf(r, k) == if SlotOf(storage, k).Some? then SlotOf(storage, k) else SlotIn(Merged(inMemory), a, k)
  {
    ExtendStorage(StorageOf(Merged(inMemory), a), storage)
  }

  // ---- Hashing a bundle on top of its parents ----

  /** Storage an account had before this bundle has to be zeroed slot by slot. */
  predicate Zeroed(acc: BundleAccount) {
    acc.destroyed && acc.originalInfo.Some?
  }

  function Zeros(keys: set<Slot>): map<Slot, Value> {
    map k | k in keys :: 0
  }

  /** Slots to zero for `a`: those on disk, and those its in-memory parents mention. */
  function Stale(onDisk: set<Slot>, parents: Option<HashedStorage>, acc: BundleAccount): set<Slot> {
    if !Zeroed(acc) then {}
    else onDisk + (if parents.Some? then parents.value.storage.Keys else {})
  }

  /** The storage entry of one account: its own slots over zeros for the stale ones.  A destroyed
      account that its parents mention gets an entry even if nothing is in it. */
  function Entry(onDisk: set<Slot>, parents: Option<HashedStorage>, acc: BundleAccount): Option<HashedStorage> {
    var stale := Stale(onDisk, parents, acc);
    if acc.storage == map[] && stale == {} && !(Zeroed(acc) && parents.Some?) then None
    else Some(HashedStorage(false, Zeros(stale) + acc.storage))
  }

  function Parents(parent: HashedPostState, a: Address): Option<HashedStorage> {
    if a in parent.storages then Some(parent.storages[a]) else None
  }

  function Infos(bundle: map<Address, BundleAccount>): map<Address, Option<Account>> {
    map a | a in bundle :: bundle[a].info
  }

  function HashedWith(
    disk: Address -> map<Slot, Value>, parent: HashedPostState, bundle: map<Address, BundleAccount>): HashedPostState
  {
    HashedPostState(
      Infos(bundle),
      map a | a in bundle && Entry(disk(a).Keys, Parents(parent, a), bundle[a]).Some?
        :: Entry(disk(a).Keys, Parents(parent, a), bundle[a]).value)
  }

  /** What the disk provider answers: the bundle, plus a zero for every stored slot of a destroyed
      account that existed before. */
  function HistoricalHashed(disk: Address -> map<Slot, Value>, bundle: map<Address, BundleAccount>): HashedPostState {
    HashedWith(disk, EMPTY, bundle)
  }

  /** The hashed state of a bundle executed on top of the in-memory blocks `inMemory`. */
  function HashedOf(
    disk: Address -> map<Slot, Value>, inMemory: seq<HashedPostState>,
    bundle: map<Address, BundleAccount>): HashedPostState
  {
    HashedWith(disk, Merged(inMemory), bundle)
  }

  method HashedPostStateOf(
    disk: Address -> map<Slot, Value>, inMemory: seq<HashedPostState>, bundle: map<Address, BundleAccount>)
    returns (hashed: HashedPostState)
    ensures hashed == HashedOf(disk, inMemory, bundle)
  {
    hashed := HistoricalHashed(disk, bundle);
    var parent := TrieInput(inMemory);
    NothingVisited(disk, parent, bundle);
    var todo := bundle.Keys;
    while todo != {}
      invariant todo <= bundle.Keys
      invariant Visited(disk, parent, bundle, todo, hashed)
      decreases todo
    {
      var a :| a in todo;
      if Zeroed(bundle[a]) && a in parent.storages {
        var storage := FillZeros(StorageOf(hashed, a).storage, parent.storages[a].storage.Keys);
        VisitZeroed(disk, parent, bundle, todo, hashed, a);
        hashed := hashed.(storages := hashed.storages[a := HashedStorage(false, storage)]);
      } else {
        VisitOther(disk, parent, bundle, todo, hashed, a);
      }
      todo := todo - {a};
    }
    AllVisited(disk, parent, bundle, hashed);
  }

  /** Every account's entry takes its parents into account, except for those still to be visited. */
  ghost predicate Visited(
    disk: Address -> map<Slot, Value>, parent: HashedPostState, bundle: map<Address, BundleAccount>,
    todo: set<Address>, hashed: HashedPostState)
  {
    && hashed.accounts == Infos(bundle)
    && hashed.storages.Keys <= bundle.Keys
    && forall a :: a in bundle ==> HasEntry(disk, parent, bundle[a], a in todo, hashed, a)
  }

  predicate HasEntry(
    disk: Address -> map<Slot, Value>, parent: HashedPostState, acc: BundleAccount, pending: bool,
    hashed: HashedPostState, a: Address)
  {
    Parents(hashed, a) == Entry(disk(a).Keys, if pending then None else Parents(parent, a), acc)
  }

  lemma {:induction false} NothingVisited(
    disk: Address -> map<Slot, Value>, parent: HashedPostState, bundle: map<Address, BundleAccount>)
    ensures Visited(disk, parent, bundle, bundle.Keys, HistoricalHashed(disk, bundle))
  {
  }

  lemma {:induction false} VisitZeroed(
    disk: Address -> map<Slot, Value>, parent: HashedPostState, bundle: map<Address, BundleAccount>,
    todo: set<Address>, hashed: HashedPostState, a: Address)
    requires a in todo && todo <= bundle.Keys && Visited(disk, parent, bundle, todo, hashed)
    requires Zeroed(bundle[a]) && a in parent.storages
    ensures Visited(disk, parent, bundle, todo - {a}, hashed.(storages := hashed.storages[a :=
              HashedStorage(false, Zeros(parent.storages[a].storage.Keys) + StorageOf(hashed, a).storage)]))
  {
    assert HasEntry(disk, parent, bundle[a], true, hashed, a);
    FilledEntry(disk(a).Keys, parent.storages[a], bundle[a]);
    var entry := HashedStorage(false, Zeros(parent.storages[a].storage.Keys) + StorageOf(hashed, a).storage);
    var hashed' := hashed.(storages := hashed.storages[a := entry]);
    forall x | x in bundle ensures HasEntry(disk, parent, bundle[x], x in todo - {a}, hashed', x) {
      assert HasEntry(disk, parent, bundle[x], x in todo, hashed, x);
    }
  }

  lemma {:induction false} VisitOther(
    disk: Address -> map<Slot, Value>, parent: HashedPostState, bundle: map<Address, BundleAccount>,
    todo: set<Address>, hashed: HashedPostState, a: Address)
    requires a in todo && todo <= bundle.Keys && Visited(disk, parent, bundle, todo, hashed)
    requires !(Zeroed(bundle[a]) && a in parent.storages)
    ensures Visited(disk, parent, bundle, todo - {a}, hashed)
  {
    forall x | x in bundle ensures HasEntry(disk, parent, bundle[x], x in todo - {a}, hashed, x) {
      assert HasEntry(disk, parent, bundle[x], x in todo, hashed, x);
    }
  }

  lemma {:induction false} AllVisited(
    disk: Address -> map<Slot, Value>, parent: HashedPostState, bundle: map<Address, BundleAccount>,
    hashed: HashedPostState)
    requires Visited(disk, parent, bundle, {}, hashed)
    ensures hashed == HashedWith(disk, parent, bundle)
  {
    forall a ensures Parents(hashed, a) == Parents(HashedWith(disk, parent, bundle), a) {
      if a in bundle { assert HasEntry(disk, parent, bundle[a], false, hashed, a); }
    }
    SameStorages(hashed, HashedWith(disk, parent, bundle));
  }

  lemma {:induction false} SameStorages(s: HashedPostState, t: HashedPostState)
    requires forall a :: Parents(s, a) == Parents(t, a)
    ensures s.storages == t.storages
  {
    assert forall a :: a in s.storages <==> Parents(s, a).Some?;
    assert forall a :: a in t.storages <==> Parents(t, a).Some?;
  }

  lemma {:induction false} FilledEntry(onDisk: set<Slot>, parents: HashedStorage, acc: BundleAccount)
    requires Zeroed(acc)
    ensures Entry(onDisk, Some(parents), acc) ==
              Some(HashedStorage(false, Zeros(parents.storage.Keys) +
                (if Entry(onDisk, None, acc).Some? then Entry(onDisk, None, acc).value.storage else map[])))
  {
    assert Zeros(Stale(onDisk, Some(parents), acc)) + acc.storage
        == Zeros(parents.storage.Keys) + (Zeros(Stale(onDisk, None, acc)) + acc.storage);
    if Entry(onDisk, None, acc).None? {
      assert Zeros(Stale(onDisk, None, acc)) + acc.storage == map[];
    }
  }

  /** Inserts a zero under every key not present yet. */
  method FillZeros(storage: map<Slot, Value>, keys: set<Slot>) returns (r: map<Slot, Value>)
    ensures r == Zeros(keys) + storage
  {
    r := storage;
    var todo := keys;
    while todo != {}
      invariant todo <= keys
      invariant r == Zeros(keys - todo) + storage
      decreases todo
    {
      var k :| k in todo;
      todo := todo - {k};
      if k !in r { r := r[k := 0]; }
    }
  }

  // ---- Agreement of the hashed and the plain view ----

  function HashedValue(disk: Address -> map<Slot, Value>, inMemory: seq<HashedPostState>, a: Address, k: Slot): Value {
    SlotIn(Merged(inMemory), a, k).GetOr(if k in disk(a) then disk(a)[k] else 0)
  }

  /** Explicit zeroing means what a wipe means: after a block, a slot holds the block's own value,
      zero if the account was destroyed, or what it held before. */
  lemma {:induction false} HashedBlockValue(
    disk: Address -> map<Slot, Value>, inMemory: seq<HashedPostState>, b: ExecutedBlock, a: Address, k: Slot)
    requires a in b.accounts && b.accounts[a].destroyed && b.accounts[a].originalInfo.None? ==>
      HashedValue(disk, inMemory, a, k) == 0
    ensures HashedValue(disk, [HashedOf(disk, inMemory, b.accounts)] + inMemory, a, k) ==
              if a in b.accounts && k in b.accounts[a].storage then b.accounts[a].storage[k]
              else if a in b.accounts && b.accounts[a].destroyed then 0
              else HashedValue(disk, inMemory, a, k)
  {
    var hashed := HashedOf(disk, inMemory, b.accounts);
    assert ([hashed] + inMemory)[1..] == inMemory;
    ExtendLookup(Merged(inMemory), hashed, a, k);
    if a in b.accounts {
      HashedSlot(disk, Merged(inMemory), b.accounts, a, k);
    }
  }

  lemma {:induction false} HashedSlot(
    disk: Address -> map<Slot, Value>, parent: HashedPostState, bundle: map<Address, BundleAccount>, a: Address,
    k: Slot)
    requires a in bundle
    ensures SlotIn(HashedWith(disk, parent, bundle), a, k) ==
              if k in bundle[a].storage then Some(bundle[a].storage[k])
              else if k in Stale(disk(a).Keys, Parents(parent, a), bundle[a]) then Some(0)
              else None
  {
  }

  /** Hashed states of a chain, newest first, each computed on top of the ones below it. */
  function HashedChain(disk: Address -> map<Slot, Value>, chain: seq<ExecutedBlock>): seq<HashedPostState> {
    if chain == [] then []
    else
      var below := HashedChain(disk, chain[..|chain| - 1]);
      [HashedOf(disk, below, chain[|chain| - 1].accounts)] + below
  }

  ghost predicate SameDisk(disk: Address -> map<Slot, Value>, base: State) {
    forall a, k :: base.slot(a, k) == if k in disk(a) then Some(disk(a)[k]) else None
  }

  /** A destroyed account that did not exist before the block had no storage to clear. */
  ghost predicate CreatedEmpty(base: State, chain: seq<ExecutedBlock>) {
    chain == [] ||
      (var init, b := chain[..|chain| - 1], chain[|chain| - 1];
       && CreatedEmpty(base, init)
       && forall a :: a in b.accounts && b.accounts[a].destroyed && b.accounts[a].originalInfo.None?
                      ==> HasNoStorage(Replay(base, init), a))
  }

  /** The two views of the same chain agree: every slot value and account read through the
      aggregated hashed overlay is the plain replayed one. */
  lemma {:induction false} HashedViewIsPlainView(
    disk: Address -> map<Slot, Value>, base: State, chain: seq<ExecutedBlock>, a: Address, k: Slot)
    requires SameDisk(disk, base) && Executed(base, chain) && CreatedEmpty(base, chain)
    ensures HashedValue(disk, HashedChain(disk, chain), a, k) == SlotValue(Replay(base, chain), a, k)
    ensures AccountIn(Merged(HashedChain(disk, chain)), a).GetOr(base.account(a)) == Replay(base, chain).account(a)
  {
    if chain != [] {
      var init, b := chain[..|chain| - 1], chain[|chain| - 1];
      var below := HashedChain(disk, init);
      HashedViewIsPlainView(disk, base, init, a, k);
      HashedBlockValue(disk, below, b, a, k);
      PersistSlotValue(Replay(base, init), b, a, k);
      var hashed := HashedOf(disk, below, b.accounts);
      assert ([hashed] + below)[1..] == below;
      ExtendLookup(Merged(below), hashed, a, k);
    }
  }
}
