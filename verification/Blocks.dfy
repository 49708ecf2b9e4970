/** Executed blocks, block hashes and the parent-linked block states built from them. */
module Blocks {
  import opened Wrappers

  type Address = nat
  type Account = nat
  type Slot = nat
  type Value = nat
  type CodeHash = nat
  type Bytecode = nat

  /** A header hash commits to the header's number, so a hash carries its height.
      `ZeroHash` is the parent hash of block 0 and names no block. */
  datatype Hash = ZeroHash | HashOf(height: nat, salt: nat)

  /** One account of a block's state changes.  `destroyed` and `storageKnown` are the two
      questions asked of the account status: did the account self-destruct in this block, and is
      its complete storage known (a slot not listed is zero). */
  datatype BundleAccount = BundleAccount(
    info: Option<Account>,
    originalInfo: Option<Account>,
    storage: map<Slot, Value>,
    destroyed: bool,
    storageKnown: bool)

  datatype ExecutedBlock = ExecutedBlock(
    hash: Hash,
    number: nat,
    parentHash: Hash,
    accounts: map<Address, BundleAccount>,
    contracts: map<CodeHash, Bytecode>)

  /** The block's own hash and its parent hash agree with its number. */
  predicate Sealed(b: ExecutedBlock) {
    && b.hash.HashOf? && b.hash.height == b.number
    && (if b.number == 0 then b.parentHash.ZeroHash?
        else b.parentHash.HashOf? && b.parentHash.height == b.number - 1)
  }

  /** Sealed blocks, oldest first, consecutively numbered, each the child of the one before it. */
  predicate Linked(chain: seq<ExecutedBlock>) {
    && (forall i :: 0 <= i < |chain| ==> Sealed(chain[i]) && chain[i].number == chain[0].number + i)
    && (forall i :: 0 < i < |chain| ==> ParentPrecedes(chain, i))
  }

  predicate ParentPrecedes(chain: seq<ExecutedBlock>, i: nat)
    requires 0 < i < |chain|
  {
    chain[i].parentHash == chain[i - 1].hash
  }

  predicate Extends(parent: ExecutedBlock, child: ExecutedBlock) {
    child.number == parent.number + 1 && child.parentHash == parent.hash
  }

  lemma {:induction false} LinkedPrefix(chain: seq<ExecutedBlock>, k: nat)
    requires Linked(chain) && k <= |chain|
    ensures Linked(chain[..k])
  {
    forall i | 0 < i < k ensures ParentPrecedes(chain[..k], i) {
      assert ParentPrecedes(chain, i);
    }
  }

  lemma {:induction false} LinkedSuffix(chain: seq<ExecutedBlock>, k: nat)
    requires Linked(chain) && k <= |chain|
    ensures Linked(chain[k..])
  {
    forall i | 0 < i < |chain| - k ensures ParentPrecedes(chain[k..], i) {
      assert ParentPrecedes(chain, k + i);
    }
  }

  lemma {:induction false} LinkedConcat(a: seq<ExecutedBlock>, b: seq<ExecutedBlock>)
    requires Linked(a) && Linked(b)
    requires a != [] && b != [] ==> Extends(a[|a| - 1], b[0])
    ensures Linked(a + b)
  {
    forall i | 0 < i < |a + b| ensures ParentPrecedes(a + b, i) {
      if i < |a| {
        assert ParentPrecedes(a, i);
      } else if i > |a| {
        assert ParentPrecedes(b, i - |a|);
      }
    }
  }

  /** A block together with the in-memory states it descends from. */
  datatype BlockState = BlockState(block: ExecutedBlock, parent: Option<BlockState>)

  /** The blocks from this state back to the oldest one in memory, newest first. */
  function ChainOf(s: BlockState): (r: seq<ExecutedBlock>)
    ensures |r| > 0 && r[0] == s.block
  {
    match s.parent
    case None => [s.block]
    case Some(p) => [s.block] + ChainOf(p)
  }

  function NewestFirst(chain: seq<ExecutedBlock>): (r: seq<ExecutedBlock>)
    ensures |r| == |chain|
    ensures forall i :: 0 <= i < |r| ==> r[i] == chain[|chain| - 1 - i]
  {
    if chain == [] then [] else [chain[|chain| - 1]] + NewestFirst(chain[..|chain| - 1])
  }

  /** The state that the newest block of an oldest-first chain must have. */
  function TipState(chain: seq<ExecutedBlock>): BlockState
    requires chain != []
  {
    var n := |chain| - 1;
    BlockState(chain[n], if n == 0 then None else Some(TipState(chain[..n])))
  }

  /** Walking the parent links of a state visits exactly the chain below it, newest first. */
  lemma {:induction false} ChainOfTipState(chain: seq<ExecutedBlock>)
    requires chain != []
    ensures ChainOf(TipState(chain)) == NewestFirst(chain)
  {
    var n := |chain| - 1;
    if n > 0 {
      ChainOfTipState(chain[..n]);
    } else {
      assert NewestFirst(chain[..0]) == [];
    }
  }

  /** The on-disk block a state can be traced back to, given by number and hash. */
  datatype NumHash = NumHash(number: int, hash: Hash)

  method Anchor(s: BlockState) returns (r: NumHash)
    ensures var c := ChainOf(s); var oldest := c[|c| - 1];
            r == NumHash(oldest.number - 1, oldest.parentHash)
  {
    var current := s;
    while current.parent.Some?
      invariant ChainOf(current)[|ChainOf(current)| - 1] == ChainOf(s)[|ChainOf(s)| - 1]
      decreases current
    {
      current := current.parent.value;
    }
    r := NumHash(current.block.number - 1, current.block.parentHash);
  }

  datatype HashOrNumber = ByHash(hash: Hash) | ByNumber(number: nat)

  predicate Matches(b: ExecutedBlock, key: HashOrNumber) {
    match key
    case ByHash(h) => b.hash == h
    case ByNumber(n) => b.number == n
  }

  /** First state on the chain ending at `s` with the requested hash or number. */
  function BlockOnChain(s: BlockState, key: HashOrNumber): Option<BlockState> {
    if Matches(s.block, key) then Some(s)
    else if s.parent.Some? then BlockOnChain(s.parent.value, key)
    else None
  }

  /** On a linked chain the search by number or hash finds precisely the matching block, and only
      among the blocks up to the one searched from. */
  lemma {:induction false} BlockOnChainFindsHeight(chain: seq<ExecutedBlock>, i: nat, key: HashOrNumber, k: nat)
    requires Linked(chain) && i < |chain| && k < |chain|
    requires key == ByHash(chain[k].hash) || key == ByNumber(chain[k].number)
    ensures BlockOnChain(TipState(chain[..i + 1]), key) == if k <= i then Some(TipState(chain[..k + 1])) else None
  {
    assert chain[..i + 1][..i] == chain[..i];
    if i > 0 && i != k {
      BlockOnChainFindsHeight(chain, i - 1, key, k);
    }
  }

  /** A hash or number of no block on the chain finds nothing. */
  lemma {:induction false} BlockOnChainFindsNothing(chain: seq<ExecutedBlock>, key: HashOrNumber)
    requires chain != []
    requires forall b :: b in chain ==> key != ByHash(b.hash) && key != ByNumber(b.number)
    ensures BlockOnChain(TipState(chain), key) == None
  {
    var n := |chain| - 1;
    assert chain[n] in chain;
    if n > 0 { BlockOnChainFindsNothing(chain[..n], key); }
  }
}
