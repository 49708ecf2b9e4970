/** A read cache in front of a database that may fail on any read. */
module CachedReads {
  import opened Wrappers

  /** What the state holds; an account that does not exist has no info. */
  datatype Truth = Truth(basic: nat -> Option<nat>, code: nat -> nat, storage: (nat, nat) -> nat, blockHash: nat -> nat)

  /** One moment's database: each read may fail. */
  datatype Database = Database(
    basic: nat -> Result<Option<nat>>, code: nat -> Result<nat>, storage: (nat, nat) -> Result<nat>,
    blockHash: nat -> Result<nat>)

  /** Every read that succeeds gives the state's value. */
  ghost predicate Reads(db: Database, truth: Truth) {
    && (forall a :: db.basic(a).Ok? ==> db.basic(a).value == truth.basic(a))
    && (forall h :: db.code(h).Ok? ==> db.code(h).value == truth.code(h))
    && (forall a, i :: db.storage(a, i).Ok? ==> db.storage(a, i).value == truth.storage(a, i))
    && (forall n :: db.blockHash(n).Ok? ==> db.blockHash(n).value == truth.blockHash(n))
  }

  datatype CachedAccount = CachedAccount(info: Option<nat>, storage: map<nat, nat>)

  datatype Contents = Contents(accounts: map<nat, CachedAccount>, contracts: map<nat, nat>, blockHashes: map<nat, nat>)

  predicate AccountAgrees(account: CachedAccount, truth: Truth, a: nat) {
    account.info == truth.basic(a) && forall i :: i in account.storage ==> account.storage[i] == truth.storage(a, i)
  }

  /** Everything cached is what the state holds. */
  predicate Agrees(c: Contents, truth: Truth) {
    && (forall a :: a in c.accounts ==> AccountAgrees(c.accounts[a], truth, a))
    && (forall h :: h in c.contracts ==> c.contracts[h] == truth.code(h))
    && (forall n :: n in c.blockHashes ==> c.blockHashes[n] == truth.blockHash(n))
  }

  /** The entries of both, those of `other` winning. */
  function Merged(c: Contents, other: Contents): Contents {
    Contents(c.accounts + other.accounts, c.contracts + other.contracts, c.blockHashes + other.blockHashes)
  }

  ghost predicate AbsentIsEmpty(truth: Truth) {
    forall a, i :: truth.basic(a) == None ==> truth.storage(a, i) == 0
  }

  class CachedReads {
    var accounts: map<nat, CachedAccount>
    var contracts: map<nat, nat>
    var blockHashes: map<nat, nat>

    constructor ()
      ensures Held() == Contents(map[], map[], map[])
    {
      accounts, contracts, blockHashes := map[], map[], map[];
    }

    function Held(): Contents
      reads this
    {
      Contents(accounts, contracts, blockHashes)
    }

    /** A hit needs no database; a miss is remembered; a failure leaves the cache as it was. */
    method Basic(db: Database, a: nat, ghost truth: Truth) returns (r: Result<Option<nat>>)
      requires Agrees(Held(), truth) && Reads(db, truth)
      modifies this
      ensures Agrees(Held(), truth) && Keeps(old(Held()), Held())
      ensures r.Ok? ==> r.value == truth.basic(a) && a in accounts
      ensures r.Err? ==> Held() == old(Held())
      ensures r.Err? <==> a !in old(accounts) && db.basic(a).Err?
      ensures a in old(accounts) ==> r.Ok? && Held() == old(Held())
    {
      if a in accounts { return Ok(accounts[a].info); }
      var info := db.basic(a);
      if info.Err? { return Err; }
      accounts := accounts[a := CachedAccount(info.value, map[])];
      r := Ok(info.value);
    }

    method CodeByHash(db: Database, h: nat, ghost truth: Truth) returns (r: Result<nat>)
      requires Agrees(Held(), truth) && Reads(db, truth)
      modifies this
      ensures Agrees(Held(), truth) && Keeps(old(Held()), Held())
      ensures r.Ok? ==> r.value == truth.code(h) && h in contracts
      ensures r.Err? ==> Held() == old(Held())
      ensures r.Err? <==> h !in old(contracts) && db.code(h).Err?
      ensures h in old(contracts) ==> r.Ok? && Held() == old(Held())
    {
      if h in contracts { return Ok(contracts[h]); }
      var code := db.code(h);
      if code.Err? { return Err; }
      contracts := contracts[h := code.value];
      r := code;
    }

    /** The slot's value, except that an account looked up for the first time and found absent is
        answered with zero, its storage unread. */
    method Storage(db: Database, a: nat, i: nat, ghost truth: Truth) returns (r: Result<nat>)
      requires Agrees(Held(), truth) && Reads(db, truth)
      modifies this
      ensures Agrees(Held(), truth) && Keeps(old(Held()), Held())
      ensures r.Ok? ==> r.value == if a !in old(accounts) && truth.basic(a) == None then 0 else truth.storage(a, i)
      ensures r.Ok? ==> a in accounts && (i in accounts[a].storage <==> a in old(accounts) || truth.basic(a).Some?)
      ensures a in old(accounts) && i in old(accounts)[a].storage ==> r.Ok? && Held() == old(Held())
      ensures r.Err? ==> Held() == old(Held())
      ensures r.Err? <==>
        if a in old(accounts) then i !in old(accounts)[a].storage && db.storage(a, i).Err?
        else db.basic(a).Err? || (db.basic(a).value.Some? && db.storage(a, i).Err?)
    {
      if a in accounts {
        if i in accounts[a].storage { return Ok(accounts[a].storage[i]); }
        var value := db.storage(a, i);
        if value.Err? { return Err; }
        accounts := accounts[a := accounts[a].(storage := accounts[a].storage[i := value.value])];
        return value;
      }
      var info := db.basic(a);
      if info.Err? { return Err; }
      var account, value := CachedAccount(info.value, map[]), 0;
      if info.value.Some? {
        var slot := db.storage(a, i);
        if slot.Err? { return Err; }
        account, value := account.(storage := map[i := slot.value]), slot.value;
      }
      accounts := accounts[a := account];
      r := Ok(value);
    }

    method BlockHash(db: Database, n: nat, ghost truth: Truth) returns (r: Result<nat>)
      requires Agrees(Held(), truth) && Reads(db, truth)
      modifies this
      ensures Agrees(Held(), truth) && Keeps(old(Held()), Held())
      ensures r.Ok? ==> r.value == truth.blockHash(n) && n in blockHashes
      ensures r.Err? ==> Held() == old(Held())
      ensures r.Err? <==> n !in old(blockHashes) && db.blockHash(n).Err?
      ensures n in old(blockHashes) ==> r.Ok? && Held() == old(Held())
    {
      if n in blockHashes { return Ok(blockHashes[n]); }
      var hash := db.blockHash(n);
      if hash.Err? { return Err; }
      blockHashes := blockHashes[n := hash.value];
      r := hash;
    }

    /** The other cache's account replaces this one's, cached slots and all. */
    method Extend(other: Contents)
      modifies this
      ensures Held() == Merged(old(Held()), other)
      ensures forall a :: a in accounts <==> a in old(accounts) || a in other.accounts
      ensures forall a :: a in accounts ==>
        accounts[a] == if a in other.accounts then other.accounts[a] else old(accounts)[a]
      ensures forall h :: h in contracts <==> h in old(contracts) || h in other.contracts
      ensures forall h :: h in contracts ==>
        contracts[h] == if h in other.contracts then other.contracts[h] else old(contracts)[h]
      ensures forall n :: n in blockHashes <==> n in old(blockHashes) || n in other.blockHashes
      ensures forall n :: n in blockHashes ==>
        blockHashes[n] == if n in other.blockHashes then other.blockHashes[n] else old(blockHashes)[n]
    {
      accounts := accounts + other.accounts;
      contracts := contracts + other.contracts;
      blockHashes := blockHashes + other.blockHashes;
    }

    method InsertAccount(a: nat, info: nat, storage: map<nat, nat>)
      modifies this
      ensures Held() == old(Held()).(accounts := old(accounts)[a := CachedAccount(Some(info), storage)])
    {
      accounts := accounts[a := CachedAccount(Some(info), storage)];
    }
  }

  lemma {:induction false} ExtendAgrees(c: Contents, other: Contents, truth: Truth)
    requires Agrees(c, truth) && Agrees(other, truth)
    ensures Agrees(Merged(c, other), truth)
  {
    var merged := c.accounts + other.accounts;
    forall a | a in merged ensures AccountAgrees(merged[a], truth, a) {
      assert merged[a] == if a in other.accounts then other.accounts[a] else c.accounts[a];
    }
  }

  // ---- Whole runs ----

  datatype Op =
    | Basic(a: nat)
    | Code(h: nat)
    | Slot(a: nat, i: nat)
    | BlockHash(n: nat)
    | Extend(other: Contents)
    | InsertAccount(a: nat, info: nat, storage: map<nat, nat>)

  datatype Answer = Account(account: Result<Option<nat>>) | Word(word: Result<nat>) | Done

  /** Caches merged in, and accounts put in, must be of the same state. */
  predicate SameState(op: Op, truth: Truth) {
    match op
    case Extend(other) => Agrees(other, truth)
    case InsertAccount(a, info, storage) => AccountAgrees(CachedAccount(Some(info), storage), truth, a)
    case _ => true
  }

  /** The read needs the database, which fails it: the key is not cached. */
  predicate Fails(held: Contents, db: Database, op: Op) {
    match op
    case Basic(a) => a !in held.accounts && db.basic(a).Err?
    case Code(h) => h !in held.contracts && db.code(h).Err?
    case Slot(a, i) =>
      if a in held.accounts then i !in held.accounts[a].storage && db.storage(a, i).Err?
      else db.basic(a).Err? || (db.basic(a).value.Some? && db.storage(a, i).Err?)
    case BlockHash(n) => n !in held.blockHashes && db.blockHash(n).Err?
    case _ => false
  }

  /** What the state holds, or a failure exactly when the database fails a read the cache needs. */
  predicate Right(truth: Truth, held: Contents, db: Database, op: Op, answer: Answer) {
    match op
    case Basic(a) => answer == Account(if Fails(held, db, op) then Err else Ok(truth.basic(a)))
    case Code(h) => answer == Word(if Fails(held, db, op) then Err else Ok(truth.code(h)))
    case Slot(a, i) => answer == Word(if Fails(held, db, op) then Err else Ok(truth.storage(a, i)))
    case BlockHash(n) => answer == Word(if Fails(held, db, op) then Err else Ok(truth.blockHash(n)))
    case _ => answer == Done
  }

  /** An account, code or block hash that is cached, and so can be read without the database. */
  predicate Cached(held: Contents, op: Op) {
    match op
    case Basic(a) => a in held.accounts
    case Code(h) => h in held.contracts
    case BlockHash(n) => n in held.blockHashes
    case _ => false
  }

  predicate Succeeded(answer: Answer) {
    match answer
    case Account(r) => r.Ok?
    case Word(r) => r.Ok?
    case Done => false
  }

  predicate Keeps(before: Contents, after: Contents) {
    && before.accounts.Keys <= after.accounts.Keys
    && before.contracts.Keys <= after.contracts.Keys
    && before.blockHashes.Keys <= after.blockHashes.Keys
  }

  method Perform(c: CachedReads, op: Op, db: Database, ghost truth: Truth) returns (answer: Answer)
    requires Agrees(c.Held(), truth) && Reads(db, truth) && AbsentIsEmpty(truth) && SameState(op, truth)
    modifies c
    ensures Agrees(c.Held(), truth) && Right(truth, old(c.Held()), db, op, answer)
    ensures Remembers(old(c.Held()), op, answer, c.Held())
  {
    match op {
      case Basic(a) => var r := c.Basic(db, a, truth); answer := Account(r);
      case Code(h) => var r := c.CodeByHash(db, h, truth); answer := Word(r);
      case Slot(a, i) => var r := c.Storage(db, a, i, truth); answer := Word(r);
      case BlockHash(n) => var r := c.BlockHash(db, n, truth); answer := Word(r);
      case Extend(other) =>
        ExtendAgrees(c.Held(), other, truth);
        c.Extend(other);
        answer := Done;
      case InsertAccount(a, info, storage) =>
        c.InsertAccount(a, info, storage);
        answer := Done;
    }
  }

  /** The step from one state of the cache to the next keeps what is cached and adds what was read. */
  predicate Remembers(before: Contents, op: Op, answer: Answer, after: Contents) {
    Keeps(before, after) && (Succeeded(answer) && !op.Slot? ==> Cached(after, op))
  }

  /** The answers to `ops` are right at every step, the cache being `held[k]` before operation `k` and
      `held[k + 1]` after it. */
  predicate Answers(truth: Truth, ops: seq<Op>, dbs: seq<Database>, answers: seq<Answer>, held: seq<Contents>) {
    && |dbs| == |answers| == |ops| && |held| == |ops| + 1
    && (ops == [] || (
          var n := |ops| - 1;
          && Answers(truth, ops[..n], dbs[..n], answers[..n], held[..n + 1])
          && Right(truth, held[n], dbs[n], ops[n], answers[n])
          && Remembers(held[n], ops[n], answers[n], held[n + 1])))
  }

  lemma {:induction false} AnswersAt(
    truth: Truth, ops: seq<Op>, dbs: seq<Database>, answers: seq<Answer>, held: seq<Contents>, k: nat)
    requires Answers(truth, ops, dbs, answers, held) && k < |ops|
    ensures Right(truth, held[k], dbs[k], ops[k], answers[k]) && Remembers(held[k], ops[k], answers[k], held[k + 1])
    decreases |ops|
  {
    var n := |ops| - 1;
    if k < n { AnswersAt(truth, ops[..n], dbs[..n], answers[..n], held[..n + 1], k); }
  }

  lemma {:induction false} AnswersNext(
    truth: Truth, ops: seq<Op>, dbs: seq<Database>, answers: seq<Answer>, held: seq<Contents>,
    answer: Answer, after: Contents)
    requires var i := |answers|;
             && i < |ops| == |dbs| && Answers(truth, ops[..i], dbs[..i], answers, held)
             && Right(truth, held[i], dbs[i], ops[i], answer) && Remembers(held[i], ops[i], answer, after)
    ensures var i := |answers|; Answers(truth, ops[..i + 1], dbs[..i + 1], answers + [answer], held + [after])
  {
    var i := |answers|;
    assert ops[..i + 1][..i] == ops[..i] && dbs[..i + 1][..i] == dbs[..i];
    assert (answers + [answer])[..i] == answers && (held + [after])[..i + 1] == held;
  }

  /** Any sequence of reads, merges and failures answers as the database would, if absent accounts have
      no storage: with the state, and with a failure exactly where the key is not cached and the database
      fails. */
  method Run(c: CachedReads, ops: seq<Op>, dbs: seq<Database>, ghost truth: Truth)
    returns (answers: seq<Answer>, held: seq<Contents>)
    requires |dbs| == |ops| && Agrees(c.Held(), truth) && AbsentIsEmpty(truth)
    requires forall k :: 0 <= k < |ops| ==> Reads(dbs[k], truth) && SameState(ops[k], truth)
    modifies c
    ensures Agrees(c.Held(), truth)
    ensures Answers(truth, ops, dbs, answers, held) && held[0] == old(c.Held()) && held[|ops|] == c.Held()
  {
    answers, held := [], [c.Held()];
    for i := 0 to |ops|
      invariant Agrees(c.Held(), truth) && Answers(truth, ops[..i], dbs[..i], answers, held)
      invariant held[0] == old(c.Held()) && held[i] == c.Held()
    {
      var answer := Perform(c, ops[i], dbs[i], truth);
      AnswersNext(truth, ops, dbs, answers, held, answer, c.Held());
      answers, held := answers + [answer], held + [c.Held()];
    }
    assert ops[..|ops|] == ops && dbs[..|ops|] == dbs;
  }

  /** In such a run an account, a code or a block hash once read is never refused again. */
  lemma {:induction false} OnceReadNeverRefused(
    truth: Truth, ops: seq<Op>, dbs: seq<Database>, answers: seq<Answer>, held: seq<Contents>, j: nat, k: nat)
    requires Answers(truth, ops, dbs, answers, held)
    requires j < k < |ops| && ops[j] == ops[k] && !ops[j].Slot? && Succeeded(answers[j])
    ensures answers[k] == answers[j]
  {
    AnswersAt(truth, ops, dbs, answers, held, j);
    AnswersAt(truth, ops, dbs, answers, held, k);
    StaysCached(truth, ops, dbs, answers, held, ops[j], j + 1, k);
  }

  lemma {:induction false} StaysCached(
    truth: Truth, ops: seq<Op>, dbs: seq<Database>, answers: seq<Answer>, held: seq<Contents>, op: Op, i: nat, k: nat)
    requires Answers(truth, ops, dbs, answers, held) && i <= k <= |ops| && Cached(held[i], op)
    ensures Cached(held[k], op)
    decreases k
  {
    if i < k {
      StaysCached(truth, ops, dbs, answers, held, op, i, k - 1);
      AnswersAt(truth, ops, dbs, answers, held, k - 1);
    }
  }

  /** Otherwise some slot is answered wrongly: first with zero, and rightly once the account is cached. */
  method AbsentStorageChanges(
    db: Database, truth: Truth, a: nat, i: nat)
    returns (first: Result<nat>, second: Result<nat>)
    requires Reads(db, truth) && db.basic(a).Ok? && db.storage(a, i).Ok?
    ensures first == Ok(truth.storage(a, i)) <==> !(truth.basic(a) == None && truth.storage(a, i) != 0)
    ensures second == Ok(truth.storage(a, i))
  {
    var c := new CachedReads();
    first := c.Storage(db, a, i, truth);
    second := c.Storage(db, a, i, truth);
  }
}
