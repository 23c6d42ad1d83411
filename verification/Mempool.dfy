/** The bounded pool of pending transactions. */
module Mempool {
  import opened Blocks
  import opened WorldState
  import opened Wrappers

  const MAX_TRANSACTION_POOL_SIZE: nat := 10_000

  type Pending = map<string, Transaction>

  /** Lexicographic order of identifiers. */
  predicate StringLess(a: string, b: string) {
    if b == [] then false
    else if a == [] then true
    else a[0] < b[0] || (a[0] == b[0] && StringLess(a[1..], b[1..]))
  }

  lemma {:induction false} StringLessIsTotal(a: string, b: string)
    ensures StringLess(a, b) || a == b || StringLess(b, a)
    ensures !(StringLess(a, b) && StringLess(b, a)) && !StringLess(a, a)
  {
    if a != [] && b != [] {
      StringLessIsTotal(a[1..], b[1..]);
      assert a == [a[0]] + a[1..] && b == [b[0]] + b[1..];
    }
    if a != [] {
      StringLessIsTotal(a[1..], a[1..]);
    }
  }

  lemma {:induction false} StringLessIsTransitive(a: string, b: string, d: string)
    requires StringLess(a, b) && StringLess(b, d)
    ensures StringLess(a, d)
  {
    if a != [] && a[0] == b[0] && b[0] == d[0] {
      StringLessIsTransitive(a[1..], b[1..], d[1..]);
    }
  }

  /** What lexicographic order is. */
  ghost predicate IsEarlier(a: string, b: string) {
    exists i :: 0 <= i <= |a| && i <= |b| && IsSplit(a, b, i)
  }

  /** The strings agree before place i, where the first one ends or has the smaller character. */
  ghost predicate IsSplit(a: string, b: string, i: nat)
    requires i <= |a| && i <= |b|
  {
    a[..i] == b[..i] && i < |b| && (i == |a| || a[i] < b[i])
  }

  lemma {:induction false} StringLessExactly(a: string, b: string)
    ensures StringLess(a, b) <==> IsEarlier(a, b)
  {
    if a != [] && b != [] {
      StringLessExactly(a[1..], b[1..]);
      if IsEarlier(a[1..], b[1..]) && a[0] == b[0] {
        var i :| 0 <= i <= |a[1..]| && i <= |b[1..]| && IsSplit(a[1..], b[1..], i);
        assert a[..i + 1] == [a[0]] + a[1..][..i] && b[..i + 1] == [b[0]] + b[1..][..i];
        assert IsSplit(a, b, i + 1);
      }
      if a[0] < b[0] {
        assert IsSplit(a, b, 0);
      }
      if IsEarlier(a, b) {
        var i :| 0 <= i <= |a| && i <= |b| && IsSplit(a, b, i);
        if i > 0 {
          assert a[0] == a[..i][0] == b[..i][0] == b[0];
          assert a[1..][..i - 1] == a[..i][1..] && b[1..][..i - 1] == b[..i][1..];
          assert IsSplit(a[1..], b[1..], i - 1);
        }
      }
    } else if b != [] {
      assert IsSplit(a, b, 0);
    }
  }

  /** The older of two transactions; equal timestamps are settled by the identifier. */
  predicate Precedes(a: Transaction, b: Transaction) {
    a.timestamp < b.timestamp || (a.timestamp == b.timestamp && StringLess(a.id, b.id))
  }

  lemma PrecedesExactly(a: Transaction, b: Transaction)
    ensures Precedes(a, b) <==> a.timestamp < b.timestamp || (a.timestamp == b.timestamp && IsEarlier(a.id, b.id))
  {
    StringLessExactly(a.id, b.id);
  }

  lemma PrecedesIsTotal(a: Transaction, b: Transaction)
    ensures Precedes(a, b) || a.id == b.id || Precedes(b, a)
    ensures !(Precedes(a, b) && Precedes(b, a)) && !Precedes(a, a)
  {
    StringLessIsTotal(a.id, b.id);
  }

  lemma PrecedesIsTransitive(a: Transaction, b: Transaction, d: Transaction)
    requires Precedes(a, b) && Precedes(b, d)
    ensures Precedes(a, d)
  {
    if a.timestamp == b.timestamp == d.timestamp {
      StringLessIsTransitive(a.id, b.id, d.id);
    }
  }

  /** Transactions are filed under their identifier. */
  ghost predicate IsKeyed(txs: Pending) {
    forall id :: id in txs ==> txs[id].id == id
  }

  ghost predicate IsOldest(txs: Pending, id: string) {
    id in txs && forall k :: k in txs && k != id ==> Precedes(txs[id], txs[k])
  }

  method Oldest(txs: Pending) returns (id: string)
    requires IsKeyed(txs) && txs != map[]
    ensures IsOldest(txs, id)
  {
    var todo := txs.Keys;
    id :| id in todo;
    todo := todo - {id};
    while todo != {}
      invariant todo <= txs.Keys && id in txs && id !in todo
      invariant forall k :: k in txs && k !in todo && k != id ==> Precedes(txs[id], txs[k])
      decreases todo
    {
      var k :| k in todo;
      todo := todo - {k};
      PrecedesIsTotal(txs[k], txs[id]);
      if Precedes(txs[k], txs[id]) {
        forall m | m in txs && m !in todo && m != k ensures Precedes(txs[k], txs[m]) {
          if m != id {
            PrecedesIsTransitive(txs[k], txs[id], txs[m]);
          }
        }
        id := k;
      }
    }
  }

  /** The queue holds every pending transaction once, the older before the younger. */
  ghost predicate IsQueueOf(q: seq<Transaction>, txs: Pending) {
    && |q| == |txs|
    && (forall i :: 0 <= i < |q| ==> q[i].id in txs && txs[q[i].id] == q[i])
    && (forall id :: id in txs ==> txs[id] in q)
    && (forall i, j {:trigger Precedes(q[i], q[j])} :: 0 <= i < j < |q| ==> Precedes(q[i], q[j]))
  }

  lemma FirstIsOldest(q: seq<Transaction>, txs: Pending)
    requires IsQueueOf(q, txs) && q != [] && IsKeyed(txs)
    ensures IsOldest(txs, q[0].id)
  {
    forall k | k in txs && k != q[0].id ensures Precedes(txs[q[0].id], txs[k]) {
      var j :| 0 <= j < |q| && q[j] == txs[k];
      assert txs[q[0].id] == q[0];
    }
  }

  lemma OldestIsUnique(txs: Pending, a: string, b: string)
    requires IsKeyed(txs) && IsOldest(txs, a) && IsOldest(txs, b)
    ensures a == b
  {
    PrecedesIsTotal(txs[a], txs[b]);
  }

  lemma RestOfQueue(q: seq<Transaction>, txs: Pending)
    requires IsQueueOf(q, txs) && q != [] && IsKeyed(txs)
    ensures IsQueueOf(q[1..], txs - {q[0].id})
  {
    var rest := txs - {q[0].id};
    assert rest.Keys == txs.Keys - {q[0].id};
    assert |rest| == |rest.Keys| && |txs| == |txs.Keys|;
    forall i | 0 <= i < |q[1..]| ensures q[1..][i].id in rest && rest[q[1..][i].id] == q[1..][i] {
      PrecedesIsTotal(q[0], q[i + 1]);
      assert Precedes(q[0], q[i + 1]);
    }
    forall id | id in rest ensures rest[id] in q[1..] {
      var j :| 0 <= j < |q| && q[j] == txs[id];
      assert j > 0 && q[1..][j - 1] == rest[id];
    }
  }

  lemma QueuesShareHead(q: seq<Transaction>, r: seq<Transaction>, txs: Pending)
    requires IsQueueOf(q, txs) && IsQueueOf(r, txs) && IsKeyed(txs) && q != []
    ensures r != [] && q[0] == r[0]
  {
    FirstIsOldest(q, txs);
    FirstIsOldest(r, txs);
    OldestIsUnique(txs, q[0].id, r[0].id);
  }

  /** There is one such queue. */
  lemma {:induction false} QueueIsUnique(q: seq<Transaction>, r: seq<Transaction>, txs: Pending)
    requires IsQueueOf(q, txs) && IsQueueOf(r, txs) && IsKeyed(txs)
    ensures q == r
    decreases |q|
  {
    if q != [] {
      QueuesShareHead(q, r, txs);
      RestOfQueue(q, txs);
      RestOfQueue(r, txs);
      QueueIsUnique(q[1..], r[1..], txs - {q[0].id});
      assert q == [q[0]] + q[1..] && r == [r[0]] + r[1..];
    }
  }

  ghost predicate IsPrefixQueue(q: seq<Transaction>, todo: Pending, txs: Pending) {
    && |q| + |todo| == |txs|
    && todo.Keys <= txs.Keys && (forall k :: k in todo ==> todo[k] == txs[k])
    && (forall i :: 0 <= i < |q| ==> q[i].id in txs && txs[q[i].id] == q[i])
    && (forall id :: id in txs && id !in todo ==> txs[id] in q)
    && (forall i, j {:trigger Precedes(q[i], q[j])} :: 0 <= i < j < |q| ==> Precedes(q[i], q[j]))
    && (forall i, k :: 0 <= i < |q| && k in todo ==> Precedes(q[i], todo[k]))
  }

  lemma QueueGrows(q: seq<Transaction>, todo: Pending, txs: Pending, id: string)
    requires IsKeyed(txs) && IsPrefixQueue(q, todo, txs) && IsOldest(todo, id)
    ensures IsPrefixQueue(q + [todo[id]], todo - {id}, txs)
  {
    var q', todo' := q + [todo[id]], todo - {id};
    assert todo'.Keys == todo.Keys - {id};
    assert |todo'| == |todo'.Keys| && |todo| == |todo.Keys|;
    forall k | k in txs && k !in todo' ensures txs[k] in q' {
      if k == id {
        assert q'[|q|] == txs[k];
      } else {
        var j :| 0 <= j < |q| && q[j] == txs[k];
        assert q'[j] == txs[k];
      }
    }
  }

  /** Sorting the pending transactions, by repeatedly taking the oldest. */
  method SortedQueue(txs: Pending) returns (q: seq<Transaction>)
    requires IsKeyed(txs)
    ensures IsQueueOf(q, txs)
  {
    q := [];
    var todo := txs;
    while todo != map[]
      invariant IsPrefixQueue(q, todo, txs)
      decreases |todo|
    {
      var id := Oldest(todo);
      QueueGrows(q, todo, txs, id);
      q := q + [todo[id]];
      todo := todo - {id};
    }
  }

  /** The pool after adding t: a full pool first gives up its oldest transaction. */
  ghost predicate IsAdded(txs: Pending, t: Transaction, txs': Pending) {
    if |txs| >= MAX_TRANSACTION_POOL_SIZE
    then exists id :: IsOldest(txs, id) && txs' == (txs - {id})[t.id := t]
    else txs' == txs[t.id := t]
  }

  predicate IsReplay(txs: Pending, t: Transaction) {
    exists id :: id in txs && txs[id].sender == t.sender && txs[id].nonce == t.nonce
  }

  predicate IsPending(txs: Pending, t: Transaction) {
    t.id in txs && txs[t.id] == t
  }

  class TransactionPool {
    var txs: Pending

    constructor ()
      ensures txs == map[]
    {
      txs := map[];
    }

    method AddTransaction(t: Transaction)
      requires IsKeyed(txs)
      modifies this
      ensures IsKeyed(txs) && IsAdded(old(txs), t, txs)
    {
      if |txs| >= MAX_TRANSACTION_POOL_SIZE {
        var id := Oldest(txs);
        txs := txs - {id};
      }
      txs := txs[t.id := t];
    }

    /** Empties the pool into its sorted queue. */
    method Flush() returns (q: seq<Transaction>)
      requires IsKeyed(txs)
      modifies this
      ensures txs == map[] && IsQueueOf(q, old(txs))
    {
      q := SortedQueue(txs);
      txs := map[];
    }
  }

  /* Admission */

  datatype PoolError =
    | Unsigned | AlreadyRecorded | AlreadyPending | CreationMismatch | CreationNonce | AlreadyCreated
    | NoAccount | NonceUsed | DuplicatePendingNonce

  predicate HasTransaction(blocks: BlockMap, t: Transaction) {
    exists h :: h in blocks && t in blocks[h].transactions
  }

  /** The checks on a submitted transaction, in their order; None means it is added. */
  function Admit(c: Crypto, blocks: BlockMap, accounts: map<string, Account>, txs: Pending, t: Transaction)
    : Option<PoolError>
  {
    if !c.signed(t) then Some(Unsigned)
    else if HasTransaction(blocks, t) then Some(AlreadyRecorded)
    else if IsPending(txs, t) then Some(AlreadyPending)
    else if t.record.CreateUserAccount? then
      if t.sender != t.record.publicKey then Some(CreationMismatch)
      else if t.nonce != 0 then Some(CreationNonce)
      else if t.record.publicKey in accounts then Some(AlreadyCreated)
      else None
    else if t.sender !in accounts then Some(NoAccount)
    else if t.nonce < accounts[t.sender].nonce then Some(NonceUsed)
    else if IsReplay(txs, t) then Some(DuplicatePendingNonce)
    else None
  }

  /** Exactly which transactions are admitted. */
  lemma AdmittedExactly(c: Crypto, blocks: BlockMap, accounts: map<string, Account>, txs: Pending, t: Transaction)
    ensures Admit(c, blocks, accounts, txs, t) == None <==>
              && c.signed(t)
              && (forall h :: h in blocks ==> t !in blocks[h].transactions)
              && !(t.id in txs && txs[t.id] == t)
              && if t.record.CreateUserAccount?
                 then t.record.publicKey == t.sender && t.nonce == 0 && t.sender !in accounts
                 else && t.sender in accounts && accounts[t.sender].nonce <= t.nonce
                      && forall id :: id in txs ==> txs[id].sender != t.sender || txs[id].nonce != t.nonce
  {
  }

  /** Exactly when each refusal comes out. */
  lemma RefusedExactly(c: Crypto, blocks: BlockMap, accounts: map<string, Account>, txs: Pending, t: Transaction)
    ensures var r, creates := Admit(c, blocks, accounts, txs, t), t.record.CreateUserAccount?;
            var known := exists h :: h in blocks && t in blocks[h].transactions;
            var isNew := c.signed(t) && !known && !(t.id in txs && txs[t.id] == t);
            var due := isNew && !creates && t.sender in accounts && accounts[t.sender].nonce <= t.nonce;
            && (r == Some(Unsigned) <==> !c.signed(t))
            && (r == Some(AlreadyRecorded) <==> c.signed(t) && known)
            && (r == Some(AlreadyPending) <==> c.signed(t) && !known && t.id in txs && txs[t.id] == t)
            && (r == Some(CreationMismatch) <==> isNew && creates && t.record.publicKey != t.sender)
            && (r == Some(CreationNonce) <==> isNew && creates && t.record.publicKey == t.sender && t.nonce != 0)
            && (r == Some(AlreadyCreated) <==>
                  isNew && creates && t.record.publicKey == t.sender && t.nonce == 0 && t.sender in accounts)
            && (r == Some(NoAccount) <==> isNew && !creates && t.sender !in accounts)
            && (r == Some(NonceUsed) <==>
                  isNew && !creates && t.sender in accounts && t.nonce < accounts[t.sender].nonce)
            && (r == Some(DuplicatePendingNonce) <==>
                  due && exists id :: id in txs && txs[id].sender == t.sender && txs[id].nonce == t.nonce)
  {
  }

  /** All pending transactions are signed, the pool is bounded, no two pending transactions share sender
      and nonce unless both create accounts, and every other one has an account to its sender. */
  ghost predicate PoolInv(c: Crypto, txs: Pending, accounts: map<string, Account>) {
    && IsKeyed(txs)
    && (forall id :: id in txs ==> c.signed(txs[id]))
    && |txs| <= MAX_TRANSACTION_POOL_SIZE
    && (forall i, j :: i in txs && j in txs && i != j && txs[i].sender == txs[j].sender && txs[i].nonce == txs[j].nonce
          ==> txs[i].record.CreateUserAccount? && txs[j].record.CreateUserAccount?)
    && (forall i :: i in txs && !txs[i].record.CreateUserAccount? ==> txs[i].sender in accounts)
  }

  lemma EmptyPoolInv(c: Crypto, accounts: map<string, Account>)
    ensures PoolInv(c, map[], accounts)
  {
  }

  lemma EvictionKeepsPoolInv(c: Crypto, txs: Pending, accounts: map<string, Account>, id: string)
    requires PoolInv(c, txs, accounts) && id in txs
    ensures PoolInv(c, txs - {id}, accounts) && |txs - {id}| == |txs| - 1
  {
    var kept := txs - {id};
    assert kept.Keys == txs.Keys - {id};
    assert |kept| == |kept.Keys| && |txs| == |txs.Keys|;
  }

  lemma InsertionSize(txs: Pending, t: Transaction)
    ensures |txs[t.id := t]| <= |txs| + 1
  {
    var txs' := txs[t.id := t];
    assert txs'.Keys == txs.Keys + {t.id};
    assert |txs'| == |txs'.Keys| && |txs| == |txs.Keys|;
  }

  lemma InsertionKeepsPoolInv(c: Crypto, txs: Pending, accounts: map<string, Account>, t: Transaction)
    requires PoolInv(c, txs, accounts) && |txs| < MAX_TRANSACTION_POOL_SIZE && c.signed(t)
    requires if t.record.CreateUserAccount? then t.sender !in accounts else t.sender in accounts && !IsReplay(txs, t)
    ensures PoolInv(c, txs[t.id := t], accounts)
  {
    var txs' := txs[t.id := t];
    InsertionSize(txs, t);
    forall i, j | i in txs' && j in txs' && i != j && txs'[i].sender == txs'[j].sender && txs'[i].nonce == txs'[j].nonce
      ensures txs'[i].record.CreateUserAccount? && txs'[j].record.CreateUserAccount?
    {
      if i == t.id {
        assert txs'[j] == txs[j];
      } else if j == t.id {
        assert txs'[i] == txs[i];
      }
    }
  }

  /** Admission keeps this, without any bound on nonces. */
  lemma AdmissionKeepsPoolInv(c: Crypto, blocks: BlockMap, accounts: map<string, Account>, txs: Pending,
                              t: Transaction, txs': Pending)
    requires PoolInv(c, txs, accounts) && Admit(c, blocks, accounts, txs, t) == None && IsAdded(txs, t, txs')
    ensures PoolInv(c, txs', accounts)
  {
    if |txs| >= MAX_TRANSACTION_POOL_SIZE {
      var id :| IsOldest(txs, id) && txs' == (txs - {id})[t.id := t];
      EvictionKeepsPoolInv(c, txs, accounts, id);
      InsertionKeepsPoolInv(c, txs - {id}, accounts, t);
    } else {
      InsertionKeepsPoolInv(c, txs, accounts, t);
    }
  }
}
