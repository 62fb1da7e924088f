/**
 * The transaction pool of src/TransactionPool.js: the module-level list of
 * transactions waiting to be mined, the first-seen-wins guard against two pool
 * transactions spending one output, and the revalidation that drops the
 * transactions whose inputs are no longer unspent.
 */
module Pool {
  import opened Basics
  import opened Crypto
  import opened Transactions

  /** Some input of `tx` spends an outpoint that some input of the pool already spends. */
  predicate ConflictsWithPool(tx: Transaction, pool: seq<Transaction>)
  {
    exists k :: 0 <= k < |tx.txIns| && InPoint(tx.txIns[k]) in OutPoints(AllTxIns(pool))
  }

  predicate NoSharedInput(a: Transaction, b: Transaction)
  {
    forall i, j :: 0 <= i < |a.txIns| && 0 <= j < |b.txIns| ==> InPoint(a.txIns[i]) != InPoint(b.txIns[j])
  }

  /** Distinct pool entries never spend the same outpoint. */
  predicate InputsDisjoint(pool: seq<Transaction>)
  {
    forall i, j :: 0 <= i < j < |pool| ==> NoSharedInput(pool[i], pool[j])
  }

  /** Every input of the transaction names an entry of the unspent list. */
  predicate HasAllInputs(tx: Transaction, unspentTxOuts: seq<UnspentTxOut>)
  {
    forall k :: 0 <= k < |tx.txIns| ==>
      FindUnspentTxOut(tx.txIns[k].txOutTransactionId, tx.txIns[k].txOutIndex, unspentTxOuts).Some?
  }

  function StillSpendable(unspentTxOuts: seq<UnspentTxOut>): Transaction -> bool
  {
    (tx: Transaction) => HasAllInputs(tx, unspentTxOuts)
  }

  /** _.find over the pool inputs: the first one spending the same outpoint as `txIn`. */
  function ContainsTxIn(txPoolIns: seq<TxIn>, txIn: TxIn): (r: Option<TxIn>)
    ensures r.Some? <==> InPoint(txIn) in OutPoints(txPoolIns)
    ensures r.Some? ==> r.value in txPoolIns && InPoint(r.value) == InPoint(txIn)
  {
    if txPoolIns == [] then None
    else if txIn.txOutIndex == txPoolIns[0].txOutIndex && txIn.txOutTransactionId == txPoolIns[0].txOutTransactionId
    then assert OutPoints(txPoolIns)[0] == InPoint(txIn); Some(txPoolIns[0])
    else
      var r := ContainsTxIn(txPoolIns[1..], txIn);
      assert OutPoints(txPoolIns) == [InPoint(txPoolIns[0])] + OutPoints(txPoolIns[1..]);
      r
  }

  /** A conflict with the pool is a shared input with one of its entries. */
  lemma ConflictIffSharedInput(tx: Transaction, pool: seq<Transaction>)
    ensures ConflictsWithPool(tx, pool) <==> exists m :: 0 <= m < |pool| && !NoSharedInput(tx, pool[m])
  {
    if ConflictsWithPool(tx, pool) {
      var k :| 0 <= k < |tx.txIns| && InPoint(tx.txIns[k]) in OutPoints(AllTxIns(pool));
      var ins := AllTxIns(pool);
      var j :| 0 <= j < |ins| && OutPoints(ins)[j] == InPoint(tx.txIns[k]);
      assert ins[j] in ins;
      var t :| t in pool && ins[j] in t.txIns;
      var m :| 0 <= m < |pool| && pool[m] == t;
      var i :| 0 <= i < |t.txIns| && t.txIns[i] == ins[j];
      assert !NoSharedInput(tx, pool[m]);
    }
    if exists m :: 0 <= m < |pool| && !NoSharedInput(tx, pool[m]) {
      var m :| 0 <= m < |pool| && !NoSharedInput(tx, pool[m]);
      var i, j :| 0 <= i < |tx.txIns| && 0 <= j < |pool[m].txIns| && InPoint(tx.txIns[i]) == InPoint(pool[m].txIns[j]);
      var ins := AllTxIns(pool);
      assert pool[m].txIns[j] in ins;
      var q :| 0 <= q < |ins| && ins[q] == pool[m].txIns[j];
      assert OutPoints(ins)[q] == InPoint(tx.txIns[i]);
    }
  }

  lemma DisjointTail(pool: seq<Transaction>)
    requires |pool| > 0 && InputsDisjoint(pool)
    ensures InputsDisjoint(pool[1..])
    ensures forall y :: y in pool[1..] ==> NoSharedInput(pool[0], y)
  {
    var rest := pool[1..];
    forall i, j | 0 <= i < j < |rest|
      ensures NoSharedInput(rest[i], rest[j])
    {
      assert rest[i] == pool[i + 1] && rest[j] == pool[j + 1];
    }
    forall y | y in rest
      ensures NoSharedInput(pool[0], y)
    {
      var m :| 0 <= m < |rest| && rest[m] == y;
      assert pool[m + 1] == y;
    }
  }

  lemma DisjointCons(x: Transaction, r: seq<Transaction>)
    requires InputsDisjoint(r) && forall y :: y in r ==> NoSharedInput(x, y)
    ensures InputsDisjoint([x] + r)
  {
    var s := [x] + r;
    forall i, j | 0 <= i < j < |s|
      ensures NoSharedInput(s[i], s[j])
    {
      assert s[j] == r[j - 1];
      if i > 0 {
        assert s[i] == r[i - 1];
      }
    }
  }

  /** Filtering keeps the entries pairwise disjoint. */
  lemma {:induction false} FilterKeepsInputsDisjoint(pool: seq<Transaction>, p: Transaction -> bool)
    requires InputsDisjoint(pool)
    ensures InputsDisjoint(Filter(pool, p))
  {
    if pool != [] {
      DisjointTail(pool);
      FilterKeepsInputsDisjoint(pool[1..], p);
      if p(pool[0]) {
        var fr := Filter(pool[1..], p);
        forall y | y in fr
          ensures NoSharedInput(pool[0], y)
        {
          FilterMembership(pool[1..], p, y);
        }
        DisjointCons(pool[0], fr);
      }
    }
  }

  /** _.without: the entries of `s` equal to none of `removed`. */
  function Without<T(==)>(s: seq<T>, removed: seq<T>): seq<T>
  {
    Filter(s, (x: T) => x !in removed)
  }

  class TransactionPool {
    var transactionPool: seq<Transaction>

    predicate Valid()
      reads this
    {
      InputsDisjoint(transactionPool)
    }

    constructor()
      ensures transactionPool == [] && Valid()
    {
      transactionPool := [];
    }

    /** A copy of the pool; the pool itself is not changed. */
    method GetTransactionPool() returns (r: seq<Transaction>)
      ensures r == transactionPool
    {
      r := transactionPool;
    }

    /** The loop over the inputs of `transaction`, returning at the first one already in the pool. */
    method IsValidTxForPool(transaction: Transaction) returns (ok: bool)
      ensures ok <==> !ConflictsWithPool(transaction, transactionPool)
    {
      var txPoolIns := AllTxIns(transactionPool);
      for k := 0 to |transaction.txIns|
        invariant forall m :: 0 <= m < k ==> InPoint(transaction.txIns[m]) !in OutPoints(txPoolIns)
      {
        if ContainsTxIn(txPoolIns, transaction.txIns[k]).Some? {
          return false;
        }
      }
      return true;
    }

    /**
     * Adds a transaction that validates against the unspent list and spends no
     * outpoint the pool already spends; `ok` is false where the source throws,
     * and then the pool is unchanged.
     */
    method AddTransactionToPool(c: Crypto, transaction: Transaction, unspentTxOuts: seq<UnspentTxOut>) returns (ok: bool)
      requires Valid()
      modifies this
      ensures ok <==> ValidateTransaction(c, transaction, unspentTxOuts) && !ConflictsWithPool(transaction, old(transactionPool))
      ensures ok ==> transactionPool == old(transactionPool) + [transaction]
      ensures !ok ==> transactionPool == old(transactionPool)
      ensures Valid()
    {
      if !ValidateTransaction(c, transaction, unspentTxOuts) {
        return false;
      }
      ok := IsValidTxForPool(transaction);
      if !ok {
        return false;
      }
      ConflictIffSharedInput(transaction, transactionPool);
      var pool := transactionPool + [transaction];
      forall i, j | 0 <= i < j < |pool|
        ensures NoSharedInput(pool[i], pool[j])
      {
        if j == |pool| - 1 {
          assert !(!NoSharedInput(transaction, transactionPool[i]));
        } else {
          assert pool[i] == transactionPool[i] && pool[j] == transactionPool[j];
        }
      }
      transactionPool := pool;
    }

    /**
     * The nested loops collecting the transactions with an input missing from
     * the unspent list, then `_.without` of those: the survivors, in order, are
     * exactly the transactions every input of which is still unspent.
     * (src/TransactionPool.js:63 calls `findUnspentTxOut(txIn, unspentTxOuts)`
     * of src/Transaction.js, which is not part of this model; the lookup is
     * taken to be by the input's outpoint.)
     */
    method UpdateTransactionPool(unspentTxOuts: seq<UnspentTxOut>)
      requires Valid()
      modifies this
      ensures transactionPool == Filter(old(transactionPool), StillSpendable(unspentTxOuts))
      ensures Valid()
    {
      var invalidTxs: seq<Transaction> := [];
      for i := 0 to |transactionPool|
        invariant forall tx :: tx in invalidTxs <==> tx in transactionPool[..i] && !HasAllInputs(tx, unspentTxOuts)
      {
        var tx := transactionPool[i];
        var j := 0;
        while j < |tx.txIns|
          invariant 0 <= j <= |tx.txIns|
          invariant forall m :: 0 <= m < j ==>
            FindUnspentTxOut(tx.txIns[m].txOutTransactionId, tx.txIns[m].txOutIndex, unspentTxOuts).Some?
          invariant forall t :: t in invalidTxs <==> t in transactionPool[..i] && !HasAllInputs(t, unspentTxOuts)
        {
          if FindUnspentTxOut(tx.txIns[j].txOutTransactionId, tx.txIns[j].txOutIndex, unspentTxOuts).None? {
            invalidTxs := invalidTxs + [tx];
            break;
          }
          j := j + 1;
        }
        assert transactionPool[..i + 1] == transactionPool[..i] + [tx];
      }
      assert transactionPool[..|transactionPool|] == transactionPool;
      var survivors := Without(transactionPool, invalidTxs);
      FilterAgree(transactionPool, (x: Transaction) => x !in invalidTxs, StillSpendable(unspentTxOuts));
      FilterKeepsInputsDisjoint(transactionPool, StillSpendable(unspentTxOuts));
      if |invalidTxs| > 0 {
        transactionPool := survivors;
      } else {
        FilterKeepsAll(transactionPool, StillSpendable(unspentTxOuts));
      }
    }
  }

  /** After revalidation every pool transaction has all its inputs in the unspent list. */
  lemma UpdatedPoolSpendable(pool: seq<Transaction>, unspentTxOuts: seq<UnspentTxOut>)
    ensures forall tx :: tx in Filter(pool, StillSpendable(unspentTxOuts)) ==> HasAllInputs(tx, unspentTxOuts)
  {
    forall tx | tx in Filter(pool, StillSpendable(unspentTxOuts))
      ensures HasAllInputs(tx, unspentTxOuts)
    {
      FilterMembership(pool, StillSpendable(unspentTxOuts), tx);
    }
  }

  /** Revalidating twice against the same list changes nothing the second time. */
  lemma UpdatePoolIdempotent(pool: seq<Transaction>, unspentTxOuts: seq<UnspentTxOut>)
    ensures var once := Filter(pool, StillSpendable(unspentTxOuts));
      Filter(once, StillSpendable(unspentTxOuts)) == once
  {
    UpdatedPoolSpendable(pool, unspentTxOuts);
    FilterKeepsAll(Filter(pool, StillSpendable(unspentTxOuts)), StillSpendable(unspentTxOuts));
  }

  /** A transaction dropped by revalidation has an input missing from the list; one kept has none missing. */
  lemma UpdatePoolRemovesExactlyUnspendable(pool: seq<Transaction>, unspentTxOuts: seq<UnspentTxOut>, tx: Transaction)
    requires tx in pool
    ensures tx in Filter(pool, StillSpendable(unspentTxOuts)) <==>
      forall k :: 0 <= k < |tx.txIns| ==> InPoint(tx.txIns[k]) in UOutPoints(unspentTxOuts)
  {
    FilterMembership(pool, StillSpendable(unspentTxOuts), tx);
    forall k | 0 <= k < |tx.txIns|
      ensures FindUnspentTxOut(tx.txIns[k].txOutTransactionId, tx.txIns[k].txOutIndex, unspentTxOuts).Some?
        <==> InPoint(tx.txIns[k]) in UOutPoints(unspentTxOuts)
    {
      FindIffListed(InPoint(tx.txIns[k]), unspentTxOuts);
    }
  }
}
