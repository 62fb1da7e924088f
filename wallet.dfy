/**
 * The wallet of src/Wallet.js: the balance of an address, coin selection (the
 * owner's unspent outputs that no pool transaction already spends, taken in
 * order until they cover the amount), change outputs, and the construction of
 * a signed payment.
 *
 * Key storage and derivation are not modelled: the wallet's address is a
 * parameter, and signing the transaction id is a `sign` parameter.
 */
module Wallet {
  import opened Basics
  import opened Crypto
  import opened Transactions
  import opened Pool

  function OwnedBy(address: string): UnspentTxOut -> bool
  {
    (u: UnspentTxOut) => u.address == address
  }

  /** The amount if the entry belongs to `address`, zero otherwise. */
  function AmountFor(address: string): UnspentTxOut -> int
  {
    (u: UnspentTxOut) => if u.address == address then u.amount else 0
  }

  // ---------------------------------------------------------------------------
  // Balance (src/Wallet.js:45-53)
  // ---------------------------------------------------------------------------

  /** The amounts of the entries owned by `address`, filtered then summed. */
  function GetBalance(address: string, unspentTxOuts: seq<UnspentTxOut>): int
  {
    Total(Filter(unspentTxOuts, OwnedBy(address)))
  }

  /** The balance is the sum over all entries of the amount each holds for the address. */
  lemma {:induction false} BalanceIsMaskedSum(address: string, us: seq<UnspentTxOut>)
    ensures GetBalance(address, us) == Sum(us, AmountFor(address))
  {
    if us != [] {
      BalanceIsMaskedSum(address, us[1..]);
      var head: seq<UnspentTxOut> := if us[0].address == address then [us[0]] else [];
      assert Filter(us, OwnedBy(address)) == head + Filter(us[1..], OwnedBy(address));
      SumAppend(head, Filter(us[1..], OwnedBy(address)), UAmount);
      if head != [] {
        assert head[1..] == [];
      }
    }
  }

  /** The balance of a concatenation is the sum of the balances. */
  lemma BalanceAppend(address: string, a: seq<UnspentTxOut>, b: seq<UnspentTxOut>)
    ensures GetBalance(address, a + b) == GetBalance(address, a) + GetBalance(address, b)
  {
    FilterAppend(a, b, OwnedBy(address));
    SumAppend(Filter(a, OwnedBy(address)), Filter(b, OwnedBy(address)), UAmount);
  }

  // ---------------------------------------------------------------------------
  // Excluding outputs spent by the pool (src/Wallet.js:58-80)
  // ---------------------------------------------------------------------------

  /** No input of any pool transaction spends the entry. */
  function NotInPool(transactionPool: seq<Transaction>): UnspentTxOut -> bool
  {
    (u: UnspentTxOut) => UPoint(u) !in OutPoints(AllTxIns(transactionPool))
  }

  /** _.find over the pool inputs: the first one spending the entry's outpoint. */
  function FindTxInFor(txIns: seq<TxIn>, u: UnspentTxOut): (r: Option<TxIn>)
    ensures r.Some? <==> UPoint(u) in OutPoints(txIns)
  {
    if txIns == [] then None
    else if txIns[0].txOutIndex == u.txOutIndex && txIns[0].txOutTransactionId == u.txOutTransactionId
    then assert OutPoints(txIns)[0] == UPoint(u); Some(txIns[0])
    else
      assert OutPoints(txIns) == [InPoint(txIns[0])] + OutPoints(txIns[1..]);
      FindTxInFor(txIns[1..], u)
  }

  /** The loop collecting the outputs some pool input spends, then `_.without` of those. */
  method FilterTxPoolTxs(myUnspentTxOuts: seq<UnspentTxOut>, transactionPool: seq<Transaction>) returns (r: seq<UnspentTxOut>)
    ensures r == Filter(myUnspentTxOuts, NotInPool(transactionPool))
  {
    var txIns := AllTxIns(transactionPool);
    var removable: seq<UnspentTxOut> := [];
    for i := 0 to |myUnspentTxOuts|
      invariant forall u :: u in removable <==> u in myUnspentTxOuts[..i] && !NotInPool(transactionPool)(u)
    {
      var unspentTxOut := myUnspentTxOuts[i];
      var txIn := FindTxInFor(txIns, unspentTxOut);
      if txIn.Some? {
        removable := removable + [unspentTxOut];
      }
      assert myUnspentTxOuts[..i + 1] == myUnspentTxOuts[..i] + [unspentTxOut];
    }
    assert myUnspentTxOuts[..|myUnspentTxOuts|] == myUnspentTxOuts;
    r := Without(myUnspentTxOuts, removable);
    FilterAgree(myUnspentTxOuts, (x: UnspentTxOut) => x !in removable, NotInPool(transactionPool));
  }

  // ---------------------------------------------------------------------------
  // Coin selection (src/Wallet.js:82-101)
  // ---------------------------------------------------------------------------

  /** The selected outputs, a prefix of the candidates, and what they exceed the amount by. */
  datatype Selection = Selection(includedUnspentTxOuts: seq<UnspentTxOut>, leftOverAmount: int)

  /**
   * The least length n > k of a prefix of the candidates that covers the
   * amount, if one exists.
   */
  function CoveringLength(candidates: seq<UnspentTxOut>, amount: int, k: nat): (r: Option<nat>)
    requires k <= |candidates|
    ensures r.Some? ==> k < r.value <= |candidates| && Total(candidates[..r.value]) >= amount
    ensures r.Some? ==> forall j :: k < j < r.value ==> Total(candidates[..j]) < amount
    ensures r.None? ==> forall j :: k < j <= |candidates| ==> Total(candidates[..j]) < amount
    decreases |candidates| - k
  {
    if k == |candidates| then None
    else if Total(candidates[..k + 1]) >= amount then Some(k + 1)
    else CoveringLength(candidates, amount, k + 1)
  }

  /**
   * The shortest non-empty prefix of the candidates whose total reaches the
   * amount, with the excess as left-over; None (the source throws) when no
   * prefix reaches it.
   */
  function SelectForAmount(candidates: seq<UnspentTxOut>, amount: int): Option<Selection>
  {
    match CoveringLength(candidates, amount, 0)
    case None => None
    case Some(n) => Some(Selection(candidates[..n], Total(candidates[..n]) - amount))
  }

  /**
   * A selection is a non-empty prefix of the candidates, in order, whose total
   * reaches the amount, while the same prefix without its last output does
   * not; the left-over is the excess. Selection fails exactly when no
   * non-empty prefix reaches the amount.
   */
  lemma SelectForAmountSpec(candidates: seq<UnspentTxOut>, amount: int)
    ensures var r := SelectForAmount(candidates, amount);
      r.Some? ==> (&& 0 < |r.value.includedUnspentTxOuts| <= |candidates|
                   && r.value.includedUnspentTxOuts == candidates[..|r.value.includedUnspentTxOuts|]
                   && Total(r.value.includedUnspentTxOuts) >= amount
                   && r.value.leftOverAmount == Total(r.value.includedUnspentTxOuts) - amount >= 0
                   && forall j :: 0 < j < |r.value.includedUnspentTxOuts| ==> Total(candidates[..j]) < amount)
    ensures SelectForAmount(candidates, amount).None? <==>
      forall k :: 0 < k <= |candidates| ==> Total(candidates[..k]) < amount
  {
    var r := SelectForAmount(candidates, amount);
    if r.Some? {
      var n := CoveringLength(candidates, amount, 0).value;
      var incl := r.value.includedUnspentTxOuts;
      assert |incl| == n;
    }
  }

  /**
   * With non-negative amounts, selection fails exactly when there is nothing
   * to select or the total of all candidates is short of the amount.
   */
  lemma SelectionFailsIffShort(candidates: seq<UnspentTxOut>, amount: int)
    requires forall u :: u in candidates ==> u.amount >= 0
    ensures SelectForAmount(candidates, amount).None? <==> |candidates| == 0 || Total(candidates) < amount
  {
    SelectForAmountSpec(candidates, amount);
    assert candidates[..|candidates|] == candidates;
    if |candidates| > 0 && Total(candidates) >= amount {
      assert Total(candidates[..|candidates|]) >= amount;
    }
    if SelectForAmount(candidates, amount).Some? {
      var n := CoveringLength(candidates, amount, 0).value;
      SumPrefixAtMost(candidates, n, UAmount);
    }
  }

  /** The loop accumulating `currentAmount` over the candidates, returning at the first covering prefix. */
  method CollectForAmount(candidates: seq<UnspentTxOut>, amount: int) returns (r: Option<Selection>)
    ensures r == SelectForAmount(candidates, amount)
  {
    var currentAmount := 0;
    var includedUnspentTxOuts: seq<UnspentTxOut> := [];
    for i := 0 to |candidates|
      invariant includedUnspentTxOuts == candidates[..i]
      invariant currentAmount == Total(candidates[..i])
      invariant forall j :: 0 < j <= i ==> Total(candidates[..j]) < amount
    {
      SumPrefixStep(candidates, i, UAmount);
      includedUnspentTxOuts := includedUnspentTxOuts + [candidates[i]];
      currentAmount := currentAmount + candidates[i].amount;
      assert includedUnspentTxOuts == candidates[..i + 1];
      if currentAmount >= amount {
        var leftOverAmount := currentAmount - amount;
        return Some(Selection(includedUnspentTxOuts, leftOverAmount));
      }
    }
    return None;
  }

  /** The outputs src/Wallet.js may select: owned by the address and not spent by the pool. */
  function Eligible(address: string, unspentTxOuts: seq<UnspentTxOut>, transactionPool: seq<Transaction>): seq<UnspentTxOut>
  {
    Filter(Filter(unspentTxOuts, OwnedBy(address)), NotInPool(transactionPool))
  }

  method FindTxOutsForAmount(address: string, amount: int, unspentTxOuts: seq<UnspentTxOut>,
                             transactionPool: seq<Transaction>) returns (r: Option<Selection>)
    ensures r == SelectForAmount(Eligible(address, unspentTxOuts, transactionPool), amount)
  {
    var myUnspentTxOuts := Filter(unspentTxOuts, OwnedBy(address));
    myUnspentTxOuts := FilterTxPoolTxs(myUnspentTxOuts, transactionPool);
    r := CollectForAmount(myUnspentTxOuts, amount);
  }

  /** Every selected output is listed, owned by the address, and spent by no pool transaction. */
  lemma SelectedAreEligible(address: string, amount: int, us: seq<UnspentTxOut>, pool: seq<Transaction>)
    requires SelectForAmount(Eligible(address, us, pool), amount).Some?
    ensures var incl := SelectForAmount(Eligible(address, us, pool), amount).value.includedUnspentTxOuts;
      forall u :: u in incl ==> u in us && u.address == address && NotInPool(pool)(u)
  {
    var el := Eligible(address, us, pool);
    SelectForAmountSpec(el, amount);
    var incl := SelectForAmount(el, amount).value.includedUnspentTxOuts;
    forall u | u in incl
      ensures u in us && u.address == address && NotInPool(pool)(u)
    {
      assert u in el by {
        assert incl == el[..|incl|];
      }
      FilterMembership(Filter(us, OwnedBy(address)), NotInPool(pool), u);
      FilterMembership(us, OwnedBy(address), u);
    }
  }

  // ---------------------------------------------------------------------------
  // Outputs and transaction (src/Wallet.js:111-146)
  // ---------------------------------------------------------------------------

  /** The payment output, and a change output back to the sender unless nothing is left over. */
  function CreateTxOuts(receiverAddress: string, amount: int, myAddress: string, leftOverAmount: int): (r: seq<TxOut>)
    ensures 1 <= |r| <= 2
    ensures r[0] == TxOut(receiverAddress, amount)
    ensures |r| == 1 <==> leftOverAmount == 0
    ensures |r| == 2 ==> r[1] == TxOut(myAddress, leftOverAmount)
    ensures TotalTxOutValues(r) == amount + leftOverAmount
  {
    var txOut1 := TxOut(receiverAddress, amount);
    if leftOverAmount == 0 then
      assert [txOut1][1..] == [];
      assert TotalTxOutValues([txOut1]) == AmountOfTxOut(txOut1) + Sum([txOut1][1..], AmountOfTxOut);
      [txOut1]
    else
      var leftOverTx := TxOut(myAddress, leftOverAmount);
      assert [txOut1, leftOverTx][1..] == [leftOverTx] && [leftOverTx][1..] == [];
      assert TotalTxOutValues([leftOverTx]) == AmountOfTxOut(leftOverTx) + Sum([leftOverTx][1..], AmountOfTxOut);
      assert TotalTxOutValues([txOut1, leftOverTx]) == AmountOfTxOut(txOut1) + TotalTxOutValues([leftOverTx]);
      [txOut1, leftOverTx]
  }

  /** One input per selected output, naming it, not yet signed. */
  function UnsignedTxIns(included: seq<UnspentTxOut>): (r: seq<TxIn>)
    ensures |r| == |included| && OutPoints(r) == UOutPoints(included)
  {
    seq(|included|, k requires 0 <= k < |included| =>
      TxIn(included[k].txOutTransactionId, included[k].txOutIndex, ""))
  }

  /**
   * The payment built from a selection: inputs naming the selected outputs,
   * the outputs of CreateTxOuts, the id computed by the Transaction
   * constructor, and every input signed with the signature of that id.
   */
  function BuildTransaction(c: Crypto, sign: string -> string, receiverAddress: string, amount: int,
                            myAddress: string, sel: Selection): Transaction
  {
    var txIns := UnsignedTxIns(sel.includedUnspentTxOuts);
    var txOuts := CreateTxOuts(receiverAddress, amount, myAddress, sel.leftOverAmount);
    var unsigned := Transaction("", txIns, txOuts);
    var id := GetTransactionId(c, unsigned);
    Transaction(id, WithSignatures(txIns, _ => sign(id)), txOuts)
  }

  method CreateTransaction(c: Crypto, myAddress: string, sign: string -> string, receiverAddress: string,
                           amount: int, unspentTxOuts: seq<UnspentTxOut>, transactionPool: seq<Transaction>)
    returns (r: Option<Transaction>)
    ensures r == match SelectForAmount(Eligible(myAddress, unspentTxOuts, transactionPool), amount)
      case None => None
      case Some(sel) => Some(BuildTransaction(c, sign, receiverAddress, amount, myAddress, sel))
  {
    var found := FindTxOutsForAmount(myAddress, amount, unspentTxOuts, transactionPool);
    if found.None? {
      return None;
    }
    var includedUnspentTxOuts := found.value.includedUnspentTxOuts;
    var txIns := UnsignedTxIns(includedUnspentTxOuts);
    var txOuts := CreateTxOuts(receiverAddress, amount, myAddress, found.value.leftOverAmount);
    var newTransaction := Transaction("", txIns, txOuts);
    newTransaction := newTransaction.(id := GetTransactionId(c, newTransaction));
    var id := newTransaction.id;
    var signed := txIns;
    for k := 0 to |signed|
      invariant |signed| == |txIns|
      invariant forall m :: 0 <= m < |txIns| ==> signed[m] == if m < k then txIns[m].(signature := sign(id)) else txIns[m]
    {
      signed := signed[k := signed[k].(signature := sign(id))];
    }
    assert signed == WithSignatures(txIns, _ => sign(id));
    newTransaction := newTransaction.(txIns := signed);
    return Some(newTransaction);
  }

  /**
   * A payment built by the wallet validates against the unspent list it was
   * selected from, provided the list has unique outpoints and the wallet's
   * signature of the id verifies under its address: the id is the recomputed
   * one, every input finds the output it names, and the inputs are worth
   * exactly the outputs. It spends nothing the pool already spends.
   */
  lemma CreatedTransactionIsValid(c: Crypto, sign: string -> string, receiverAddress: string, amount: int,
                                  myAddress: string, us: seq<UnspentTxOut>, pool: seq<Transaction>)
    requires UniqueOutPoints(us)
    requires SelectForAmount(Eligible(myAddress, us, pool), amount).Some?
    requires var t := BuildTransaction(c, sign, receiverAddress, amount, myAddress,
                                       SelectForAmount(Eligible(myAddress, us, pool), amount).value);
      c.verify(myAddress, t.id, sign(t.id))
    ensures var t := BuildTransaction(c, sign, receiverAddress, amount, myAddress,
                                      SelectForAmount(Eligible(myAddress, us, pool), amount).value);
      ValidateTransaction(c, t, us) && !ConflictsWithPool(t, pool)
  {
    var sel := SelectForAmount(Eligible(myAddress, us, pool), amount).value;
    var t := BuildTransaction(c, sign, receiverAddress, amount, myAddress, sel);
    var incl := sel.includedUnspentTxOuts;
    var txIns := UnsignedTxIns(incl);
    SelectedAreEligible(myAddress, amount, us, pool);
    SelectForAmountSpec(Eligible(myAddress, us, pool), amount);
    TransactionIdIgnoresSignatures(c, t, Transaction("", txIns, t.txOuts));
    assert OutPoints(t.txIns) == UOutPoints(incl);
    forall k | 0 <= k < |t.txIns|
      ensures FindUnspentTxOut(t.txIns[k].txOutTransactionId, t.txIns[k].txOutIndex, us) == Some(incl[k])
    {
      assert InPoint(t.txIns[k]) == OutPoints(t.txIns)[k] == UPoint(incl[k]);
      FindListedEntry(us, incl[k]);
    }
    forall k | 0 <= k < |t.txIns|
      ensures ValidateTxIn(c, t.txIns[k], t, us)
    {
      assert incl[k] in incl;
    }
    SumPointwise(t.txIns, ReferencedAmount(us), incl, UAmount);
  }
}
