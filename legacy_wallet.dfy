/**
 * The earlier wallet of Wallet.js. The balance is the filtered sum of
 * src/Wallet.js (Wallet.GetBalance). Coin selection takes a prefix of the
 * address's unspent outputs without looking at any pool. The payment is
 * assembled field by field, signing each input by its index.
 *
 * Deriving the address from a private key (getPublicKey) and the ECDSA
 * signature itself are parameters: `myAddress` and `signTxIn`.
 */
module LegacyWallet {
  import opened Basics
  import opened Transactions
  import opened Crypto
  import Wallet

  /** The outputs Wallet.js may select: every entry owned by the address. */
  function Owned(address: string, unspentTxOuts: seq<UnspentTxOut>): seq<UnspentTxOut>
  {
    Filter(unspentTxOuts, Wallet.OwnedBy(address))
  }

  /** findTxOutsForAmount (Wallet.js:59-74): the accumulating loop, run over the address's outputs. */
  method FindTxOutsForAmount(amount: int, address: string, unspentTxOuts: seq<UnspentTxOut>)
    returns (r: Option<Wallet.Selection>)
    ensures r == Wallet.SelectForAmount(Owned(address, unspentTxOuts), amount)
  {
    var myUnspentTxOuts := Owned(address, unspentTxOuts);
    r := Wallet.CollectForAmount(myUnspentTxOuts, amount);
  }

  /**
   * With non-negative amounts, Wallet.js fails to find coins exactly when the
   * address owns no unspent output or its balance is short of the amount.
   */
  lemma SelectionFailsIffBalanceShort(amount: int, address: string, us: seq<UnspentTxOut>)
    requires forall u :: u in us ==> u.amount >= 0
    ensures Wallet.SelectForAmount(Owned(address, us), amount).None? <==>
      |Owned(address, us)| == 0 || Wallet.GetBalance(address, us) < amount
  {
    forall u | u in Owned(address, us)
      ensures u.amount >= 0
    {
      FilterMembership(us, Wallet.OwnedBy(address), u);
    }
    Wallet.SelectionFailsIffShort(Owned(address, us), amount);
  }

  /** A selection lists only outputs of the address, as a prefix of them in their order. */
  lemma SelectedAreOwned(amount: int, address: string, us: seq<UnspentTxOut>)
    requires Wallet.SelectForAmount(Owned(address, us), amount).Some?
    ensures var incl := Wallet.SelectForAmount(Owned(address, us), amount).value.includedUnspentTxOuts;
      && incl == Owned(address, us)[..|incl|]
      && forall u :: u in incl ==> u in us && u.address == address
  {
    var own := Owned(address, us);
    Wallet.SelectForAmountSpec(own, amount);
    var incl := Wallet.SelectForAmount(own, amount).value.includedUnspentTxOuts;
    forall u | u in incl
      ensures u in us && u.address == address
    {
      assert u in own;
      FilterMembership(us, Wallet.OwnedBy(address), u);
    }
  }

  /**
   * createTxOuts of Wallet.js takes the sender before the amount; it builds
   * the same outputs as the later version.
   */
  function CreateTxOuts(receiverAddress: string, myAddress: string, amount: int, leftOverAmount: int): (r: seq<TxOut>)
    ensures 1 <= |r| <= 2 && r[0] == TxOut(receiverAddress, amount)
    ensures |r| == 1 <==> leftOverAmount == 0
    ensures |r| == 2 ==> r[1] == TxOut(myAddress, leftOverAmount)
    ensures TotalTxOutValues(r) == amount + leftOverAmount
  {
    Wallet.CreateTxOuts(receiverAddress, amount, myAddress, leftOverAmount)
  }

  /**
   * The payment of Wallet.js: an input per selected output with the k-th
   * signed as `signTxIn(k)`, the outputs, and the id of the finished
   * inputs and outputs.
   */
  function BuildTransaction(c: Crypto, signTxIn: nat -> string, receiverAddress: string, amount: int,
                            myAddress: string, sel: Wallet.Selection): Transaction
  {
    var txIns := WithSignatures(Wallet.UnsignedTxIns(sel.includedUnspentTxOuts), signTxIn);
    var txOuts := CreateTxOuts(receiverAddress, myAddress, amount, sel.leftOverAmount);
    Transaction(GetTransactionId(c, Transaction("", txIns, txOuts)), txIns, txOuts)
  }

  /** createTransaction (Wallet.js:86-110): the fields of the new transaction set one after another. */
  method CreateTransaction(c: Crypto, receiverAddress: string, amount: int, myAddress: string,
                           signTxIn: nat -> string, unspentTxOuts: seq<UnspentTxOut>)
    returns (r: Option<Transaction>)
    ensures r == match Wallet.SelectForAmount(Owned(myAddress, unspentTxOuts), amount)
      case None => None
      case Some(sel) => Some(BuildTransaction(c, signTxIn, receiverAddress, amount, myAddress, sel))
  {
    var found := FindTxOutsForAmount(amount, myAddress, unspentTxOuts);
    if found.None? {
      return None;
    }
    var newTransaction := Transaction("", [], []);
    newTransaction := newTransaction.(txIns := Wallet.UnsignedTxIns(found.value.includedUnspentTxOuts));
    newTransaction := newTransaction.(txIns := WithSignatures(newTransaction.txIns, signTxIn));
    newTransaction := newTransaction.(txOuts := CreateTxOuts(receiverAddress, myAddress, amount, found.value.leftOverAmount));
    newTransaction := newTransaction.(id := GetTransactionId(c, newTransaction));
    return Some(newTransaction);
  }

  /**
   * The payment's inputs name the selected outputs in order, its id is the
   * recomputed id, and, against a list with unique outpoints, every input
   * finds its output and the inputs are worth exactly the outputs.
   */
  lemma CreatedTransactionBalances(c: Crypto, signTxIn: nat -> string, receiverAddress: string, amount: int,
                                   myAddress: string, us: seq<UnspentTxOut>)
    requires UniqueOutPoints(us)
    requires Wallet.SelectForAmount(Owned(myAddress, us), amount).Some?
    ensures var sel := Wallet.SelectForAmount(Owned(myAddress, us), amount).value;
      var t := BuildTransaction(c, signTxIn, receiverAddress, amount, myAddress, sel);
      && OutPoints(t.txIns) == UOutPoints(sel.includedUnspentTxOuts)
      && GetTransactionId(c, t) == t.id
      && (forall k :: 0 <= k < |t.txIns| ==>
            FindUnspentTxOut(t.txIns[k].txOutTransactionId, t.txIns[k].txOutIndex, us) == Some(sel.includedUnspentTxOuts[k]))
      && TotalTxInValues(t, us) == TotalTxOutValues(t.txOuts)
  {
    var sel := Wallet.SelectForAmount(Owned(myAddress, us), amount).value;
    var t := BuildTransaction(c, signTxIn, receiverAddress, amount, myAddress, sel);
    var incl := sel.includedUnspentTxOuts;
    SelectedAreOwned(amount, myAddress, us);
    Wallet.SelectForAmountSpec(Owned(myAddress, us), amount);
    TransactionIdIgnoresSignatures(c, t, Transaction("", t.txIns, t.txOuts));
    assert OutPoints(t.txIns) == UOutPoints(incl);
    forall k | 0 <= k < |t.txIns|
      ensures FindUnspentTxOut(t.txIns[k].txOutTransactionId, t.txIns[k].txOutIndex, us) == Some(incl[k])
    {
      assert InPoint(t.txIns[k]) == OutPoints(t.txIns)[k] == UPoint(incl[k]);
      assert incl[k] in incl;
      FindListedEntry(us, incl[k]);
    }
    SumPointwise(t.txIns, ReferencedAmount(us), incl, UAmount);
  }
}
