/**
 * The UTXO ledger of Transaction.js: transaction ids, the coinbase (reward)
 * transaction, lookup and update of the unspent-output list, structural
 * checks, per-transaction validation and the block-admission pipeline
 * `processTransactions`.
 *
 * Values follow the records of the source: a TxIn names an earlier output by
 * (txOutTransactionId, txOutIndex) and carries a signature; a TxOut pays an
 * amount to an address; an UnspentTxOut is a claim-check for one output.
 * JavaScript numbers are modelled as unbounded integers.
 */
module Transactions {
  import opened Basics
  import opened Crypto

  /** The fixed block reward (Transaction.js:8). */
  const COINBASE_AMOUNT: int := 50

  /** Length of an uncompressed secp256k1 public key in hex. */
  const ADDRESS_LENGTH: nat := 130

  datatype TxIn = TxIn(txOutTransactionId: string, txOutIndex: int, signature: string)

  datatype TxOut = TxOut(address: string, amount: int)

  datatype Transaction = Transaction(id: string, txIns: seq<TxIn>, txOuts: seq<TxOut>)

  datatype UnspentTxOut = UnspentTxOut(txOutTransactionId: string, txOutIndex: int, address: string, amount: int)

  /** The pair (transaction id, output index) naming one output. */
  datatype OutPoint = OutPoint(txId: string, index: int)

  function InPoint(i: TxIn): OutPoint
  {
    OutPoint(i.txOutTransactionId, i.txOutIndex)
  }

  function UPoint(u: UnspentTxOut): OutPoint
  {
    OutPoint(u.txOutTransactionId, u.txOutIndex)
  }

  /** The outpoints a sequence of inputs spends, in order. */
  function OutPoints(ins: seq<TxIn>): seq<OutPoint>
  {
    seq(|ins|, k requires 0 <= k < |ins| => InPoint(ins[k]))
  }

  function UOutPoints(us: seq<UnspentTxOut>): seq<OutPoint>
  {
    seq(|us|, k requires 0 <= k < |us| => UPoint(us[k]))
  }

  // ---------------------------------------------------------------------------
  // Transaction id (Transaction.js:18-28)
  // ---------------------------------------------------------------------------

  function DigitChar(d: nat): char
    requires d < 10
  {
    "0123456789"[d]
  }

  function NatToString(n: nat): string
  {
    if n < 10 then [DigitChar(n)] else NatToString(n / 10) + [DigitChar(n % 10)]
  }

  /** JavaScript's decimal rendering of an integer in `string + number`. */
  function NumberToString(i: int): string
  {
    if i < 0 then "-" + NatToString(-i) else NatToString(i)
  }

  /** txIns.map(txIn => txIn.txOutTransactionId + txIn.txOutIndex).reduce(+, '') */
  function TxInContent(ins: seq<TxIn>): string
  {
    if ins == [] then ""
    else ins[0].txOutTransactionId + NumberToString(ins[0].txOutIndex) + TxInContent(ins[1..])
  }

  /** txOuts.map(txOut => txOut.address + txOut.amount).reduce(+, '') */
  function TxOutContent(outs: seq<TxOut>): string
  {
    if outs == [] then ""
    else outs[0].address + NumberToString(outs[0].amount) + TxOutContent(outs[1..])
  }

  function GetTransactionId(c: Crypto, tx: Transaction): string
  {
    c.sha256(TxInContent(tx.txIns) + TxOutContent(tx.txOuts))
  }

  lemma {:induction false} TxInContentDependsOnOutPoints(a: seq<TxIn>, b: seq<TxIn>)
    requires OutPoints(a) == OutPoints(b)
    ensures TxInContent(a) == TxInContent(b)
  {
    assert |a| == |OutPoints(a)| == |OutPoints(b)| == |b|;
    if a != [] {
      assert InPoint(a[0]) == OutPoints(a)[0] == OutPoints(b)[0] == InPoint(b[0]);
      assert OutPoints(a[1..]) == OutPoints(a)[1..];
      assert OutPoints(b[1..]) == OutPoints(b)[1..];
      TxInContentDependsOnOutPoints(a[1..], b[1..]);
    }
  }

  /**
   * The id is a function of the ordered outpoints of the inputs and the ordered
   * outputs only: in particular signing the inputs never changes it.
   */
  lemma TransactionIdIgnoresSignatures(c: Crypto, a: Transaction, b: Transaction)
    requires OutPoints(a.txIns) == OutPoints(b.txIns) && a.txOuts == b.txOuts
    ensures GetTransactionId(c, a) == GetTransactionId(c, b)
  {
    TxInContentDependsOnOutPoints(a.txIns, b.txIns);
  }

  /** The inputs with their signatures replaced, outpoints untouched. */
  function WithSignatures(ins: seq<TxIn>, sig: nat -> string): (r: seq<TxIn>)
    ensures |r| == |ins| && OutPoints(r) == OutPoints(ins)
    ensures forall k :: 0 <= k < |r| ==> r[k].signature == sig(k)
  {
    seq(|ins|, k requires 0 <= k < |ins| => ins[k].(signature := sig(k)))
  }

  // ---------------------------------------------------------------------------
  // Coinbase (Transaction.js:30-41)
  // ---------------------------------------------------------------------------

  /**
   * The reward transaction for block height `blockIndex`: one unsigned input
   * whose index is the height, one output of COINBASE_AMOUNT to `address`.
   * (Transaction.js:31 calls `new Transaction()` with no arguments, whose
   * constructor would read `undefined.map`; the model follows the evident intent
   * of building the object field by field.)
   */
  function GetCoinbaseTransaction(c: Crypto, address: string, blockIndex: int): (t: Transaction)
    ensures t.txIns == [TxIn("", blockIndex, "")]
    ensures t.txOuts == [TxOut(address, COINBASE_AMOUNT)]
    ensures t.id == GetTransactionId(c, t)
  {
    var t := Transaction("", [TxIn("", blockIndex, "")], [TxOut(address, COINBASE_AMOUNT)]);
    t.(id := GetTransactionId(c, t))
  }

  // ---------------------------------------------------------------------------
  // Lookup (Transaction.js:43-50)
  // ---------------------------------------------------------------------------

  predicate Names(u: UnspentTxOut, txOutTransactionId: string, txOutIndex: int)
  {
    u.txOutTransactionId == txOutTransactionId && u.txOutIndex == txOutIndex
  }

  /** Array.prototype.find: the first entry naming the outpoint, if any. */
  function FindUnspentTxOut(txOutTransactionId: string, txOutIndex: int, unspentTxOuts: seq<UnspentTxOut>): (r: Option<UnspentTxOut>)
    ensures r.None? <==> forall k :: 0 <= k < |unspentTxOuts| ==> !Names(unspentTxOuts[k], txOutTransactionId, txOutIndex)
    ensures r.Some? ==> Names(r.value, txOutTransactionId, txOutIndex)
    ensures r.Some? ==> (exists k :: 0 <= k < |unspentTxOuts| && unspentTxOuts[k] == r.value
                           && forall j :: 0 <= j < k ==> !Names(unspentTxOuts[j], txOutTransactionId, txOutIndex))
  {
    if unspentTxOuts == [] then None
    else if Names(unspentTxOuts[0], txOutTransactionId, txOutIndex) then Some(unspentTxOuts[0])
    else
      var r := FindUnspentTxOut(txOutTransactionId, txOutIndex, unspentTxOuts[1..]);
      assert r.Some? ==> (exists k :: 0 <= k < |unspentTxOuts| - 1 && unspentTxOuts[1..][k] == r.value
                             && forall j :: 0 <= j < k ==> !Names(unspentTxOuts[1..][j], txOutTransactionId, txOutIndex));
      assert r.Some? ==> (exists k :: 1 <= k < |unspentTxOuts| && unspentTxOuts[k] == r.value
                             && forall j :: 0 <= j < k ==> !Names(unspentTxOuts[j], txOutTransactionId, txOutIndex));
      r
  }

  /** Lookup succeeds exactly when the outpoint is among those of the list. */
  lemma FindIffListed(p: OutPoint, us: seq<UnspentTxOut>)
    ensures FindUnspentTxOut(p.txId, p.index, us).Some? <==> p in UOutPoints(us)
  {
    if p in UOutPoints(us) {
      var k :| 0 <= k < |us| && UOutPoints(us)[k] == p;
      assert Names(us[k], p.txId, p.index);
    }
    var r := FindUnspentTxOut(p.txId, p.index, us);
    if r.Some? {
      var k :| 0 <= k < |us| && us[k] == r.value;
      assert UOutPoints(us)[k] == p;
    }
  }

  /** No two entries name the same outpoint (the key of the unspent set). */
  predicate UniqueOutPoints(us: seq<UnspentTxOut>)
  {
    forall i, j :: 0 <= i < j < |us| ==> UPoint(us[i]) != UPoint(us[j])
  }

  /** With unique outpoints the lookup of a listed entry's outpoint returns that entry. */
  lemma FindListedEntry(us: seq<UnspentTxOut>, u: UnspentTxOut)
    requires UniqueOutPoints(us) && u in us
    ensures FindUnspentTxOut(u.txOutTransactionId, u.txOutIndex, us) == Some(u)
  {
    var i :| 0 <= i < |us| && us[i] == u;
    var r := FindUnspentTxOut(u.txOutTransactionId, u.txOutIndex, us);
    assert Names(us[i], u.txOutTransactionId, u.txOutIndex);
  }

  // ---------------------------------------------------------------------------
  // Updating the unspent outputs (Transaction.js:75-91)
  // ---------------------------------------------------------------------------

  /** One unspent output per (tx.id, output index) of one transaction. */
  function OutputsOf(t: Transaction): seq<UnspentTxOut>
  {
    seq(|t.txOuts|, k requires 0 <= k < |t.txOuts| => UnspentTxOut(t.id, k, t.txOuts[k].address, t.txOuts[k].amount))
  }

  /**
   * The outputs of all transactions, flattened in order. Transaction.js:78 reads
   * `t.id` outside the scope of `t` and maps over arrays of outputs; the model
   * follows the evident intent of one entry per (tx.id, outputIndex).
   */
  function NewUnspentTxOuts(txs: seq<Transaction>): seq<UnspentTxOut>
  {
    if txs == [] then [] else OutputsOf(txs[0]) + NewUnspentTxOuts(txs[1..])
  }

  /** All inputs of all transactions, flattened in order. */
  function AllTxIns(txs: seq<Transaction>): (r: seq<TxIn>)
    ensures forall t, x :: t in txs && x in t.txIns ==> x in r
    ensures forall x :: x in r ==> exists t :: t in txs && x in t.txIns
  {
    if txs == [] then [] else txs[0].txIns + AllTxIns(txs[1..])
  }

  /** The placeholder entries `new UnspentTxOut(id, index, '', 0)` built per consumed input. */
  function ConsumedTxOuts(txs: seq<Transaction>): seq<UnspentTxOut>
  {
    var ins := AllTxIns(txs);
    seq(|ins|, k requires 0 <= k < |ins| => UnspentTxOut(ins[k].txOutTransactionId, ins[k].txOutIndex, "", 0))
  }

  /** The filter of Transaction.js:87: keep an entry that no consumed placeholder names. */
  function NotConsumed(consumed: seq<UnspentTxOut>): UnspentTxOut -> bool
  {
    (u: UnspentTxOut) => FindUnspentTxOut(u.txOutTransactionId, u.txOutIndex, consumed).None?
  }

  function UpdateUnspentTxOuts(newTransactions: seq<Transaction>, unspentTxOuts: seq<UnspentTxOut>): seq<UnspentTxOut>
  {
    Filter(unspentTxOuts, NotConsumed(ConsumedTxOuts(newTransactions))) + NewUnspentTxOuts(newTransactions)
  }

  /** Some input of the transactions spends outpoint `p`. */
  predicate Spends(txs: seq<Transaction>, p: OutPoint)
  {
    p in OutPoints(AllTxIns(txs))
  }

  lemma ConsumedIffSpent(txs: seq<Transaction>, u: UnspentTxOut)
    ensures NotConsumed(ConsumedTxOuts(txs))(u) <==> !Spends(txs, UPoint(u))
  {
    var consumed := ConsumedTxOuts(txs);
    var ins := AllTxIns(txs);
    FindIffListed(UPoint(u), consumed);
    assert UOutPoints(consumed) == OutPoints(ins);
  }

  /** Membership in the outputs of a list of transactions, by position. */
  lemma {:induction false} NewUnspentTxOutsMembership(txs: seq<Transaction>, t: Transaction, k: int)
    requires t in txs && 0 <= k < |t.txOuts|
    ensures UnspentTxOut(t.id, k, t.txOuts[k].address, t.txOuts[k].amount) in NewUnspentTxOuts(txs)
  {
    if txs[0] == t {
      assert OutputsOf(t)[k] == UnspentTxOut(t.id, k, t.txOuts[k].address, t.txOuts[k].amount);
    } else {
      NewUnspentTxOutsMembership(txs[1..], t, k);
    }
  }

  /**
   * The new list is: the old entries that no input of the new transactions
   * spends, in their original order, followed by one entry per output of the
   * new transactions; an old entry is dropped exactly when some input spends it.
   */
  lemma UpdateUnspentTxOutsContents(txs: seq<Transaction>, us: seq<UnspentTxOut>)
    ensures var kept := UpdateUnspentTxOuts(txs, us)[..|UpdateUnspentTxOuts(txs, us)| - |NewUnspentTxOuts(txs)|];
      && UpdateUnspentTxOuts(txs, us) == kept + NewUnspentTxOuts(txs)
      && (forall u :: u in kept <==> u in us && !Spends(txs, UPoint(u)))
      && IsSubsequence(kept, us)
    ensures forall t, k :: t in txs && 0 <= k < |t.txOuts| ==>
      UnspentTxOut(t.id, k, t.txOuts[k].address, t.txOuts[k].amount) in UpdateUnspentTxOuts(txs, us)
  {
    var p := NotConsumed(ConsumedTxOuts(txs));
    var kept := Filter(us, p);
    assert UpdateUnspentTxOuts(txs, us)[..|UpdateUnspentTxOuts(txs, us)| - |NewUnspentTxOuts(txs)|] == kept;
    forall u
      ensures u in kept <==> u in us && !Spends(txs, UPoint(u))
    {
      FilterMembership(us, p, u);
      ConsumedIffSpent(txs, u);
    }
    FilterIsSubsequence(us, p);
    forall t, k | t in txs && 0 <= k < |t.txOuts|
      ensures UnspentTxOut(t.id, k, t.txOuts[k].address, t.txOuts[k].amount) in UpdateUnspentTxOuts(txs, us)
    {
      NewUnspentTxOutsMembership(txs, t, k);
    }
  }

  // ---------------------------------------------------------------------------
  // Structural checks (Transaction.js:93-177)
  // ---------------------------------------------------------------------------

  /** The regular expression '^[a-fA-F0-9]+$'. */
  predicate MatchesHexPattern(s: string)
  {
    |s| > 0 && (|s| == 1 || MatchesHexPattern(s[1..])) && IsHexDigit(s[0])
  }

  lemma {:induction false} HexPatternIffAllHex(s: string)
    ensures MatchesHexPattern(s) <==> |s| > 0 && forall i :: 0 <= i < |s| ==> IsHexDigit(s[i])
  {
    if |s| > 1 {
      HexPatternIffAllHex(s[1..]);
      assert forall i :: 1 <= i < |s| ==> s[i] == s[1..][i - 1];
    }
  }

  function IsValidAddress(address: string): (r: bool)
    ensures r <==> (&& |address| == ADDRESS_LENGTH
                    && (forall i :: 0 <= i < |address| ==> IsHexDigit(address[i]))
                    && address[0] == '0' && address[1] == '4')
  {
    HexPatternIffAllHex(address);
    if |address| != ADDRESS_LENGTH then false
    else if !MatchesHexPattern(address) then false
    else if !(address[..2] == "04") then false
    else true
  }

  /**
   * The typeof checks of isValidTxInStructure and isValidTxOutStructure hold of
   * every value of the typed records, so what remains of the structural check as
   * written is the address format of every output: any number, negative ones
   * included, passes as an amount.
   */
  predicate IsValidTxOutStructureAsWritten(txOut: TxOut)
  {
    IsValidAddress(txOut.address)
  }

  predicate IsValidTransactionStructureAsWritten(tx: Transaction)
  {
    forall k :: 0 <= k < |tx.txOuts| ==> IsValidTxOutStructureAsWritten(tx.txOuts[k])
  }

  /** The output check with the non-negative amount that outputs are meant to carry. */
  predicate IsValidTxOutStructure(txOut: TxOut)
  {
    IsValidAddress(txOut.address) && txOut.amount >= 0
  }

  predicate IsValidTransactionStructure(tx: Transaction)
  {
    forall k :: 0 <= k < |tx.txOuts| ==> IsValidTxOutStructure(tx.txOuts[k])
  }

  predicate IsValidTransactionsStructure(txs: seq<Transaction>)
  {
    forall k :: 0 <= k < |txs| ==> IsValidTransactionStructure(txs[k])
  }

  // ---------------------------------------------------------------------------
  // Validation (Transaction.js:179-253)
  // ---------------------------------------------------------------------------

  /** The referenced output exists and its address signed the transaction id. */
  function ValidateTxIn(c: Crypto, txIn: TxIn, tx: Transaction, unspentTxOuts: seq<UnspentTxOut>): (r: bool)
    ensures r ==> exists u :: u in unspentTxOuts && UPoint(u) == InPoint(txIn) && c.verify(u.address, tx.id, txIn.signature)
  {
    match FindUnspentTxOut(txIn.txOutTransactionId, txIn.txOutIndex, unspentTxOuts)
    case None => false
    case Some(u) => c.verify(u.address, tx.id, txIn.signature)
  }

  /**
   * Validation of the reward transaction. `None` stands for `transactions[0]`
   * of an empty block. Transaction.js:208 returns `undefined`, which the caller
   * reads as false.
   */
  function ValidateCoinbaseTx(c: Crypto, transaction: Option<Transaction>, blockIndex: int): bool
  {
    match transaction
    case None => false
    case Some(t) =>
      if GetTransactionId(c, t) != t.id then false
      else if |t.txIns| != 1 then false
      else if t.txIns[0].txOutIndex != blockIndex then false
      else if |t.txOuts| != 1 then false
      else if t.txOuts[0].amount != COINBASE_AMOUNT then false
      else true
  }

  /** Every coinbase transaction built for a height passes the coinbase check at that height. */
  lemma CoinbaseIsValid(c: Crypto, address: string, blockIndex: int)
    ensures ValidateCoinbaseTx(c, Some(GetCoinbaseTransaction(c, address, blockIndex)), blockIndex)
    ensures IsValidTransactionStructure(GetCoinbaseTransaction(c, address, blockIndex)) <==> IsValidAddress(address)
  {
  }

  /**
   * The coinbase check accepts exactly a transaction carrying its recomputed
   * id, one input whose index is the block height, and one output of the
   * reward; an empty block has no coinbase and is refused.
   */
  lemma CoinbaseCheckIff(c: Crypto, transaction: Option<Transaction>, blockIndex: int)
    ensures ValidateCoinbaseTx(c, transaction, blockIndex) <==>
      (&& transaction.Some?
       && GetTransactionId(c, transaction.value) == transaction.value.id
       && |transaction.value.txIns| == 1 && transaction.value.txIns[0].txOutIndex == blockIndex
       && |transaction.value.txOuts| == 1 && transaction.value.txOuts[0].amount == COINBASE_AMOUNT)
  {
  }

  /** A coinbase accepted at one height is rejected at every other height (no reward replay). */
  lemma CoinbaseBoundToHeight(c: Crypto, t: Transaction, i: int, j: int)
    requires ValidateCoinbaseTx(c, Some(t), i) && i != j
    ensures !ValidateCoinbaseTx(c, Some(t), j)
  {
  }

  function AmountOfTxOut(o: TxOut): int
  {
    o.amount
  }

  /** The amount of the output an input spends (read only once every input was found). */
  function ReferencedAmount(unspentTxOuts: seq<UnspentTxOut>): TxIn -> int
  {
    (i: TxIn) => match FindUnspentTxOut(i.txOutTransactionId, i.txOutIndex, unspentTxOuts)
      case None => 0
      case Some(u) => u.amount
  }

  function TotalTxInValues(tx: Transaction, unspentTxOuts: seq<UnspentTxOut>): int
  {
    Sum(tx.txIns, ReferencedAmount(unspentTxOuts))
  }

  function TotalTxOutValues(outs: seq<TxOut>): int
  {
    Sum(outs, AmountOfTxOut)
  }

  function UAmount(u: UnspentTxOut): int
  {
    u.amount
  }

  /** The value held by a list of unspent outputs. */
  function Total(us: seq<UnspentTxOut>): int
  {
    Sum(us, UAmount)
  }

  /**
   * A transaction is valid against a list of unspent outputs when its id is the
   * recomputed one, every input spends a listed output whose address signed the
   * id, and the spent amounts add up exactly to the paid ones.
   * (Transaction.js:240 reads the undefined `aUnspentTxOuts`; the model uses the
   * parameter `unspentTxOuts`, as evidently intended.)
   */
  function ValidateTransaction(c: Crypto, transaction: Transaction, unspentTxOuts: seq<UnspentTxOut>): (r: bool)
    ensures r ==> transaction.id == GetTransactionId(c, transaction)
    ensures r ==> forall k :: 0 <= k < |transaction.txIns| ==>
      exists u :: u in unspentTxOuts && UPoint(u) == InPoint(transaction.txIns[k])
        && c.verify(u.address, transaction.id, transaction.txIns[k].signature)
    ensures r ==> TotalTxInValues(transaction, unspentTxOuts) == TotalTxOutValues(transaction.txOuts)
  {
    if GetTransactionId(c, transaction) != transaction.id then false
    else if !(forall k :: 0 <= k < |transaction.txIns| ==> ValidateTxIn(c, transaction.txIns[k], transaction, unspentTxOuts)) then false
    else TotalTxOutValues(transaction.txOuts) == TotalTxInValues(transaction, unspentTxOuts)
  }

  /** A well-formed address used by the lemmas below. */
  function SampleAddress(): string
  {
    "04" + Repeat('a', 128)
  }

  lemma SampleAddressIsValid()
    ensures IsValidAddress(SampleAddress())
  {
    assert |Repeat('a', 128)| == 128;
    assert |SampleAddress()| == ADDRESS_LENGTH;
    assert SampleAddress()[0] == '0' && SampleAddress()[1] == '4';
    forall i | 2 <= i < |SampleAddress()|
      ensures IsHexDigit(SampleAddress()[i])
    {
      assert SampleAddress()[i] == Repeat('a', 128)[i - 2];
    }
  }

  /**
   * As written, a transaction with no inputs whose outputs pay 100 and -100
   * passes the structural check and validation against any unspent list, so
   * its first output is 100 coins created from nothing; the corrected
   * structural check rejects it.
   */
  lemma NegativeAmountCounterexample(c: Crypto, us: seq<UnspentTxOut>)
    ensures var t0 := Transaction("", [], [TxOut(SampleAddress(), 100), TxOut(SampleAddress(), -100)]);
      var t := t0.(id := GetTransactionId(c, t0));
      && IsValidTransactionStructureAsWritten(t)
      && ValidateTransaction(c, t, us)
      && !IsValidTransactionStructure(t)
  {
    SampleAddressIsValid();
    var t0 := Transaction("", [], [TxOut(SampleAddress(), 100), TxOut(SampleAddress(), -100)]);
    var t := t0.(id := GetTransactionId(c, t0));
    assert TotalTxOutValues(t.txOuts) == 100 + Sum(t.txOuts[1..], AmountOfTxOut);
    assert t.txOuts[1..][1..] == [];
  }

  // ---------------------------------------------------------------------------
  // Duplicate inputs within a block (Transaction.js:256-268)
  // ---------------------------------------------------------------------------

  /** The grouping key of Transaction.js:257 as written: the prior id twice. */
  function GroupKeyAsWritten(txIn: TxIn): string
  {
    txIn.txOutTransactionId + txIn.txOutTransactionId
  }

  /** `hasDuplicates` as written: some group of the as-written key has two members. */
  predicate HasDuplicatesAsWritten(txIns: seq<TxIn>)
  {
    exists i, j :: 0 <= i < j < |txIns| && GroupKeyAsWritten(txIns[i]) == GroupKeyAsWritten(txIns[j])
  }

  /** `hasDuplicates` keyed, as intended, on the outpoint (txOutTransactionId, txOutIndex). */
  predicate HasDuplicates(txIns: seq<TxIn>)
  {
    exists i, j :: 0 <= i < j < |txIns| && InPoint(txIns[i]) == InPoint(txIns[j])
  }

  /** No two inputs name the same outpoint. */
  predicate DistinctOutPoints(txIns: seq<TxIn>)
  {
    forall i, j :: 0 <= i < j < |txIns| ==> InPoint(txIns[i]) != InPoint(txIns[j])
  }

  /** A duplicate is a pair of positions naming one outpoint. */
  lemma DuplicateWitness(txIns: seq<TxIn>)
    requires HasDuplicates(txIns)
    ensures !DistinctOutPoints(txIns)
  {
    var i, j :| 0 <= i < j < |txIns| && InPoint(txIns[i]) == InPoint(txIns[j]);
  }

  /** The as-written key collides exactly when the prior transaction ids are equal. */
  lemma GroupKeyAsWrittenIffSameId(a: TxIn, b: TxIn)
    ensures GroupKeyAsWritten(a) == GroupKeyAsWritten(b) <==> a.txOutTransactionId == b.txOutTransactionId
  {
    var s, t := a.txOutTransactionId, b.txOutTransactionId;
    if s + s == t + t {
      assert |s| == |t|;
      assert s == (s + s)[..|s|] == (t + t)[..|t|] == t;
    }
  }

  /**
   * As written, two inputs spending different outputs of one prior transaction
   * count as duplicates; with the intended key they do not.
   */
  lemma DuplicateKeyCounterexample()
    ensures var ins := [TxIn("t", 0, ""), TxIn("t", 1, "")];
      HasDuplicatesAsWritten(ins) && !HasDuplicates(ins)
  {
    var ins := [TxIn("t", 0, ""), TxIn("t", 1, "")];
    assert GroupKeyAsWritten(ins[0]) == GroupKeyAsWritten(ins[1]);
  }

  /** Every genuine duplicate is also caught as written: the as-written check only over-rejects. */
  lemma DuplicatesCaughtAsWritten(txIns: seq<TxIn>)
    requires HasDuplicates(txIns)
    ensures HasDuplicatesAsWritten(txIns)
  {
    var i, j :| 0 <= i < j < |txIns| && InPoint(txIns[i]) == InPoint(txIns[j]);
    assert GroupKeyAsWritten(txIns[i]) == GroupKeyAsWritten(txIns[j]);
  }

  // ---------------------------------------------------------------------------
  // Block admission (Transaction.js:255-303)
  // ---------------------------------------------------------------------------

  function FirstTransaction(transactions: seq<Transaction>): Option<Transaction>
  {
    if |transactions| == 0 then None else Some(transactions[0])
  }

  predicate ValidateBlockTransactions(c: Crypto, transactions: seq<Transaction>, unspentTxOuts: seq<UnspentTxOut>, blockIndex: int)
  {
    && ValidateCoinbaseTx(c, FirstTransaction(transactions), blockIndex)
    && !HasDuplicates(AllTxIns(transactions))
    && forall k :: 1 <= k < |transactions| ==> ValidateTransaction(c, transactions[k], unspentTxOuts)
  }

  /**
   * The block-admission pipeline: None (the source's null) unless the block is
   * structurally valid, starts with a valid coinbase for `blockIndex`, spends no
   * outpoint twice and every other transaction validates against the current
   * list; otherwise the next unspent-output list. Admission holds exactly
   * when all of those checks pass, so every admitted transaction after the
   * coinbase carries its recomputed id and signatures that verify.
   */
  function ProcessTransactions(c: Crypto, transactions: seq<Transaction>, unspentTxOuts: seq<UnspentTxOut>, blockIndex: int): (r: Option<seq<UnspentTxOut>>)
    ensures r.Some? <==>
      (&& |transactions| >= 1 && ValidateCoinbaseTx(c, Some(transactions[0]), blockIndex)
       && (forall k, j :: 0 <= k < |transactions| && 0 <= j < |transactions[k].txOuts| ==>
             IsValidAddress(transactions[k].txOuts[j].address) && transactions[k].txOuts[j].amount >= 0)
       && DistinctOutPoints(AllTxIns(transactions))
       && (forall k :: 1 <= k < |transactions| ==> ValidateTransaction(c, transactions[k], unspentTxOuts)))
    ensures r.Some? ==> forall k :: 1 <= k < |transactions| ==>
      && transactions[k].id == GetTransactionId(c, transactions[k])
      && TotalTxInValues(transactions[k], unspentTxOuts) == TotalTxOutValues(transactions[k].txOuts)
    ensures r.Some? ==> r.value == UpdateUnspentTxOuts(transactions, unspentTxOuts)
  {
    if !IsValidTransactionsStructure(transactions) then None
    else if !ValidateBlockTransactions(c, transactions, unspentTxOuts, blockIndex) then
      if HasDuplicates(AllTxIns(transactions)) then
        DuplicateWitness(AllTxIns(transactions));
        None
      else None
    else Some(UpdateUnspentTxOuts(transactions, unspentTxOuts))
  }

  /** A block that spends one outpoint twice is rejected, whatever else it holds. */
  lemma DoubleSpendInBlockRejected(c: Crypto, txs: seq<Transaction>, us: seq<UnspentTxOut>, blockIndex: int, i: int, j: int)
    requires 0 <= i < j < |AllTxIns(txs)| && InPoint(AllTxIns(txs)[i]) == InPoint(AllTxIns(txs)[j])
    ensures ProcessTransactions(c, txs, us, blockIndex) == None
  {
  }

  /** A block whose coinbase is accepted and that has no other transaction is accepted when its address is well formed. */
  lemma CoinbaseOnlyBlockAccepted(c: Crypto, address: string, us: seq<UnspentTxOut>, blockIndex: int)
    requires IsValidAddress(address)
    requires forall u :: u in us ==> u.txOutTransactionId != ""
    ensures var cb := GetCoinbaseTransaction(c, address, blockIndex);
      ProcessTransactions(c, [cb], us, blockIndex)
        == Some(us + [UnspentTxOut(cb.id, 0, address, COINBASE_AMOUNT)])
  {
    var cb := GetCoinbaseTransaction(c, address, blockIndex);
    CoinbaseIsValid(c, address, blockIndex);
    assert AllTxIns([cb]) == cb.txIns;
    var p := NotConsumed(ConsumedTxOuts([cb]));
    forall u | u in us ensures p(u) {
      ConsumedIffSpent([cb], u);
      assert OutPoints(AllTxIns([cb])) == [OutPoint("", blockIndex)];
    }
    FilterKeepsAll(us, p);
    assert [cb][1..] == [];
    assert OutputsOf(cb) == [UnspentTxOut(cb.id, 0, address, COINBASE_AMOUNT)];
    assert NewUnspentTxOuts([cb]) == OutputsOf(cb) + NewUnspentTxOuts([]);
    assert IsValidTransactionsStructure([cb]);
    assert !HasDuplicates(AllTxIns([cb]));
    assert ValidateBlockTransactions(c, [cb], us, blockIndex);
    assert UpdateUnspentTxOuts([cb], us) == us + [UnspentTxOut(cb.id, 0, address, COINBASE_AMOUNT)];
  }

  predicate AllAmountsNonNegative(us: seq<UnspentTxOut>)
  {
    forall k :: 0 <= k < |us| ==> us[k].amount >= 0
  }

  /** Every new entry carries the amount of some output of some transaction. */
  lemma {:induction false} NewUnspentTxOutsOrigin(txs: seq<Transaction>, u: UnspentTxOut)
    requires u in NewUnspentTxOuts(txs)
    ensures exists t, k :: t in txs && 0 <= k < |t.txOuts| && u == UnspentTxOut(t.id, k, t.txOuts[k].address, t.txOuts[k].amount)
  {
    if u in OutputsOf(txs[0]) {
      var k :| 0 <= k < |OutputsOf(txs[0])| && OutputsOf(txs[0])[k] == u;
      assert txs[0] in txs;
    } else {
      NewUnspentTxOutsOrigin(txs[1..], u);
      var t, k :| t in txs[1..] && 0 <= k < |t.txOuts| && u == UnspentTxOut(t.id, k, t.txOuts[k].address, t.txOuts[k].amount);
      assert t in txs;
    }
  }

  /** An accepted block never introduces an entry with a negative amount. */
  lemma ProcessTransactionsKeepsAmountsNonNegative(c: Crypto, txs: seq<Transaction>, us: seq<UnspentTxOut>, blockIndex: int)
    requires AllAmountsNonNegative(us)
    requires ProcessTransactions(c, txs, us, blockIndex).Some?
    ensures AllAmountsNonNegative(ProcessTransactions(c, txs, us, blockIndex).value)
  {
    var r := ProcessTransactions(c, txs, us, blockIndex).value;
    var kept := Filter(us, NotConsumed(ConsumedTxOuts(txs)));
    forall k | 0 <= k < |r|
      ensures r[k].amount >= 0
    {
      if k >= |kept| {
        var u := r[k];
        assert u == NewUnspentTxOuts(txs)[k - |kept|];
        NewUnspentTxOutsOrigin(txs, u);
        var t, j :| t in txs && 0 <= j < |t.txOuts| && u == UnspentTxOut(t.id, j, t.txOuts[j].address, t.txOuts[j].amount);
        var i :| 0 <= i < |txs| && txs[i] == t;
        assert IsValidTxOutStructure(txs[i].txOuts[j]);
      } else {
        assert r[k] == kept[k];
      }
    }
  }
  // ---------------------------------------------------------------------------
  // Value of the unspent list across one admitted block
  // ---------------------------------------------------------------------------

  /** Keeps the entries that no input of `ins` names. */
  function NotNamedBy(ins: seq<TxIn>): UnspentTxOut -> bool
  {
    (u: UnspentTxOut) => UPoint(u) !in OutPoints(ins)
  }

  /** Strengthens a filter by also dropping the entry named by `p`. */
  function AlsoNotAt(q: UnspentTxOut -> bool, p: OutPoint): UnspentTxOut -> bool
  {
    (u: UnspentTxOut) => q(u) && UPoint(u) != p
  }

  /** The value of a filtered list is the head's amount, if kept, plus the filtered tail's value. */
  lemma FilterTotalStep(us: seq<UnspentTxOut>, q: UnspentTxOut -> bool)
    requires us != []
    ensures Total(Filter(us, q)) == (if q(us[0]) then us[0].amount else 0) + Total(Filter(us[1..], q))
  {
    var head := if q(us[0]) then [us[0]] else [];
    assert Filter(us, q) == head + Filter(us[1..], q);
    SumAppend(head, Filter(us[1..], q), UAmount);
    if q(us[0]) {
      assert head[1..] == [];
    }
  }

  lemma UniqueTail(us: seq<UnspentTxOut>)
    requires UniqueOutPoints(us) && us != []
    ensures UniqueOutPoints(us[1..])
    ensures forall x :: x in us[1..] ==> UPoint(x) != UPoint(us[0])
  {
    var rest := us[1..];
    forall i, j | 0 <= i < j < |rest|
      ensures UPoint(rest[i]) != UPoint(rest[j])
    {
      assert rest[i] == us[i + 1] && rest[j] == us[j + 1];
    }
    forall x | x in rest
      ensures UPoint(x) != UPoint(us[0])
    {
      var j :| 0 <= j < |rest| && rest[j] == x;
      assert us[j + 1] == x;
    }
  }

  /** The amount of the entry `p` names, if the filter `q` keeps it; 0 otherwise. */
  function KeptAmountAt(us: seq<UnspentTxOut>, q: UnspentTxOut -> bool, p: OutPoint): int
  {
    match FindUnspentTxOut(p.txId, p.index, us)
    case None => 0
    case Some(u) => if q(u) then u.amount else 0
  }

  /** In a list with unique outpoints, also dropping `p` removes exactly the amount of its entry, if the filter kept it. */
  lemma {:induction false} SumDroppingOnePoint(us: seq<UnspentTxOut>, q: UnspentTxOut -> bool, p: OutPoint)
    requires UniqueOutPoints(us)
    ensures Total(Filter(us, q)) == Total(Filter(us, AlsoNotAt(q, p))) + KeptAmountAt(us, q, p)
  {
    if us != [] {
      var u0, rest := us[0], us[1..];
      var q2 := AlsoNotAt(q, p);
      UniqueTail(us);
      FilterTotalStep(us, q);
      FilterTotalStep(us, q2);
      if UPoint(u0) == p {
        assert Names(u0, p.txId, p.index);
        assert KeptAmountAt(us, q, p) == if q(u0) then u0.amount else 0;
        assert forall x :: x in rest ==> q(x) == q2(x);
        FilterAgree(rest, q, q2);
      } else {
        assert !Names(u0, p.txId, p.index);
        assert KeptAmountAt(us, q, p) == KeptAmountAt(rest, q, p);
        SumDroppingOnePoint(rest, q, p);
      }
    }
  }

  /**
   * In a list with unique outpoints, removing the entries named by inputs that
   * name distinct outpoints removes exactly the amounts those inputs reference.
   */
  lemma {:induction false} SumRemovingInputs(us: seq<UnspentTxOut>, ins: seq<TxIn>)
    requires UniqueOutPoints(us) && DistinctOutPoints(ins)
    ensures Total(us) == Total(Filter(us, NotNamedBy(ins))) + Sum(ins, ReferencedAmount(us))
  {
    if ins == [] {
      FilterKeepsAll(us, NotNamedBy(ins));
    } else {
      var x, rest := ins[0], ins[1..];
      assert DistinctOutPoints(rest) by {
        forall i, j | 0 <= i < j < |rest|
          ensures InPoint(rest[i]) != InPoint(rest[j])
        {
          assert rest[i] == ins[i + 1] && rest[j] == ins[j + 1];
        }
      }
      SumRemovingInputs(us, rest);
      assert OutPoints(ins) == [InPoint(x)] + OutPoints(rest);
      assert InPoint(x) !in OutPoints(rest) by {
        forall k | 0 <= k < |OutPoints(rest)|
          ensures OutPoints(rest)[k] != InPoint(x)
        {
          assert OutPoints(rest)[k] == InPoint(ins[k + 1]);
        }
      }
      SumDroppingOnePoint(us, NotNamedBy(rest), InPoint(x));
      FilterAgree(us, AlsoNotAt(NotNamedBy(rest), InPoint(x)), NotNamedBy(ins));
    }
  }

  /** The outputs of one transaction, as unspent entries, are worth what it pays. */
  lemma OutputsOfValue(t: Transaction)
    ensures Total(OutputsOf(t)) == TotalTxOutValues(t.txOuts)
  {
    SumPointwise(OutputsOf(t), UAmount, t.txOuts, AmountOfTxOut);
  }

  /** When every transaction spends what it pays, the block's inputs are worth its new entries. */
  lemma {:induction false} BalancedTransactionsValue(txs: seq<Transaction>, us: seq<UnspentTxOut>)
    requires forall k :: 0 <= k < |txs| ==> TotalTxInValues(txs[k], us) == TotalTxOutValues(txs[k].txOuts)
    ensures Sum(AllTxIns(txs), ReferencedAmount(us)) == Total(NewUnspentTxOuts(txs))
  {
    if txs != [] {
      var rest := txs[1..];
      assert forall k :: 0 <= k < |rest| ==> rest[k] == txs[k + 1];
      BalancedTransactionsValue(rest, us);
      SumAppend(txs[0].txIns, AllTxIns(rest), ReferencedAmount(us));
      SumAppend(OutputsOf(txs[0]), NewUnspentTxOuts(rest), UAmount);
      OutputsOfValue(txs[0]);
    }
  }

  /**
   * Value accounting of one admitted block against a list with unique
   * outpoints: the new list is worth the old one plus the reward, less the
   * amount of the listed output that the coinbase input happens to name
   * (validateCoinbaseTx does not check the coinbase's prior id, so that input
   * consumes whatever entry it names).
   */
  lemma BlockValueAccounting(c: Crypto, txs: seq<Transaction>, us: seq<UnspentTxOut>, blockIndex: int)
    requires UniqueOutPoints(us)
    requires ProcessTransactions(c, txs, us, blockIndex).Some?
    ensures Total(ProcessTransactions(c, txs, us, blockIndex).value) + ReferencedAmount(us)(txs[0].txIns[0])
      == Total(us) + COINBASE_AMOUNT
  {
    var ins := AllTxIns(txs);
    var cb, rest := txs[0], txs[1..];
    var kept := Filter(us, NotConsumed(ConsumedTxOuts(txs)));
    forall u | u in us
      ensures NotConsumed(ConsumedTxOuts(txs))(u) == NotNamedBy(ins)(u)
    {
      ConsumedIffSpent(txs, u);
    }
    FilterAgree(us, NotConsumed(ConsumedTxOuts(txs)), NotNamedBy(ins));
    SumRemovingInputs(us, ins);
    SumAppend(kept, NewUnspentTxOuts(txs), UAmount);
    assert ins == cb.txIns + AllTxIns(rest);
    SumAppend(cb.txIns, AllTxIns(rest), ReferencedAmount(us));
    assert cb.txIns[1..] == [];
    assert NewUnspentTxOuts(txs) == OutputsOf(cb) + NewUnspentTxOuts(rest);
    SumAppend(OutputsOf(cb), NewUnspentTxOuts(rest), UAmount);
    OutputsOfValue(cb);
    assert cb.txOuts[1..] == [];
    assert forall k :: 0 <= k < |rest| ==> rest[k] == txs[k + 1];
    BalancedTransactionsValue(rest, us);
  }

  /**
   * When the coinbase input names no listed output (as for a coinbase built by
   * GetCoinbaseTransaction, whose prior id is empty, over a list without empty
   * ids), an admitted block adds exactly the reward to the list's value.
   */
  lemma AdmittedBlockAddsReward(c: Crypto, txs: seq<Transaction>, us: seq<UnspentTxOut>, blockIndex: int)
    requires UniqueOutPoints(us)
    requires ProcessTransactions(c, txs, us, blockIndex).Some?
    requires txs[0].txIns[0].txOutTransactionId == ""
    requires forall u :: u in us ==> u.txOutTransactionId != ""
    ensures Total(ProcessTransactions(c, txs, us, blockIndex).value) == Total(us) + COINBASE_AMOUNT
  {
    BlockValueAccounting(c, txs, us, blockIndex);
  }

  /** The coinbase used below: it names outpoint ("a", 1) and pays the reward to SampleAddress. */
  function NamingCoinbase(c: Crypto): Transaction
  {
    var cb0 := Transaction("", [TxIn("a", 1, "")], [TxOut(SampleAddress(), COINBASE_AMOUNT)]);
    cb0.(id := GetTransactionId(c, cb0))
  }

  lemma NamingCoinbaseAdmissible(c: Crypto)
    ensures IsValidTransactionsStructure([NamingCoinbase(c)])
    ensures ValidateBlockTransactions(c, [NamingCoinbase(c)], [UnspentTxOut("a", 1, SampleAddress(), 10)], 1)
  {
    SampleAddressIsValid();
    var cb := NamingCoinbase(c);
    assert ValidateCoinbaseTx(c, Some(cb), 1);
    assert AllTxIns([cb]) == cb.txIns;
    assert !HasDuplicates(AllTxIns([cb]));
  }

  /**
   * A coinbase whose input names a listed output passes validateCoinbaseTx
   * and consumes that output: the list holding ("a", 1) worth 10 becomes the
   * reward alone, worth 50 rather than 60.
   */
  lemma CoinbaseConsumesNamedOutput(c: Crypto)
    ensures var us := [UnspentTxOut("a", 1, SampleAddress(), 10)];
      var cb := NamingCoinbase(c);
      ProcessTransactions(c, [cb], us, 1) == Some([UnspentTxOut(cb.id, 0, SampleAddress(), COINBASE_AMOUNT)])
  {
    var us := [UnspentTxOut("a", 1, SampleAddress(), 10)];
    var cb := NamingCoinbase(c);
    NamingCoinbaseAdmissible(c);
    ConsumedIffSpent([cb], us[0]);
    assert AllTxIns([cb]) == cb.txIns;
    assert OutPoints(AllTxIns([cb])) == [OutPoint("a", 1)];
    assert Filter(us, NotConsumed(ConsumedTxOuts([cb]))) == [];
    assert [cb][1..] == [];
    assert OutputsOf(cb) == [UnspentTxOut(cb.id, 0, SampleAddress(), COINBASE_AMOUNT)];
    assert NewUnspentTxOuts([cb]) == OutputsOf(cb) + NewUnspentTxOuts([]);
    assert UpdateUnspentTxOuts([cb], us) == [UnspentTxOut(cb.id, 0, SampleAddress(), COINBASE_AMOUNT)];
    assert ProcessTransactions(c, [cb], us, 1).Some?;
  }
}
