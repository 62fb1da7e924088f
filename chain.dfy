/**
 * The chain engine of src/Blockchain.js, apart from its module-level state
 * (that is the class in node.dfy): blocks carrying transactions, the
 * proof-of-work predicate and nonce search, difficulty retargeting, block and
 * chain validity, accumulated work, and the replay of a whole chain into an
 * unspent-output list.
 *
 * The block hash is a `BlockHasher` parameter standing for SHA-256 over the
 * six header fields; `Date.now()` is a `now` parameter.
 */
module Chain {
  import opened Basics
  import opened Crypto
  import opened Transactions

  /** SHA-256 of (index, timestamp, data, previousHash, difficulty, nonce), as hex. */
  type BlockHasher = (int, int, seq<Transaction>, Option<string>, int, int) -> string

  /** `previousHash` is None for the source's `null` (the genesis block). */
  datatype Block = Block(
    index: int,
    timestamp: int,
    data: seq<Transaction>,
    previousHash: Option<string>,
    difficulty: int,
    nonce: int,
    hash: string)

  /** How often, in timestamp units, a block should be found (src/Blockchain.js:63). */
  const BLOCK_GENERATION_INTERVAL: int := 10
  /** How often, in blocks, the difficulty is adjusted (src/Blockchain.js:65). */
  const DIFFICULTY_ADJUSTMENT_INTERVAL: int := 10
  /** Tolerance of the timestamp check (src/Blockchain.js:198-199). */
  const TIMESTAMP_TOLERANCE: int := 60

  const GENESIS_TIMESTAMP: int := 1618302806719
  const GENESIS_DIFFICULTY: int := 5

  function CalculateHashForBlock(hb: BlockHasher, b: Block): string
  {
    hb(b.index, b.timestamp, b.data, b.previousHash, b.difficulty, b.nonce)
  }

  /** The Block constructor: the fields as given and the hash computed over them. */
  function NewBlock(hb: BlockHasher, index: int, timestamp: int, data: seq<Transaction>,
                    previousHash: Option<string>, difficulty: int, nonce: int): (b: Block)
    ensures b.index == index && b.timestamp == timestamp && b.data == data
    ensures b.previousHash == previousHash && b.difficulty == difficulty && b.nonce == nonce
    ensures b.hash == CalculateHashForBlock(hb, b)
  {
    Block(index, timestamp, data, previousHash, difficulty, nonce,
          hb(index, timestamp, data, previousHash, difficulty, nonce))
  }

  /**
   * The genesis transaction comes from src/Transaction.js, which is not part of
   * this model: it is taken to be the height-0 coinbase paying a fixed address.
   */
  function GenesisTransaction(c: Crypto): Transaction
  {
    GetCoinbaseTransaction(c, SampleAddress(), 0)
  }

  /** src/Blockchain.js:45-52. */
  function GenesisBlock(c: Crypto, hb: BlockHasher): Block
  {
    NewBlock(hb, 0, GENESIS_TIMESTAMP, [GenesisTransaction(c)], None, GENESIS_DIFFICULTY, 0)
  }

  // ---------------------------------------------------------------------------
  // Proof of work (src/Blockchain.js:92-109)
  // ---------------------------------------------------------------------------

  function Zeros(n: nat): (r: string)
    ensures |r| == n && forall j :: 0 <= j < n ==> r[j] == '0'
  {
    seq(n, _ => '0')
  }

  predicate StartsWith(s: string, prefix: string)
  {
    |prefix| <= |s| && s[..|prefix|] == prefix
  }

  /**
   * The binary form of the hash starts with `difficulty` zeros. A hash that is
   * not hex (for which the source's `null.startsWith` throws), or a negative
   * difficulty (for which '0'.repeat throws), does not match.
   */
  function HashMatchesDifficulty(hash: string, difficulty: int): (r: bool)
    ensures r <==> (&& difficulty >= 0
                    && HexToBinary(hash).Some?
                    && |HexToBinary(hash).value| >= difficulty
                    && forall j :: 0 <= j < difficulty ==> HexToBinary(hash).value[j] == '0')
  {
    if difficulty < 0 then false
    else match HexToBinary(hash)
      case None => false
      case Some(bits) =>
        StartsWithZerosIff(bits, difficulty);
        StartsWith(bits, Zeros(difficulty))
  }

  lemma StartsWithZerosIff(bits: string, n: nat)
    ensures StartsWith(bits, Zeros(n)) <==> |bits| >= n && forall j :: 0 <= j < n ==> bits[j] == '0'
  {
    if |bits| >= n && forall j :: 0 <= j < n ==> bits[j] == '0' {
      assert bits[..n] == Zeros(n);
    }
  }

  /** A hash that meets a difficulty meets every smaller non-negative one. */
  lemma HashMatchesSmallerDifficulty(hash: string, d: int, e: int)
    requires HashMatchesDifficulty(hash, d) && 0 <= e <= d
    ensures HashMatchesDifficulty(hash, e)
  {
  }

  /** A hex hash whose first k digits are '0' meets every difficulty up to 4k. */
  lemma LeadingZeroDigitsMeetDifficulty(hash: string, k: nat, d: int)
    requires forall i :: 0 <= i < |hash| ==> IsHexDigit(hash[i])
    requires k <= |hash| && forall i :: 0 <= i < k ==> hash[i] == '0'
    requires 0 <= d <= 4 * k
    ensures HashMatchesDifficulty(hash, d)
  {
    ZeroHexDigitsGiveZeroBits(hash, k);
  }

  /**
   * The nonce search: tries nonces 0, 1, 2, ... and returns the first block
   * whose hash meets the difficulty. The source loops forever when no nonce
   * works; the ghost `bound` names a nonce that does, which bounds the loop.
   */
  method FindBlock(hb: BlockHasher, index: int, timestamp: int, data: seq<Transaction>,
                   previousHash: Option<string>, difficulty: int, ghost bound: nat) returns (b: Block)
    requires HashMatchesDifficulty(hb(index, timestamp, data, previousHash, difficulty, bound), difficulty)
    ensures b == NewBlock(hb, index, timestamp, data, previousHash, difficulty, b.nonce)
    ensures 0 <= b.nonce <= bound && HashMatchesDifficulty(b.hash, difficulty)
    ensures forall n :: 0 <= n < b.nonce ==>
      !HashMatchesDifficulty(hb(index, timestamp, data, previousHash, difficulty, n), difficulty)
  {
    var nonce := 0;
    while true
      invariant 0 <= nonce <= bound
      invariant forall n :: 0 <= n < nonce ==>
        !HashMatchesDifficulty(hb(index, timestamp, data, previousHash, difficulty, n), difficulty)
      decreases bound - nonce
    {
      var block := NewBlock(hb, index, timestamp, data, previousHash, difficulty, nonce);
      if HashMatchesDifficulty(block.hash, difficulty) {
        return block;
      }
      nonce := nonce + 1;
    }
  }

  // ---------------------------------------------------------------------------
  // Difficulty (src/Blockchain.js:63-89)
  // ---------------------------------------------------------------------------

  /**
   * The difficulty of the block DIFFICULTY_ADJUSTMENT_INTERVAL positions back
   * from the end of the chain (the code reads chain[chain.length - 10]), moved
   * one step up when the blocks since then came faster than half the expected
   * time, one step down when slower than twice, kept otherwise. It can go
   * below zero.
   */
  function PrevAdjustmentBlock(chain: seq<Block>): Block
    requires |chain| >= DIFFICULTY_ADJUSTMENT_INTERVAL
  {
    chain[|chain| - DIFFICULTY_ADJUSTMENT_INTERVAL]
  }

  function TimeTaken(chain: seq<Block>): int
    requires |chain| >= DIFFICULTY_ADJUSTMENT_INTERVAL
  {
    Last(chain).timestamp - PrevAdjustmentBlock(chain).timestamp
  }

  function GetAdjustedDifficulty(chain: seq<Block>): (r: int)
    requires |chain| >= DIFFICULTY_ADJUSTMENT_INTERVAL
    ensures PrevAdjustmentBlock(chain).difficulty - 1 <= r <= PrevAdjustmentBlock(chain).difficulty + 1
    ensures r > PrevAdjustmentBlock(chain).difficulty <==> TimeTaken(chain) < 50
    ensures r < PrevAdjustmentBlock(chain).difficulty <==> TimeTaken(chain) > 200
  {
    var latestBlock := Last(chain);
    var prevAdjustmentBlock := chain[|chain| - DIFFICULTY_ADJUSTMENT_INTERVAL];
    var timeExpected := BLOCK_GENERATION_INTERVAL * DIFFICULTY_ADJUSTMENT_INTERVAL;
    var timeTaken := latestBlock.timestamp - prevAdjustmentBlock.timestamp;
    if timeTaken < timeExpected / 2 then prevAdjustmentBlock.difficulty + 1
    else if timeTaken > timeExpected * 2 then prevAdjustmentBlock.difficulty - 1
    else prevAdjustmentBlock.difficulty
  }

  /** The latest index is a (non-zero) multiple of the adjustment interval. */
  predicate IsRetargetHeight(index: int)
  {
    index != 0 && index % DIFFICULTY_ADJUSTMENT_INTERVAL == 0
  }

  /**
   * The difficulty for the next block. None stands for the TypeError the
   * source raises when it retargets on a chain shorter than the interval.
   */
  function GetDifficulty(chain: seq<Block>): (r: Option<int>)
    requires |chain| > 0
    ensures !IsRetargetHeight(Last(chain).index) ==> r == Some(Last(chain).difficulty)
    ensures IsRetargetHeight(Last(chain).index) && |chain| >= DIFFICULTY_ADJUSTMENT_INTERVAL ==>
      r == Some(GetAdjustedDifficulty(chain))
    ensures r.None? <==> IsRetargetHeight(Last(chain).index) && |chain| < DIFFICULTY_ADJUSTMENT_INTERVAL
  {
    var latestBlock := Last(chain);
    if IsRetargetHeight(latestBlock.index) then
      if |chain| >= DIFFICULTY_ADJUSTMENT_INTERVAL then Some(GetAdjustedDifficulty(chain)) else None
    else Some(latestBlock.difficulty)
  }

  // ---------------------------------------------------------------------------
  // Block validity (src/Blockchain.js:188-235)
  // ---------------------------------------------------------------------------

  /**
   * The typeof checks on index, timestamp, data and hash hold of every value of
   * the typed record; what remains is that previousHash is a string, not null.
   */
  predicate IsValidBlockStructure(block: Block)
  {
    block.previousHash.Some?
  }

  predicate IsValidTimestamp(newBlock: Block, previousBlock: Block, now: int)
  {
    previousBlock.timestamp - TIMESTAMP_TOLERANCE < newBlock.timestamp
    && newBlock.timestamp - TIMESTAMP_TOLERANCE < now
  }

  function IsValidBlock(hb: BlockHasher, currentBlock: Block, previousBlock: Block, now: int): (r: bool)
    ensures r <==> (&& currentBlock.index == previousBlock.index + 1
                    && currentBlock.previousHash == Some(previousBlock.hash)
                    && previousBlock.timestamp - TIMESTAMP_TOLERANCE < currentBlock.timestamp
                    && currentBlock.timestamp - TIMESTAMP_TOLERANCE < now
                    && HashMatchesDifficulty(currentBlock.hash, currentBlock.difficulty)
                    && currentBlock.hash == CalculateHashForBlock(hb, currentBlock))
  {
    if !IsValidBlockStructure(currentBlock) then false
    else if previousBlock.index + 1 != currentBlock.index then false
    else if Some(previousBlock.hash) != currentBlock.previousHash then false
    else if !IsValidTimestamp(currentBlock, previousBlock, now) then false
    else if !HashMatchesDifficulty(currentBlock.hash, currentBlock.difficulty) then false
    else if CalculateHashForBlock(hb, currentBlock) != currentBlock.hash then false
    else true
  }

  /**
   * The part of block validity that does not read the clock: what a block keeps
   * of `isValidBlock` once it is in the chain, whatever the time.
   */
  predicate Extends(hb: BlockHasher, b: Block, prev: Block)
  {
    && b.index == prev.index + 1
    && b.previousHash == Some(prev.hash)
    && prev.timestamp - TIMESTAMP_TOLERANCE < b.timestamp
    && HashMatchesDifficulty(b.hash, b.difficulty)
    && b.hash == CalculateHashForBlock(hb, b)
  }

  // ---------------------------------------------------------------------------
  // Chain validity (src/Blockchain.js:237-252)
  // ---------------------------------------------------------------------------

  /** JSON.stringify equality of the first block with the genesis block is modelled as equality. */
  predicate IsValidChain(c: Crypto, hb: BlockHasher, blockchainToValidate: seq<Block>, now: int)
  {
    && |blockchainToValidate| > 0
    && blockchainToValidate[0] == GenesisBlock(c, hb)
    && forall i :: 1 <= i < |blockchainToValidate| ==>
         IsValidBlock(hb, blockchainToValidate[i], blockchainToValidate[i - 1], now)
  }

  /** A chain anchored at the genesis block in which every block extends its predecessor. */
  predicate IsLinkedChain(c: Crypto, hb: BlockHasher, chain: seq<Block>)
  {
    && |chain| > 0
    && chain[0] == GenesisBlock(c, hb)
    && forall i :: 1 <= i < |chain| ==> Extends(hb, chain[i], chain[i - 1])
  }

  /** A chain valid at some time is linked. */
  lemma ValidChainIsLinked(c: Crypto, hb: BlockHasher, chain: seq<Block>, now: int)
    requires IsValidChain(c, hb, chain, now)
    ensures IsLinkedChain(c, hb, chain)
  {
    forall i | 1 <= i < |chain|
      ensures Extends(hb, chain[i], chain[i - 1])
    {
      assert IsValidBlock(hb, chain[i], chain[i - 1], now);
    }
  }

  /** A chain valid now stays valid at every later time. */
  lemma ValidChainStaysValid(c: Crypto, hb: BlockHasher, chain: seq<Block>, now: int, later: int)
    requires IsValidChain(c, hb, chain, now) && now <= later
    ensures IsValidChain(c, hb, chain, later)
  {
    forall i | 1 <= i < |chain|
      ensures IsValidBlock(hb, chain[i], chain[i - 1], later)
    {
      assert IsValidBlock(hb, chain[i], chain[i - 1], now);
    }
  }

  /** In a linked chain every block's index is its height, and every difficulty is non-negative. */
  lemma {:induction false} LinkedChainHeights(c: Crypto, hb: BlockHasher, chain: seq<Block>)
    requires IsLinkedChain(c, hb, chain)
    ensures forall i :: 0 <= i < |chain| ==> chain[i].index == i
    ensures forall i :: 0 <= i < |chain| ==> chain[i].difficulty >= 0
  {
    if |chain| > 1 {
      var front := chain[..|chain| - 1];
      assert IsLinkedChain(c, hb, front) by {
        forall i | 1 <= i < |front|
          ensures Extends(hb, front[i], front[i - 1])
        {
          assert front[i] == chain[i] && front[i - 1] == chain[i - 1];
        }
      }
      LinkedChainHeights(c, hb, front);
      assert Extends(hb, chain[|chain| - 1], chain[|chain| - 2]);
      forall i | 0 <= i < |chain| - 1
        ensures chain[i].index == i && chain[i].difficulty >= 0
      {
        assert chain[i] == front[i];
      }
    }
  }

  /** Appending a block valid against the tip keeps a chain valid. */
  lemma ValidChainAppend(c: Crypto, hb: BlockHasher, chain: seq<Block>, b: Block, now: int)
    requires IsValidChain(c, hb, chain, now)
    requires IsValidBlock(hb, b, Last(chain), now)
    ensures IsValidChain(c, hb, chain + [b], now)
  {
    var ext := chain + [b];
    forall i | 1 <= i < |ext|
      ensures IsValidBlock(hb, ext[i], ext[i - 1], now)
    {
      if i < |chain| {
        assert ext[i] == chain[i] && ext[i - 1] == chain[i - 1];
      }
    }
  }

  /** Appending a block that extends the tip keeps a chain linked. */
  lemma LinkedChainAppend(c: Crypto, hb: BlockHasher, chain: seq<Block>, b: Block)
    requires IsLinkedChain(c, hb, chain)
    requires Extends(hb, b, Last(chain))
    ensures IsLinkedChain(c, hb, chain + [b])
  {
    var ext := chain + [b];
    forall i | 1 <= i < |ext|
      ensures Extends(hb, ext[i], ext[i - 1])
    {
      if i < |chain| {
        assert ext[i] == chain[i] && ext[i - 1] == chain[i - 1];
      }
    }
  }

  /** On a linked chain the next difficulty is always defined. */
  lemma LinkedChainHasDifficulty(c: Crypto, hb: BlockHasher, chain: seq<Block>)
    requires IsLinkedChain(c, hb, chain)
    ensures GetDifficulty(chain).Some?
  {
    LinkedChainHeights(c, hb, chain);
    var latest := Last(chain);
    if IsRetargetHeight(latest.index) {
      assert latest.index == |chain| - 1;
      assert latest.index >= DIFFICULTY_ADJUSTMENT_INTERVAL;
    }
  }

  // ---------------------------------------------------------------------------
  // Accumulated work (src/Blockchain.js:146-151)
  // ---------------------------------------------------------------------------

  predicate NonNegativeDifficulties(chain: seq<Block>)
  {
    forall i :: 0 <= i < |chain| ==> chain[i].difficulty >= 0
  }

  /** The sum of 2^difficulty over the blocks, from the front. */
  function Work(chain: seq<Block>): nat
    requires NonNegativeDifficulties(chain)
  {
    if chain == [] then 0 else Work(chain[..|chain| - 1]) + Pow2(Last(chain).difficulty)
  }

  /**
   * The map to 2^difficulty reduced with `+`. The source's reduce has no
   * initial value, so it throws on an empty chain; Math.pow is taken at
   * non-negative integer exponents only, where it is exact.
   */
  function GetAccumulatedDifficulty(aBlockchain: seq<Block>): (r: nat)
    requires |aBlockchain| > 0 && NonNegativeDifficulties(aBlockchain)
    ensures r >= |aBlockchain|
    ensures r >= Pow2(Last(aBlockchain).difficulty)
  {
    WorkAtLeastLength(aBlockchain);
    Work(aBlockchain)
  }

  lemma {:induction false} WorkAtLeastLength(chain: seq<Block>)
    requires NonNegativeDifficulties(chain)
    ensures Work(chain) >= |chain|
  {
    if chain != [] {
      WorkAtLeastLength(chain[..|chain| - 1]);
    }
  }

  /** Extending a chain by one block adds that block's 2^difficulty, so it strictly raises the work. */
  lemma WorkAppend(chain: seq<Block>, b: Block)
    requires NonNegativeDifficulties(chain) && b.difficulty >= 0
    ensures NonNegativeDifficulties(chain + [b])
    ensures Work(chain + [b]) == Work(chain) + Pow2(b.difficulty)
    ensures Work(chain + [b]) > Work(chain)
  {
    assert (chain + [b])[..|chain|] == chain;
  }

  // ---------------------------------------------------------------------------
  // Replay (src/Blockchain.js:153-168)
  // ---------------------------------------------------------------------------

  /**
   * The unspent-output list obtained by admitting the blocks' transactions one
   * block after the other from the empty list; None as soon as one block is
   * refused.
   */
  function Replay(c: Crypto, blocks: seq<Block>): Option<seq<UnspentTxOut>>
  {
    if blocks == [] then Some([])
    else match Replay(c, blocks[..|blocks| - 1])
      case None => None
      case Some(u) => ProcessTransactions(c, Last(blocks).data, u, Last(blocks).index)
  }

  /** Replaying one more block admits its transactions on top of the replayed list. */
  lemma ReplayAppend(c: Crypto, chain: seq<Block>, b: Block)
    ensures Replay(c, chain + [b]) ==
      match Replay(c, chain)
      case None => None
      case Some(u) => ProcessTransactions(c, b.data, u, b.index)
  {
    assert (chain + [b])[..|chain|] == chain;
  }

  /** A chain whose prefix is refused is refused. */
  lemma {:induction false} ReplayRefusedPrefix(c: Crypto, chain: seq<Block>, k: nat)
    requires k <= |chain| && Replay(c, chain[..k]).None?
    ensures Replay(c, chain).None?
    decreases |chain| - k
  {
    if k == |chain| {
      assert chain[..k] == chain;
    } else {
      var longer := chain[..k + 1];
      assert longer[..k] == chain[..k];
      assert Replay(c, longer).None?;
      ReplayRefusedPrefix(c, chain, k + 1);
    }
  }

  /** Every entry of a replayed list has a non-negative amount. */
  lemma {:induction false} ReplayAmountsNonNegative(c: Crypto, chain: seq<Block>)
    requires Replay(c, chain).Some?
    ensures AllAmountsNonNegative(Replay(c, chain).value)
  {
    if chain != [] {
      var front := chain[..|chain| - 1];
      ReplayAmountsNonNegative(c, front);
      ProcessTransactionsKeepsAmountsNonNegative(c, Last(chain).data, Replay(c, front).value, Last(chain).index);
    }
  }

  /** The genesis block replays to the single reward output it pays. */
  lemma GenesisReplay(c: Crypto, hb: BlockHasher)
    ensures Replay(c, [GenesisBlock(c, hb)]) ==
      Some([UnspentTxOut(GenesisTransaction(c).id, 0, SampleAddress(), COINBASE_AMOUNT)])
  {
    var g := GenesisBlock(c, hb);
    SampleAddressIsValid();
    CoinbaseOnlyBlockAccepted(c, SampleAddress(), [], 0);
    assert [g][..0] == [];
    assert Replay(c, [g]) == ProcessTransactions(c, g.data, [], 0);
    var u := UnspentTxOut(GenesisTransaction(c).id, 0, SampleAddress(), COINBASE_AMOUNT);
    assert [] + [u] == [u];
  }

  /** The for loop of processChain, folding the list block by block. */
  method ProcessChain(c: Crypto, newBlockchain: seq<Block>) returns (r: Option<seq<UnspentTxOut>>)
    ensures r == Replay(c, newBlockchain)
  {
    var aUnspentTxOuts: seq<UnspentTxOut> := [];
    for i := 0 to |newBlockchain|
      invariant Replay(c, newBlockchain[..i]) == Some(aUnspentTxOuts)
    {
      var currentBlock := newBlockchain[i];
      ReplayAppend(c, newBlockchain[..i], currentBlock);
      assert newBlockchain[..i + 1] == newBlockchain[..i] + [currentBlock];
      var next := ProcessTransactions(c, currentBlock.data, aUnspentTxOuts, currentBlock.index);
      if next.None? {
        ReplayRefusedPrefix(c, newBlockchain, i + 1);
        return None;
      }
      aUnspentTxOuts := next.value;
    }
    assert newBlockchain[..|newBlockchain|] == newBlockchain;
    return Some(aUnspentTxOuts);
  }
}
