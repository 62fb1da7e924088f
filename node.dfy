/**
 * The module-level state of src/Blockchain.js: the chain and the unspent
 * outputs it replays to. Blocks are admitted all or nothing
 * (`addBlockToChain`), the chain is replaced by a candidate with more
 * accumulated work (`replaceChain`), and new blocks are mined on top of the
 * tip from a coinbase and the pool (`generateNextBlock`). After every accepted
 * change the transaction pool is revalidated against the new unspent outputs.
 *
 * The wallet key that receives the coinbase and the clock are parameters;
 * persistence of the chain to disk is not modelled.
 */
module Node {
  import opened Basics
  import opened Crypto
  import opened Transactions
  import opened Chain
  import opened Pool

  /** Both chains are non-empty with non-negative difficulties, and the first has strictly more work. */
  predicate HasMoreWork(candidate: seq<Block>, current: seq<Block>)
  {
    && |candidate| > 0 && NonNegativeDifficulties(candidate)
    && |current| > 0 && NonNegativeDifficulties(current)
    && GetAccumulatedDifficulty(candidate) > GetAccumulatedDifficulty(current)
  }

  class Node {
    const c: Crypto
    const hb: BlockHasher
    const pool: TransactionPool
    var chain: seq<Block>
    var unspentTxOuts: seq<UnspentTxOut>

    /**
     * The chain is anchored at genesis and linked, its difficulties are
     * non-negative, and the unspent outputs are exactly what replaying the
     * whole chain from the empty list gives.
     */
    predicate Valid()
      reads this, pool
    {
      && IsLinkedChain(c, hb, chain)
      && NonNegativeDifficulties(chain)
      && Replay(c, chain) == Some(unspentTxOuts)
      && pool.Valid()
    }

    /** initBlockchain when no chain is stored: the genesis block and its replay. */
    constructor(c: Crypto, hb: BlockHasher)
      ensures Valid()
      ensures this.c == c && this.hb == hb
      ensures chain == [GenesisBlock(c, hb)]
      ensures unspentTxOuts == [UnspentTxOut(GenesisTransaction(c).id, 0, SampleAddress(), COINBASE_AMOUNT)]
      ensures fresh(pool) && pool.transactionPool == []
    {
      this.c := c;
      this.hb := hb;
      pool := new TransactionPool();
      var genesis := [GenesisBlock(c, hb)];
      GenesisReplay(c, hb);
      var replayed := ProcessChain(c, genesis);
      chain := genesis;
      unspentTxOuts := replayed.value;
    }

    /** The last block; in a valid node its index is the chain height. */
    function GetLatestBlock(): (b: Block)
      reads this, pool
      requires Valid()
      ensures b == chain[|chain| - 1] && b.index == |chain| - 1
    {
      LinkedChainHeights(c, hb, chain);
      Last(chain)
    }

    /** getDifficulty on the current chain, defined on every valid node. */
    function NextDifficulty(): int
      reads this, pool
      requires Valid()
    {
      LinkedChainHasDifficulty(c, hb, chain);
      GetDifficulty(chain).value
    }

    /** The block generateNextBlock builds at a given nonce. */
    function NextBlockWith(myAddress: string, now: int, nonce: int): Block
      reads this, pool
      requires Valid()
    {
      var previousBlock := Last(chain);
      var coinbaseTx := GetCoinbaseTransaction(c, myAddress, previousBlock.index + 1);
      NewBlock(hb, previousBlock.index + 1, now, [coinbaseTx] + pool.transactionPool,
               Some(previousBlock.hash), NextDifficulty(), nonce)
    }

    /**
     * Mines the next block: index and previous hash from the tip, the coinbase
     * for the next height followed by the pool, the current difficulty, and the
     * least nonce that meets it. The ghost `bound` is a nonce known to work.
     */
    method GenerateNextBlock(myAddress: string, now: int, ghost bound: nat) returns (b: Block)
      requires Valid()
      requires HashMatchesDifficulty(NextBlockWith(myAddress, now, bound).hash, NextDifficulty())
      ensures b.index == Last(chain).index + 1 && b.previousHash == Some(Last(chain).hash)
      ensures b.timestamp == now && b.difficulty == NextDifficulty()
      ensures b.data == [GetCoinbaseTransaction(c, myAddress, Last(chain).index + 1)] + pool.transactionPool
      ensures b == NextBlockWith(myAddress, now, b.nonce)
      ensures 0 <= b.nonce <= bound && HashMatchesDifficulty(b.hash, b.difficulty)
      ensures forall n :: 0 <= n < b.nonce ==> !HashMatchesDifficulty(NextBlockWith(myAddress, now, n).hash, NextDifficulty())
      ensures Last(chain).timestamp - TIMESTAMP_TOLERANCE < now ==> IsValidBlock(hb, b, Last(chain), now)
    {
      var previousBlock := Last(chain);
      var coinbaseTx := GetCoinbaseTransaction(c, myAddress, previousBlock.index + 1);
      var poolTxs := pool.GetTransactionPool();
      var blockData := [coinbaseTx] + poolTxs;
      var nextIndex := previousBlock.index + 1;
      var difficulty := NextDifficulty();
      b := FindBlock(hb, nextIndex, now, blockData, Some(previousBlock.hash), difficulty, bound);
    }

    /**
     * Appends the block when it is valid against the tip and its transactions
     * are admitted; then the unspent outputs become the admitted list and the
     * pool is revalidated. Otherwise nothing changes.
     */
    method AddBlockToChain(newBlock: Block, now: int) returns (ok: bool)
      requires Valid()
      modifies this, pool
      ensures ok <==> (&& IsValidBlock(hb, newBlock, Last(old(chain)), now)
                       && ProcessTransactions(c, newBlock.data, old(unspentTxOuts), newBlock.index).Some?)
      ensures ok ==> (&& chain == old(chain) + [newBlock]
                      && unspentTxOuts == ProcessTransactions(c, newBlock.data, old(unspentTxOuts), newBlock.index).value
                      && pool.transactionPool == Filter(old(pool.transactionPool), StillSpendable(unspentTxOuts)))
      ensures !ok ==> (&& chain == old(chain) && unspentTxOuts == old(unspentTxOuts)
                       && pool.transactionPool == old(pool.transactionPool))
      ensures old(IsValidChain(c, hb, chain, now)) ==> IsValidChain(c, hb, chain, now)
      ensures Valid()
    {
      if IsValidBlock(hb, newBlock, Last(chain), now) {
        var updateUnspentTxOuts := ProcessTransactions(c, newBlock.data, unspentTxOuts, newBlock.index);
        if updateUnspentTxOuts.None? {
          return false;
        }
        if IsValidChain(c, hb, chain, now) {
          ValidChainAppend(c, hb, chain, newBlock, now);
        }
        LinkedChainAppend(c, hb, chain, newBlock);
        WorkAppend(chain, newBlock);
        ReplayAppend(c, chain, newBlock);
        chain := chain + [newBlock];
        unspentTxOuts := updateUnspentTxOuts.value;
        pool.UpdateTransactionPool(unspentTxOuts);
        return true;
      }
      return false;
    }

    /**
     * Replaces the chain by a valid candidate with strictly more accumulated
     * work whose replay succeeds; then the unspent outputs become the replayed
     * list and the pool is revalidated. Otherwise nothing changes.
     */
    method ReplaceChain(newBlockChain: seq<Block>, now: int) returns (ok: bool)
      requires Valid()
      modifies this, pool
      ensures ok <==> (&& IsValidChain(c, hb, newBlockChain, now)
                       && HasMoreWork(newBlockChain, old(chain))
                       && Replay(c, newBlockChain).Some?)
      ensures ok ==> (&& chain == newBlockChain && Some(unspentTxOuts) == Replay(c, newBlockChain)
                      && pool.transactionPool == Filter(old(pool.transactionPool), StillSpendable(unspentTxOuts)))
      ensures !ok ==> (&& chain == old(chain) && unspentTxOuts == old(unspentTxOuts)
                       && pool.transactionPool == old(pool.transactionPool))
      ensures Valid()
    {
      if IsValidChain(c, hb, newBlockChain, now) {
        ValidChainIsLinked(c, hb, newBlockChain, now);
        LinkedChainHeights(c, hb, newBlockChain);
        if GetAccumulatedDifficulty(newBlockChain) > GetAccumulatedDifficulty(chain) {
          var updateUnspentTxOuts := ProcessChain(c, newBlockChain);
          if updateUnspentTxOuts.None? {
            return false;
          }
          chain := newBlockChain;
          unspentTxOuts := updateUnspentTxOuts.value;
          pool.UpdateTransactionPool(updateUnspentTxOuts.value);
          return true;
        }
      }
      return false;
    }
  }

  /** Admitting a block strictly raises the accumulated work of a chain. */
  lemma AddedBlockRaisesWork(chain: seq<Block>, b: Block)
    requires |chain| > 0 && NonNegativeDifficulties(chain) && b.difficulty >= 0
    ensures HasMoreWork(chain + [b], chain)
  {
    WorkAppend(chain, b);
  }
}
