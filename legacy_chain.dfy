/**
 * The earlier chain of Blockchain.js and Global.js: blocks without proof of
 * work, a `Blockchain` class holding the chain, appending blocks that link to
 * the tip, and replacing the chain by a longer valid one. The genesis block is
 * not checked, so any one-block chain is valid.
 *
 * The block hash is an abstract function of the four hashed fields, and the
 * clock is a parameter.
 */
module LegacyChain {
  import opened Basics

  /**
   * The block data. Blockchain.js accepts only string data; any other JSON
   * value a peer sends is `NonText`.
   */
  datatype Payload = Text(s: string) | NonText

  /** A block of Block.js; the genesis block has no previous hash (null). */
  datatype Block = Block(index: int, timestamp: int, data: Payload, previousHash: Option<string>, hash: string)

  /** SHA-256 of a block's index, timestamp, data and previous hash. */
  type Hasher = (int, int, Payload, Option<string>) -> string

  const GENESIS_TIMESTAMP: int := 1618302806719

  function CalculateHashForBlock(h: Hasher, b: Block): string
  {
    h(b.index, b.timestamp, b.data, b.previousHash)
  }

  /** The Block constructor: the four fields, and the hash computed from them. */
  function NewBlock(h: Hasher, index: int, timestamp: int, data: Payload, previousHash: Option<string>): (b: Block)
    ensures b.index == index && b.timestamp == timestamp && b.data == data && b.previousHash == previousHash
    ensures CalculateHashForBlock(h, b) == b.hash
  {
    var b := Block(index, timestamp, data, previousHash, "");
    b.(hash := CalculateHashForBlock(h, b))
  }

  /** The genesis block of Global.js. */
  function GenesisBlock(h: Hasher): Block
  {
    NewBlock(h, 0, GENESIS_TIMESTAMP, Text("Genesis Block"), None)
  }

  /** String data and a string previous hash (the numeric and hash fields are typed by the model). */
  predicate IsValidBlockStructure(block: Block)
  {
    block.data.Text? && block.previousHash.Some?
  }

  /** The block is well formed, follows `previousBlock` by index and hash, and carries its own hash. */
  predicate IsValidBlock(h: Hasher, currentBlock: Block, previousBlock: Block)
  {
    && IsValidBlockStructure(currentBlock)
    && previousBlock.index + 1 == currentBlock.index
    && Some(previousBlock.hash) == currentBlock.previousHash
    && CalculateHashForBlock(h, currentBlock) == currentBlock.hash
  }

  /** Every block is valid against its predecessor; the first block is not checked. */
  predicate ChainValid(h: Hasher, blocks: seq<Block>)
  {
    forall i :: 1 <= i < |blocks| ==> IsValidBlock(h, blocks[i], blocks[i - 1])
  }

  /** The genesis block has no previous hash, so it would fail the structure check itself. */
  lemma GenesisIsNotWellStructured(h: Hasher)
    ensures !IsValidBlockStructure(GenesisBlock(h))
    ensures ChainValid(h, [GenesisBlock(h)])
  {
  }

  /** A block built on the tip is valid against it exactly when its data is a string. */
  lemma NextBlockValidIffText(h: Hasher, previousBlock: Block, timestamp: int, data: Payload)
    ensures IsValidBlock(h, NewBlock(h, previousBlock.index + 1, timestamp, data, Some(previousBlock.hash)), previousBlock)
      <==> data.Text?
  {
  }

  /** Appending a block that is valid against the tip keeps a valid chain valid. */
  lemma ValidChainAppend(h: Hasher, blocks: seq<Block>, b: Block)
    requires ChainValid(h, blocks) && |blocks| > 0 && IsValidBlock(h, b, Last(blocks))
    ensures ChainValid(h, blocks + [b])
  {
    var s := blocks + [b];
    forall i | 1 <= i < |s|
      ensures IsValidBlock(h, s[i], s[i - 1])
    {
      if i < |blocks| {
        assert s[i] == blocks[i] && s[i - 1] == blocks[i - 1];
      } else {
        assert s[i] == b && s[i - 1] == Last(blocks);
      }
    }
  }

  /** In a valid chain the indices count up by one from the first block. */
  lemma {:induction false} ValidChainHeights(h: Hasher, blocks: seq<Block>)
    requires ChainValid(h, blocks)
    ensures forall i :: 0 <= i < |blocks| ==> blocks[i].index == blocks[0].index + i
  {
    if |blocks| > 1 {
      var prefix := blocks[..|blocks| - 1];
      assert ChainValid(h, prefix) by {
        forall i | 1 <= i < |prefix|
          ensures IsValidBlock(h, prefix[i], prefix[i - 1])
        {
          assert prefix[i] == blocks[i] && prefix[i - 1] == blocks[i - 1];
        }
      }
      ValidChainHeights(h, prefix);
      forall i | 0 <= i < |blocks|
        ensures blocks[i].index == blocks[0].index + i
      {
        if i < |blocks| - 1 {
          assert blocks[i] == prefix[i];
        } else {
          assert IsValidBlock(h, blocks[i], blocks[i - 1]);
          assert blocks[i - 1] == prefix[i - 1];
        }
      }
    }
  }

  class Blockchain {
    const h: Hasher
    var chain: seq<Block>

    constructor(h: Hasher, chain: seq<Block>)
      ensures this.h == h && this.chain == chain
    {
      this.h := h;
      this.chain := chain;
    }

    function GetBlockchain(): seq<Block>
      reads this
    {
      chain
    }

    /** The last block of the chain. */
    function GetLatestBlock(): (b: Block)
      reads this
      requires |chain| > 0
      ensures b in chain && b == chain[|chain| - 1]
    {
      Last(chain)
    }

    /**
     * Builds the block on the tip with the given data and time and offers it
     * to AddBlockToChain; returns it exactly when it was appended, which is
     * exactly when its data is a string.
     */
    method GenerateNextBlock(blockData: Payload, now: int) returns (r: Option<Block>)
      requires |chain| > 0
      modifies this
      ensures r.Some? <==> blockData.Text?
      ensures r.Some? ==> (&& r.value == NewBlock(h, Last(old(chain)).index + 1, now, blockData, Some(Last(old(chain)).hash))
                           && chain == old(chain) + [r.value])
      ensures r.None? ==> chain == old(chain)
      ensures |chain| >= |old(chain)|
      ensures old(ChainValid(h, chain)) ==> ChainValid(h, chain)
    {
      var previousBlock := GetLatestBlock();
      var nextIndex := previousBlock.index + 1;
      var nextTimestamp := now;
      var newBlock := NewBlock(h, nextIndex, nextTimestamp, blockData, Some(previousBlock.hash));
      NextBlockValidIffText(h, previousBlock, nextTimestamp, blockData);
      var added := AddBlockToChain(newBlock);
      if added {
        return Some(newBlock);
      }
      return None;
    }

    /** Appends exactly `newBlock` when it is valid against the tip; otherwise nothing changes. */
    method AddBlockToChain(newBlock: Block) returns (ok: bool)
      requires |chain| > 0
      modifies this
      ensures ok <==> IsValidBlock(h, newBlock, Last(old(chain)))
      ensures chain == if ok then old(chain) + [newBlock] else old(chain)
      ensures |chain| >= |old(chain)|
      ensures old(ChainValid(h, chain)) ==> ChainValid(h, chain)
    {
      if IsValidBlock(h, newBlock, GetLatestBlock()) {
        if ChainValid(h, chain) {
          ValidChainAppend(h, chain, newBlock);
        }
        chain := chain + [newBlock];
        return true;
      }
      return false;
    }

    /** The index loop of isValidChain, stopping at the first invalid pair. */
    method IsValidChain(blockchainToValidate: seq<Block>) returns (r: bool)
      ensures r == ChainValid(h, blockchainToValidate)
    {
      var i := 1;
      while i < |blockchainToValidate|
        invariant 1 <= i
        invariant forall j :: 1 <= j < i && j < |blockchainToValidate| ==>
          IsValidBlock(h, blockchainToValidate[j], blockchainToValidate[j - 1])
      {
        if !IsValidBlock(h, blockchainToValidate[i], blockchainToValidate[i - 1]) {
          return false;
        }
        i := i + 1;
      }
      return true;
    }

    /** Swaps in the candidate when it is valid and strictly longer; otherwise nothing changes. */
    method ReplaceChain(newBlockChain: seq<Block>)
      modifies this
      ensures chain == if ChainValid(h, newBlockChain) && |newBlockChain| > |old(chain)| then newBlockChain else old(chain)
      ensures |chain| >= |old(chain)|
      ensures old(ChainValid(h, chain)) ==> ChainValid(h, chain)
    {
      var valid := IsValidChain(newBlockChain);
      if valid && |newBlockChain| > |GetBlockchain()| {
        chain := newBlockChain;
      }
    }
  }

  /** The shared instance of Global.js: a chain holding only the genesis block. */
  method NewGlobalBlockchain(h: Hasher) returns (b: Blockchain)
    ensures fresh(b) && b.h == h && b.chain == [GenesisBlock(h)]
  {
    b := new Blockchain(h, [GenesisBlock(h)]);
  }
}
