/**
 * The peer-to-peer layer of P2PServer.js over the shared chain of Global.js:
 * the four messages, the list of open sockets, and the decision taken when a
 * peer answers with blocks (ignore them, append the one new block, ask for the
 * whole chain, or try to replace the chain).
 *
 * Sockets are opaque `Peer` objects. Writing to a socket, broadcasting to all
 * of them and JSON encoding are not modelled: a broadcast is returned as a
 * `Reaction`, and message data is the decoded block list.
 */
module PeerProtocol {
  import opened Basics
  import opened LegacyChain

  const QUERY_LATEST: int := 0
  const QUERY_ALL: int := 1
  const RESPONSE_BLOCKCHAIN: int := 2

  /** A message: its type and its data, the block list or null. */
  datatype Message = Message(msgType: int, data: Option<seq<Block>>)

  function QueryLatestBlockMsg(): Message
  {
    Message(QUERY_LATEST, None)
  }

  function QueryAllBlockMsg(): Message
  {
    Message(QUERY_ALL, None)
  }

  /** A response carrying a one-element list: the tip of the chain. */
  function ResponseLatestBlockMsg(chain: seq<Block>): Message
    requires |chain| > 0
  {
    Message(RESPONSE_BLOCKCHAIN, Some([Last(chain)]))
  }

  function ResponseAllBlockMsg(chain: seq<Block>): Message
  {
    Message(RESPONSE_BLOCKCHAIN, Some(chain))
  }

  /** What the message handler does with a message it receives. */
  datatype Handling = ReplyLatest | ReplyAll | HandleBlocks(blocks: seq<Block>) | Drop

  /** The switch on the message type; a response without data is dropped. */
  function Dispatch(m: Message): Handling
  {
    if m.msgType == QUERY_LATEST then ReplyLatest
    else if m.msgType == QUERY_ALL then ReplyAll
    else if m.msgType == RESPONSE_BLOCKCHAIN then
      match m.data
      case None => Drop
      case Some(blocks) => HandleBlocks(blocks)
    else Drop
  }

  /**
   * Each message the server builds is read back by the handler as the
   * request or answer it stands for: the queries carry no data, and the
   * responses deliver the tip alone or the whole chain.
   */
  lemma MessagesAreUnderstood(chain: seq<Block>)
    requires |chain| > 0
    ensures QueryLatestBlockMsg().data.None? && QueryAllBlockMsg().data.None?
    ensures Dispatch(QueryLatestBlockMsg()) == ReplyLatest
    ensures Dispatch(QueryAllBlockMsg()) == ReplyAll
    ensures Dispatch(ResponseLatestBlockMsg(chain)) == HandleBlocks([chain[|chain| - 1]])
    ensures Dispatch(ResponseAllBlockMsg(chain)) == HandleBlocks(chain)
  {
  }

  /** Whether the server broadcasts a message to every peer after handling a response. */
  datatype Reaction = NoAction | Broadcast(message: Message)

  /**
   * handleBlockchainResponse as a function of the held chain: the chain
   * afterwards and what is broadcast.
   */
  function Reconcile(h: Hasher, held: seq<Block>, receivedBlocks: seq<Block>): (seq<Block>, Reaction)
    requires |held| > 0
  {
    if |receivedBlocks| == 0 then (held, NoAction)
    else
      var latestBlockReceived := Last(receivedBlocks);
      var latestBlockHeld := Last(held);
      if !IsValidBlockStructure(latestBlockReceived) then (held, NoAction)
      else if latestBlockReceived.index <= latestBlockHeld.index then (held, NoAction)
      else if Some(latestBlockHeld.hash) == latestBlockReceived.previousHash then
        if IsValidBlock(h, latestBlockReceived, latestBlockHeld) then
          (held + [latestBlockReceived], Broadcast(ResponseLatestBlockMsg(held + [latestBlockReceived])))
        else (held, NoAction)
      else if |receivedBlocks| == 1 then (held, Broadcast(QueryAllBlockMsg()))
      else
        var replaced := if ChainValid(h, receivedBlocks) && |receivedBlocks| > |held| then receivedBlocks else held;
        (replaced, NoAction)
  }

  /** An empty answer changes nothing and sends nothing. */
  lemma EmptyResponseIgnored(h: Hasher, held: seq<Block>)
    requires |held| > 0
    ensures Reconcile(h, held, []) == (held, NoAction)
  {
  }

  /** An answer whose last block is malformed changes nothing and sends nothing. */
  lemma MalformedTipIgnored(h: Hasher, held: seq<Block>, received: seq<Block>)
    requires |held| > 0 && |received| > 0 && !IsValidBlockStructure(Last(received))
    ensures Reconcile(h, held, received) == (held, NoAction)
  {
  }

  /** An answer whose tip is not above the held tip changes nothing and sends nothing. */
  lemma NotAheadIgnored(h: Hasher, held: seq<Block>, received: seq<Block>)
    requires |held| > 0 && |received| > 0 && Last(received).index <= Last(held).index
    ensures Reconcile(h, held, received) == (held, NoAction)
  {
  }

  /**
   * A higher tip that links to the held tip is offered to addBlockToChain
   * alone: the chain grows by exactly that block when it is valid, and the
   * new tip is broadcast exactly when it was appended.
   */
  lemma LinkedTipAppended(h: Hasher, held: seq<Block>, received: seq<Block>)
    requires |held| > 0 && |received| > 0
    requires IsValidBlockStructure(Last(received)) && Last(received).index > Last(held).index
    requires Last(received).previousHash == Some(Last(held).hash)
    ensures Reconcile(h, held, received).0 ==
      if IsValidBlock(h, Last(received), Last(held)) then held + [Last(received)] else held
    ensures Reconcile(h, held, received).1.Broadcast? <==> IsValidBlock(h, Last(received), Last(held))
    ensures Reconcile(h, held, received).1.Broadcast? ==>
      Reconcile(h, held, received).1.message == Message(RESPONSE_BLOCKCHAIN, Some([Last(received)]))
  {
  }

  /** A single higher block that does not link to the held tip triggers a query for the whole chain. */
  lemma UnlinkedSingleBlockQueriesAll(h: Hasher, held: seq<Block>, b: Block)
    requires |held| > 0
    requires IsValidBlockStructure(b) && b.index > Last(held).index && b.previousHash != Some(Last(held).hash)
    ensures Reconcile(h, held, [b]) == (held, Broadcast(Message(QUERY_ALL, None)))
  {
  }

  /**
   * A longer unlinked answer is offered to replaceChain and nothing is sent:
   * it becomes the chain when it is valid and strictly longer.
   */
  lemma LongerAnswerReplaces(h: Hasher, held: seq<Block>, received: seq<Block>)
    requires |held| > 0 && |received| > 1
    requires IsValidBlockStructure(Last(received)) && Last(received).index > Last(held).index
    requires Last(received).previousHash != Some(Last(held).hash)
    ensures Reconcile(h, held, received) ==
      (if ChainValid(h, received) && |received| > |held| then received else held, NoAction)
  {
  }

  /**
   * Handling an answer never shortens the chain, keeps a valid chain valid,
   * and leaves it as it was, one block longer, or equal to the answer.
   */
  lemma {:induction false} ReconcileKeepsChainValid(h: Hasher, held: seq<Block>, received: seq<Block>)
    requires |held| > 0
    ensures var chain := Reconcile(h, held, received).0;
      && |chain| >= |held|
      && (chain == held || chain == received || (|received| > 0 && chain == held + [Last(received)]))
      && (ChainValid(h, held) ==> ChainValid(h, chain))
  {
    if |received| > 0 && IsValidBlockStructure(Last(received)) && Last(received).index > Last(held).index
       && Some(Last(held).hash) == Last(received).previousHash && IsValidBlock(h, Last(received), Last(held))
       && ChainValid(h, held) {
      ValidChainAppend(h, held, Last(received));
    }
  }

  // ---------------------------------------------------------------------------
  // The socket list
  // ---------------------------------------------------------------------------

  /** indexOf: the first position of `x` in `s`, or -1. */
  function IndexOf<T(==)>(s: seq<T>, x: T): (i: int)
    ensures -1 <= i < |s|
    ensures i == -1 <==> x !in s
    ensures i >= 0 ==> s[i] == x && x !in s[..i]
  {
    if s == [] then -1
    else if s[0] == x then 0
    else
      var j := IndexOf(s[1..], x);
      if j == -1 then -1
      else
        assert s[..j + 1] == [s[0]] + s[1..][..j];
        j + 1
  }

  /**
   * splice(start, 1): removes one element; a negative start counts back from
   * the end, and a start past the end removes nothing.
   */
  function SpliceOne<T>(s: seq<T>, start: int): (r: seq<T>)
    ensures 0 <= start < |s| ==> r == s[..start] + s[start + 1..]
    ensures start == -1 && |s| > 0 ==> r == s[..|s| - 1]
  {
    var k := if start < 0 then (if start + |s| < 0 then 0 else start + |s|) else start;
    if k >= |s| then s else s[..k] + s[k + 1..]
  }

  /** closeConnection as written: splice at indexOf, even when the socket is not listed. */
  function CloseConnectionAsWritten<T(==)>(sockets: seq<T>, ws: T): seq<T>
  {
    SpliceOne(sockets, IndexOf(sockets, ws))
  }

  /**
   * A socket that reports an error and then closes is removed twice; the
   * second removal finds no index and takes the last socket instead, here
   * the other, still open peer 2.
   */
  lemma CloseTwiceDropsAnotherPeer()
    ensures CloseConnectionAsWritten([1, 2], 1) == [2]
    ensures CloseConnectionAsWritten(CloseConnectionAsWritten([1, 2], 1), 1) == []
  {
    assert IndexOf([1, 2], 1) == 0;
    assert [1, 2][..0] + [1, 2][1..] == [2];
    assert 1 !in [2];
  }

  /** Splicing at the first position of an element removes exactly its first occurrence. */
  lemma {:induction false} SpliceAtFirstRemovesFirst<T>(s: seq<T>, x: T, k: nat)
    requires k < |s| && s[k] == x && x !in s[..k]
    ensures s[..k] + s[k + 1..] == RemoveFirst(s, x)
  {
    var t := s[1..];
    assert s == [s[0]] + t;
    if k == 0 {
      assert s[..0] + s[1..] == t;
    } else {
      assert s[0] in s[..k];
      var before := t[..k - 1];
      forall m | 0 <= m < |before|
        ensures before[m] != x
      {
        assert before[m] == s[..k][m + 1];
      }
      assert x !in before;
      SpliceAtFirstRemovesFirst(t, x, k - 1);
      assert s[..k] == [s[0]] + t[..k - 1];
      assert s[k + 1..] == t[k..];
      assert s[..k] + s[k + 1..] == [s[0]] + (t[..k - 1] + t[k..]);
    }
  }

  /** For a listed socket the code as written does what is meant. */
  lemma CloseListedAsWritten<T>(sockets: seq<T>, ws: T)
    requires ws in sockets
    ensures CloseConnectionAsWritten(sockets, ws) == RemoveFirst(sockets, ws)
  {
    var i := IndexOf(sockets, ws);
    assert CloseConnectionAsWritten(sockets, ws) == SpliceOne(sockets, i) == sockets[..i] + sockets[i + 1..];
    SpliceAtFirstRemovesFirst(sockets, ws, i);
  }

  /**
   * Closing a socket listed once removes it and keeps every other socket,
   * and closing it again changes nothing.
   */
  lemma CloseTwiceKeepsOthers<T>(sockets: seq<T>, ws: T)
    requires multiset(sockets)[ws] == 1
    ensures multiset(RemoveFirst(sockets, ws)) == multiset(sockets) - multiset{ws}
    ensures RemoveFirst(RemoveFirst(sockets, ws), ws) == RemoveFirst(sockets, ws)
  {
    assert ws in sockets;
    assert multiset(RemoveFirst(sockets, ws))[ws] == 0;
  }

  /** An open connection to a peer. */
  class Peer {
  }

  class P2PServer {
    const blockchain: Blockchain
    var sockets: seq<Peer>

    /** The shared chain has a tip. */
    predicate Valid()
      reads this, blockchain
    {
      |blockchain.chain| > 0
    }

    constructor(blockchain: Blockchain)
      requires |blockchain.chain| > 0
      ensures this.blockchain == blockchain && sockets == [] && Valid()
    {
      this.blockchain := blockchain;
      sockets := [];
    }

    function GetSockets(): seq<Peer>
      reads this
    {
      sockets
    }

    /** Registers the socket and returns the query for the peer's tip that is written to it. */
    method InitConnection(ws: Peer) returns (m: Message)
      modifies this
      ensures sockets == old(sockets) + [ws]
      ensures blockchain.chain == old(blockchain.chain)
      ensures Valid() == old(Valid())
      ensures m == QueryLatestBlockMsg()
    {
      sockets := sockets + [ws];
      m := QueryLatestBlockMsg();
    }

    /** Removes the socket when it is listed (the first occurrence), and nothing otherwise. */
    method CloseConnection(ws: Peer)
      modifies this
      ensures sockets == RemoveFirst(old(sockets), ws)
      ensures blockchain.chain == old(blockchain.chain)
      ensures Valid() == old(Valid())
    {
      var i := IndexOf(sockets, ws);
      if i >= 0 {
        SpliceAtFirstRemovesFirst(sockets, ws, i);
        sockets := sockets[..i] + sockets[i + 1..];
      }
    }

    /** The answer to a query: the tip or the whole chain. */
    method Reply(m: Message) returns (r: Option<Message>)
      requires Valid()
      ensures r == match Dispatch(m)
        case ReplyLatest => Some(ResponseLatestBlockMsg(blockchain.chain))
        case ReplyAll => Some(ResponseAllBlockMsg(blockchain.chain))
        case _ => None
    {
      if m.msgType == QUERY_LATEST {
        return Some(ResponseLatestBlockMsg(blockchain.GetBlockchain()));
      } else if m.msgType == QUERY_ALL {
        return Some(ResponseAllBlockMsg(blockchain.GetBlockchain()));
      }
      return None;
    }

    /** handleBlockchainResponse: drives the shared chain as Reconcile says. */
    method HandleBlockchainResponse(receivedBlocks: seq<Block>) returns (reaction: Reaction)
      requires Valid()
      modifies blockchain
      ensures (blockchain.chain, reaction) == Reconcile(blockchain.h, old(blockchain.chain), receivedBlocks)
      ensures Valid()
    {
      if |receivedBlocks| == 0 {
        return NoAction;
      }
      var latestBlockReceived := receivedBlocks[|receivedBlocks| - 1];
      if !IsValidBlockStructure(latestBlockReceived) {
        return NoAction;
      }
      var latestBlockHeld := blockchain.GetLatestBlock();
      if latestBlockReceived.index > latestBlockHeld.index {
        if Some(latestBlockHeld.hash) == latestBlockReceived.previousHash {
          var added := blockchain.AddBlockToChain(latestBlockReceived);
          if added {
            return Broadcast(ResponseLatestBlockMsg(blockchain.chain));
          }
          return NoAction;
        } else if |receivedBlocks| == 1 {
          return Broadcast(QueryAllBlockMsg());
        } else {
          blockchain.ReplaceChain(receivedBlocks);
          return NoAction;
        }
      }
      return NoAction;
    }
  }
}
