# happeecoin ledger and consensus, in Dafny

happeecoin is a small UTXO cryptocurrency node written in JavaScript. Its
repository holds two stages of the code: the files at the root are the earlier
stage, and the files under `src/` are the later one. This project models the
ledger and consensus core of both stages and proves properties of it:

- **Transactions** (`transaction.dfy`, Transaction.js):
  - transaction ids and the coinbase (reward) transaction;
  - lookup in the unspent-output list and its update by a block;
  - the address format and the structural checks;
  - input validation and per-transaction value conservation;
  - the block-admission pipeline `processTransactions`.
- **Chain engine** (`chain.dfy`, `node.dfy`, src/Blockchain.js):
  - proof of work, the least-nonce search and difficulty retargeting;
  - block and chain validity, and accumulated work (the sum of 2^difficulty);
  - replay of a whole chain into an unspent-output list;
  - the node's mutable state: the chain, its unspent outputs and the pool, with all-or-nothing `addBlockToChain` and the most-work `replaceChain`.
- **Transaction pool** (`pool.dfy`, src/TransactionPool.js): the first-seen-wins conflict guard, and revalidation against a new unspent list.
- **Wallets** (`wallet.dfy` for src/Wallet.js, `legacy_wallet.dfy` for Wallet.js):
  - the balance;
  - greedy prefix coin selection, which in the later wallet skips outputs the pool already spends;
  - change outputs and payment construction.
- **Earlier chain class** (`legacy_chain.dfy`, Blockchain.js and Global.js): append by linkage and replacement by length.
- **Peer protocol** (`p2p.dfy`, P2PServer.js):
  - the four messages;
  - the socket list;
  - the decision taken on a peer's blocks.

`basics.dfy` holds the list helpers the code takes from JavaScript and lodash
(filter, sum, `without`, remove-first). `crypto.dfy` holds the hex-to-binary
expansion and the abstract cryptography.

SHA-256 and ECDSA are not computed. They are a `Crypto` value passed to every
operation that needs them, and the block hash is a function parameter:
- `BlockHasher` for the later blocks;
- `LegacyChain.Hasher` for the earlier ones.

The clock (`Date.now()`) is a `now` parameter. The wallet's own address and
its signatures are parameters too.

## Model

| member | source | states |
|---|---|---|
| Transactions.TransactionIdIgnoresSignatures | Transaction.js:18-28 | Two transactions with the same ordered input outpoints and the same outputs have the same id, so signatures never change an id. |
| Transactions.TxInContentDependsOnOutPoints | Transaction.js:19-22 | The hashed input content depends only on each input's (prior id, index), in order. |
| Transactions.WithSignatures | src/Wallet.js:140-143 | Setting signatures keeps the length and every outpoint and puts the k-th signature on input k. |
| Transactions.GetCoinbaseTransaction | Transaction.js:30-41 | The coinbase has one input with empty prior id and signature, indexed by the block height. It has one output of 50 to the address, and its id is its recomputed id. |
| Transactions.CoinbaseIsValid | Transaction.js:30-41 | Every coinbase built for a height passes the coinbase check at that height. It is structurally valid exactly when its address is. |
| Transactions.CoinbaseCheckIff | Transaction.js:197-223 | The coinbase check holds exactly when the transaction exists, has its recomputed id, has one input indexed by the height, and has one output of 50. |
| Transactions.CoinbaseBoundToHeight | Transaction.js:210-213 | A coinbase accepted at one height is refused at every other height. |
| Transactions.FindUnspentTxOut | Transaction.js:43-50 | It returns nothing exactly when no entry names the outpoint. Otherwise it returns the first entry that does. |
| Transactions.FindIffListed | Transaction.js:43-50 | Lookup succeeds exactly when the outpoint is among the list's outpoints. |
| Transactions.FindListedEntry | Transaction.js:43-50 | In a list whose outpoints are unique, looking up an entry's outpoint returns that entry. |
| Transactions.AllTxIns | Transaction.js:81-83 | The flattened inputs are exactly the inputs of some transaction of the block. |
| Transactions.ConsumedIffSpent | Transaction.js:81-89 | An entry survives the consumed-output filter exactly when no input of the block names its outpoint. |
| Transactions.NewUnspentTxOutsMembership | Transaction.js:76-80 | Output k of every block transaction t becomes the entry (t.id, k, address, amount). |
| Transactions.NewUnspentTxOutsOrigin | Transaction.js:76-80 | Every new entry is output k of some block transaction, carrying that transaction's id and index k. |
| Transactions.UpdateUnspentTxOutsContents | Transaction.js:75-91 | The update is the kept old entries followed by the new outputs. The kept entries are a subsequence of the old list, so their order is kept. An old entry is kept exactly when no input of the block spends it, and every output of the block is listed. |
| Transactions.HexPatternIffAllHex | Transaction.js:98 | The hex regular expression matches exactly the non-empty strings of hex digits. |
| Transactions.IsValidAddress | Transaction.js:94-106 | An address is valid exactly when it has 130 characters, all hex digits, starting with "04". |
| Transactions.SampleAddressIsValid | Transaction.js:94-106 | The fixed address used for the genesis reward is valid. |
| Transactions.ValidateTxIn | Transaction.js:180-195 | A valid input names a listed output whose address verifies the input's signature over the transaction id. |
| Transactions.ValidateTransaction | Transaction.js:225-253 | A valid transaction carries its recomputed id. Every input names a listed output whose address verifies its signature, and the inputs are worth exactly the outputs. |
| Transactions.NegativeAmountCounterexample | Transaction.js:126-142 | As written, an input-less transaction paying 100 and -100 passes the structural check and validation. The corrected check refuses it. |
| Transactions.GroupKeyAsWrittenIffSameId | Transaction.js:257 | Two inputs share the duplicate key as written exactly when they name the same prior transaction. |
| Transactions.DuplicateKeyCounterexample | Transaction.js:256-268 | As written, two inputs spending outputs 0 and 1 of one transaction are flagged as duplicates, although their outpoints differ. |
| Transactions.DuplicatesCaughtAsWritten | Transaction.js:256-268 | Every genuine double spend is also flagged as written, so the as-written key only over-rejects. |
| Transactions.ProcessTransactions | Transaction.js:255-303 | Admission succeeds exactly when all of these hold: the block's first transaction passes the coinbase check; every output has a valid address and a non-negative amount; no two inputs name one outpoint; and every later transaction validates. Every admitted later transaction therefore carries its recomputed id, verified signatures and balanced values. An admitted block yields exactly the updated unspent list. |
| Transactions.DoubleSpendInBlockRejected | Transaction.js:256-268 | A block whose inputs name one outpoint twice is refused. |
| Transactions.CoinbaseOnlyBlockAccepted | Transaction.js:292-303 | A block holding only a valid coinbase is admitted. It appends the reward output to the unspent list and keeps every earlier entry. |
| Transactions.ProcessTransactionsKeepsAmountsNonNegative | Transaction.js:292-303 | Admitting a block keeps every listed amount non-negative. |
| Transactions.SumRemovingInputs | Transaction.js:81-89 | In a list with unique outpoints, dropping the entries named by inputs that name distinct outpoints removes exactly the amounts those inputs reference. |
| Transactions.BlockValueAccounting | Transaction.js:292-303 | Against a list with unique outpoints, an admitted block leaves a list worth the old value plus the reward of 50, less the amount of the listed output that the coinbase input names (0 when it names none). |
| Transactions.AdmittedBlockAddsReward | Transaction.js:292-303 | When the coinbase input has an empty prior id and no listed entry does, an admitted block adds exactly 50 to the list's value. |
| Transactions.CoinbaseConsumesNamedOutput | Transaction.js:197-223 | A coinbase whose input names the listed output ("a", 1), worth 10, is admitted at height 1. The list then holds only the reward: 50, not 60. |
| Crypto.HexToBinary | src/Blockchain.js:93 | The binary form exists exactly when every character is a hex digit. It has four bits per digit, and bits 4i to 4i+3 are the digits of hex digit i's value, most significant first: 8·b0 + 4·b1 + 2·b2 + b3. This is the behaviour assumed of util/hexToBinary, which is not part of this model. |
| Crypto.ZeroHexDigitsGiveZeroBits | src/Blockchain.js:93 | k leading '0' digits give 4k leading zero bits. |
| Chain.NewBlock | src/Blockchain.js:103 | A new block carries the given fields and the hash of them. |
| Chain.HashMatchesDifficulty | src/Blockchain.js:92-96 | A hash meets difficulty d exactly when d >= 0, the hash is hex, and the first d bits of its binary form are zero. |
| Chain.StartsWithZerosIff | src/Blockchain.js:94-95 | A bit string starts with d zeros exactly when its first d characters are '0'. |
| Chain.HashMatchesSmallerDifficulty | src/Blockchain.js:92-96 | A hash meeting a difficulty meets every smaller non-negative one. |
| Chain.LeadingZeroDigitsMeetDifficulty | src/Blockchain.js:92-96 | A hex hash with k leading '0' digits meets every difficulty up to 4k. |
| Chain.FindBlock | src/Blockchain.js:98-109 | The mined block has the given fields, and its hash meets the difficulty. Its nonce is the least non-negative nonce that does. |
| Chain.GetAdjustedDifficulty | src/Blockchain.js:67-79 | The retarget starts from the difficulty of the block 10 from the end and moves it by at most one. It rises exactly when the ten blocks took under 50 and falls exactly when they took over 200. |
| Chain.GetDifficulty | src/Blockchain.js:81-89 | Off a retarget height (index 0 or not a multiple of 10), the difficulty is the tip's. On one it is the adjusted difficulty, and it is undefined only when the chain is too short to look 10 back. |
| Chain.LinkedChainHasDifficulty | src/Blockchain.js:81-89 | On a chain anchored at genesis the next difficulty is always defined. |
| Chain.IsValidBlock | src/Blockchain.js:188-235 | A block is valid exactly when it has the next index, links to the previous hash, and has a timestamp above the previous one's less 60 and below now plus 60. Its hash must also meet its difficulty and be its recomputed hash. |
| Chain.ValidChainIsLinked | src/Blockchain.js:237-252 | A chain valid at some time starts at genesis and every block extends its predecessor. |
| Chain.ValidChainStaysValid | src/Blockchain.js:196-252 | A chain valid at one time is valid at every later time. |
| Chain.LinkedChainHeights | src/Blockchain.js:237-252 | In a linked chain block i has index i and a non-negative difficulty. |
| Chain.ValidChainAppend | src/Blockchain.js:127-143 | Appending a block valid against the tip keeps a valid chain valid. |
| Chain.LinkedChainAppend | src/Blockchain.js:127-143 | Appending a block that extends the tip keeps a chain linked. |
| Chain.GetAccumulatedDifficulty | src/Blockchain.js:146-151 | The accumulated work of a non-empty chain, the sum of 2^difficulty, is at least its length and at least 2^(tip difficulty). |
| Chain.WorkAtLeastLength | src/Blockchain.js:146-151 | Every block adds at least one to the accumulated work. |
| Chain.WorkAppend | src/Blockchain.js:146-151 | Appending a block adds exactly 2^difficulty to the work, which then strictly grows. |
| Chain.ReplayAppend | src/Blockchain.js:153-168 | Replaying a chain one block longer admits that block's transactions on top of the shorter replay. |
| Chain.ReplayRefusedPrefix | src/Blockchain.js:153-168 | If replay refuses some prefix, it refuses the whole chain. |
| Chain.ReplayAmountsNonNegative | src/Blockchain.js:153-168 | Every amount in a replayed unspent list is non-negative. |
| Chain.GenesisReplay | src/Blockchain.js:45-52 | Replaying the genesis chain gives the single genesis reward output. |
| Chain.ProcessChain | src/Blockchain.js:153-168 | The replay loop returns the replay of the whole chain from the empty list, or nothing when a block is refused. |
| Node.Node.constructor | src/Blockchain.js:12-39 | A new node holds the genesis chain, its replay and an empty pool, and satisfies the node invariant. |
| Node.Node.GetLatestBlock | src/Blockchain.js:58-60 | The tip is the last block of the chain, and its index is the chain height. |
| Node.Node.GenerateNextBlock | src/Blockchain.js:112-124 | The mined block has the next index and the tip's hash. Its data is the coinbase for the next height followed by the pool, its difficulty is the current one, and its nonce is the least that works. It is valid against the tip whenever the clock is past the tip's timestamp less 60. |
| Node.Node.AddBlockToChain | src/Blockchain.js:127-143 | A block is admitted exactly when it is valid against the tip and its transactions are admitted. Then exactly that block is appended, the unspent list becomes the admitted list, and the pool is revalidated; otherwise nothing changes. A valid chain stays valid and the node invariant is kept. |
| Node.Node.ReplaceChain | src/Blockchain.js:170-185 | The chain is replaced exactly when the candidate is valid, has strictly more work and replays. Then the unspent list is the replay and the pool is revalidated; otherwise nothing changes. |
| Node.AddedBlockRaisesWork | src/Blockchain.js:170-185 | A chain with one more block has strictly more work than the chain it extends. |
| Pool.ContainsTxIn | src/TransactionPool.js:22-29 | The pool-input search finds an input exactly when one with the same outpoint is in the pool. |
| Pool.ConflictIffSharedInput | src/TransactionPool.js:12-39 | A transaction conflicts with the pool exactly when it shares an input outpoint with some pool transaction. |
| Pool.FilterKeepsInputsDisjoint | src/TransactionPool.js:57-73 | Removing transactions keeps the pool's inputs pairwise disjoint. |
| Pool.TransactionPool.constructor | src/TransactionPool.js:4 | The pool starts empty. |
| Pool.TransactionPool.GetTransactionPool | src/TransactionPool.js:6-8 | Reading the pool returns its contents and changes nothing. |
| Pool.TransactionPool.IsValidTxForPool | src/TransactionPool.js:12-39 | The loop accepts a transaction exactly when none of its inputs is already in the pool. |
| Pool.TransactionPool.AddTransactionToPool | src/TransactionPool.js:41-54 | A transaction is added exactly when it validates and conflicts with nothing. The pool then grows by exactly it; otherwise it is unchanged. Pool inputs stay pairwise disjoint. |
| Pool.TransactionPool.UpdateTransactionPool | src/TransactionPool.js:57-73 | The pool keeps, in order, exactly the transactions all of whose inputs are still unspent. Pool inputs stay pairwise disjoint. |
| Pool.UpdatedPoolSpendable | src/TransactionPool.js:57-73 | After revalidation every input of every remaining transaction is unspent. |
| Pool.UpdatePoolIdempotent | src/TransactionPool.js:57-73 | Revalidating twice against the same list changes nothing the second time. |
| Pool.UpdatePoolRemovesExactlyUnspendable | src/TransactionPool.js:57-73 | A pool transaction survives exactly when every one of its inputs finds an unspent output. |
| Wallet.BalanceIsMaskedSum | src/Wallet.js:45-53 | The balance of an address is the sum, over all entries, of the amount each holds for that address. |
| Wallet.BalanceAppend | src/Wallet.js:45-53 | The balance over two lists joined is the sum of their balances. |
| Wallet.FindTxInFor | src/Wallet.js:67-72 | The search finds a pool input exactly when one names the output's outpoint. |
| Wallet.FilterTxPoolTxs | src/Wallet.js:58-80 | The loop keeps, in order, exactly the outputs that no input of any pool transaction spends. |
| Wallet.CoveringLength | src/Wallet.js:89-98 | The first covering prefix length past k is the least length whose total reaches the amount. With none, every longer prefix falls short. |
| Wallet.SelectForAmountSpec | src/Wallet.js:89-100 | A selection is a non-empty prefix of the candidates in order whose total reaches the amount. Every shorter non-empty prefix falls short, and the left-over is the non-negative excess. Selection fails exactly when every non-empty prefix falls short. |
| Wallet.SelectionFailsIffShort | src/Wallet.js:89-100 | With non-negative amounts, selection fails exactly when there are no candidates or their total is short. |
| Wallet.CollectForAmount | src/Wallet.js:89-100 | The accumulating loop returns exactly the shortest covering prefix with its excess, or fails when there is none. |
| Wallet.FindTxOutsForAmount | src/Wallet.js:82-101 | Selection runs over the address's outputs that the pool does not already spend. |
| Wallet.SelectedAreEligible | src/Wallet.js:82-92 | Every selected output is listed, belongs to the address and is spent by no pool transaction. |
| Wallet.CreateTxOuts | src/Wallet.js:111-121 | The outputs pay the amount to the receiver, plus a change output to the sender exactly when the left-over is non-zero. They total amount plus left-over. |
| Wallet.UnsignedTxIns | src/Wallet.js:129-134 | The new inputs name the selected outputs in order. |
| Wallet.CreateTransaction | src/Wallet.js:123-146 | The payment is built from the selection, with every input carrying the signature of the id of the unsigned transaction. It fails exactly when selection fails. |
| Wallet.CreatedTransactionIsValid | src/Wallet.js:123-146 | Against a list with unique outpoints, and a signature that verifies under the wallet's address, the payment passes validation and conflicts with no pool transaction. |
| LegacyWallet.FindTxOutsForAmount | Wallet.js:59-74 | Selection runs over all of the address's outputs. |
| LegacyWallet.SelectionFailsIffBalanceShort | Wallet.js:59-74 | With non-negative amounts, finding coins fails exactly when the address owns no output or its balance is short of the amount. |
| LegacyWallet.SelectedAreOwned | Wallet.js:59-66 | The selection is a prefix, in order, of the address's outputs, and each of them is listed. |
| LegacyWallet.CreateTxOuts | Wallet.js:76-84 | With the sender before the amount, the outputs are the payment and a change output exactly when the left-over is non-zero. They total amount plus left-over. |
| LegacyWallet.CreateTransaction | Wallet.js:86-110 | The payment's fields are set in turn: inputs for the selection signed by index, the outputs, then the id of the finished inputs and outputs. It fails exactly when selection fails. |
| LegacyWallet.CreatedTransactionBalances | Wallet.js:86-110 | The inputs name the selected outputs in order and the id is the recomputed id. Against a list with unique outpoints, every input finds its output and the inputs are worth exactly the outputs. |
| LegacyChain.NewBlock | Block.js:3-11 | A new block carries the four fields and the hash of them. |
| LegacyChain.GenesisIsNotWellStructured | Global.js:4-9 | The genesis block has no previous hash, so it fails the structure check, yet the genesis chain is valid. |
| LegacyChain.NextBlockValidIffText | Blockchain.js:17-27 | A block built on the tip is valid against it exactly when its data is a string. |
| LegacyChain.ValidChainAppend | Blockchain.js:29-35 | Appending a block valid against the tip keeps a valid chain valid. |
| LegacyChain.ValidChainHeights | Blockchain.js:63-77 | In a valid chain the indices count up by one from the first block. |
| LegacyChain.Blockchain.constructor | Blockchain.js:5-7 | The class holds the chain it is given. |
| LegacyChain.Blockchain.GetLatestBlock | Blockchain.js:13-15 | The latest block is the last element of the chain. |
| LegacyChain.Blockchain.GenerateNextBlock | Blockchain.js:17-27 | The new block on the tip is returned exactly when it was appended, which is exactly when its data is a string. Otherwise nothing changes. The chain never shrinks and stays valid. |
| LegacyChain.Blockchain.AddBlockToChain | Blockchain.js:29-35 | Exactly the new block is appended when it is valid against the tip; otherwise the chain is unchanged. The chain never shrinks and stays valid. |
| LegacyChain.Blockchain.IsValidChain | Blockchain.js:63-77 | The loop holds exactly when every block is valid against its predecessor. The first block is not checked, so a one-block chain is valid. |
| LegacyChain.Blockchain.ReplaceChain | Blockchain.js:79-87 | The candidate is swapped in exactly when it is valid and strictly longer; otherwise the chain is unchanged. The chain never shrinks and stays valid. |
| LegacyChain.NewGlobalBlockchain | Global.js:11 | The shared chain starts as the genesis block alone. |
| PeerProtocol.MessagesAreUnderstood | P2PServer.js:47-66 | The queries have types 0 and 1 and no data, and the handler reads them as requests for the tip and for the chain. The type-2 responses deliver the one-element list holding the tip, or the whole chain. |
| PeerProtocol.EmptyResponseIgnored | P2PServer.js:70-73 | An empty answer changes nothing and sends nothing. |
| PeerProtocol.MalformedTipIgnored | P2PServer.js:74-78 | An answer whose last block is malformed changes nothing and sends nothing. |
| PeerProtocol.NotAheadIgnored | P2PServer.js:80-100 | An answer whose tip is not above the held tip changes nothing and sends nothing. |
| PeerProtocol.LinkedTipAppended | P2PServer.js:87-90 | A higher tip linked to the held tip is offered alone to addBlockToChain. The new tip is broadcast exactly when it was appended. |
| PeerProtocol.UnlinkedSingleBlockQueriesAll | P2PServer.js:91-93 | A single higher unlinked block broadcasts a type-1 query with no data and leaves the chain unchanged. |
| PeerProtocol.LongerAnswerReplaces | P2PServer.js:94-97 | A longer unlinked answer is offered to replaceChain and nothing is sent. |
| PeerProtocol.ReconcileKeepsChainValid | P2PServer.js:68-101 | Handling an answer never shortens the chain and keeps a valid chain valid. The chain ends as it was, one block longer, or equal to the answer. |
| PeerProtocol.IndexOf | P2PServer.js:35 | indexOf is -1 exactly when the element is absent. Otherwise it is the element's first position. |
| PeerProtocol.SpliceOne | P2PServer.js:35 | splice(i, 1) removes position i. At -1 it removes the last element. |
| PeerProtocol.CloseTwiceDropsAnotherPeer | P2PServer.js:33-44 | As written, closing peer 1 of [1, 2] twice (error, then close) leaves [], dropping peer 2. |
| PeerProtocol.SpliceAtFirstRemovesFirst | P2PServer.js:35 | Splicing at an element's first position removes exactly its first occurrence. |
| PeerProtocol.CloseListedAsWritten | P2PServer.js:33-36 | For a listed socket the code as written removes exactly that socket. |
| PeerProtocol.CloseTwiceKeepsOthers | P2PServer.js:33-44 | With the corrected removal, closing a socket listed once removes it and keeps every other socket, and closing it again changes nothing. |
| PeerProtocol.P2PServer.constructor | P2PServer.js:11 | The server starts with no sockets over a chain that has a tip. |
| PeerProtocol.P2PServer.InitConnection | P2PServer.js:25-30 | A new socket is appended, and the query for the peer's tip is written to it; the shared chain, and so `Valid()`, is untouched. |
| PeerProtocol.P2PServer.CloseConnection | P2PServer.js:33-36 | The first occurrence of the socket is removed when it is listed; otherwise nothing changes. The shared chain, and so `Valid()`, is untouched. |
| PeerProtocol.P2PServer.Reply | P2PServer.js:49-55 | A query for the tip is answered with the tip, and a query for all blocks with the whole chain. |
| PeerProtocol.P2PServer.HandleBlockchainResponse | P2PServer.js:68-101 | The shared chain and the broadcast follow `Reconcile`. |

## Left out

- Hashing and signatures are parameters:
  - SHA-256 is a `string -> string` function in `Crypto`.
  - ECDSA verification over secp256k1 is a predicate `verify(address, message, signature)`.
  - Signing is a function the wallet is given.
  - Neither the hash nor the curve is computed.
- Key files and key generation are not modelled, because they are file I/O: `initWallet`, `generatePrivateKey` and `getPrivateKeyFromWallet`. `getPublicKey` / `getPublicKeyFromWallet` are library calls, so the wallet's address is a parameter.
- Chain persistence is not modelled, because it is file I/O: `saveBlockchain`, and reading a stored chain in `initBlockchain`. The node starts from the genesis chain.
- The clock is a `now` parameter wherever `Date.now()` is read.
- Networking is not modelled:
  - WebSocket servers and connections, `write` and `broadcast`: a broadcast is returned as a `Reaction`, and the messages written are returned values.
  - JSON encoding of messages: message data is the decoded block list or none.
- The message switch of P2PServer.js:48-49 reads `message.type` of the raw frame without decoding it. `PeerProtocol.Dispatch` reads the decoded message instead.
- HTTPServer.js, Main.js and both WalletFeatures.js files are not modelled. They are HTTP routing, start-up wiring and orchestration, and the one filter they hold is the balance filter.
- Runtime type checks (`typeof`, `instanceof Array`, `== null`) hold of every value of the model's typed records. The exception is the earlier block's data, which is either a string or not.
- Chain.FindBlock: the source loops for ever when no nonce works. The model takes a ghost nonce `bound` known to work, which is also what ends the loop.
- Chain.HashMatchesDifficulty: `'0'.repeat(d)` throws for a negative difficulty. The model answers false there.
- Chain.HashMatchesDifficulty: util/hexToBinary (imported at src/Blockchain.js:3) is not part of this model. Crypto.HexToBinary assumes it expands each hex digit, upper or lower case, to four bits and returns null on any other character. On such a hash (a peer block whose hash is "zz", say) the source then throws a TypeError at src/Blockchain.js:95, and isValidBlock reaches that check (:225) before it recomputes the hash (:230). So the throw escapes addBlockToChain or replaceChain. The model answers false there, which refuses the block and leaves the state as the throw does.
- Chain.GetAccumulatedDifficulty: `Math.pow` is floating point. The model uses exact integer powers of two and requires non-negative difficulties. `reduce` without an initial value throws on an empty chain, so the model requires a non-empty one.
- Chain.IsValidChain: the genesis comparison by `JSON.stringify` is modelled as equality of the block records.
- Node.Node.GenerateNextBlock: the coinbase address (`getPublicKeyFromWallet`) is the `myAddress` parameter.
- Wallet.CreateTransaction: `new TxIn()` and `new Transaction(txIns, txOuts)` come from src/TransactionInput.js and src/Transaction.js, which are not part of this model. A fresh input has an empty signature, and the constructor computes the id of its inputs and outputs.
- LegacyWallet.CreateTransaction: signatures are a function of the input's index, and the id is computed last. In the source, Wallet.js:102-107 signs before the outputs and the id exist, and passes no unspent list to `signTxIn`. Because ids ignore signatures, the model does not capture that order; it proves the id and the value balance but not signature validity.
- Transaction.js never imports `ec` (the elliptic curve, used at :69 and :193) or lodash `_` (used at :257-258 and :277), which src/Transaction.js does import. As written, validateTxIn throws a ReferenceError at :193, and validateBlockTransactions throws at :257 or :277 on every block whose coinbase passes. So root processTransactions never returns a list. The model reads both libraries as imported.
- JavaScript numbers are modelled as unbounded integers. The model does not capture fractional amounts, `NaN` or `Infinity` passing the `typeof amount === 'number'` check (Transaction.js:126-142), or floating-point sums compared with `!==` (Transaction.js:239-249).
- Uniqueness of outpoints in the node's unspent list is not proved, because it does not follow from the code. New entries are keyed by transaction id, the hash is abstract, and nothing stops two transactions from sharing an id. Transactions.BlockValueAccounting therefore takes `UniqueOutPoints` as a precondition.
- Chain.ProcessChain: the total value of a replayed chain (50 per block) is not proved, for the same reason. Per block, Transactions.BlockValueAccounting gives the exact change.
- Wallet.js imports `ec` (Wallet.js:2) but not lodash `_`, which getBalance calls at Wallet.js:52, so the root getBalance throws a ReferenceError there as written. Wallet.GetBalance reads `_` as imported and sums the amounts.
- LegacyChain.Blockchain: chains are values (`seq<Block>`), so the model does not capture array aliasing. Blockchain.js:31 pushes onto the array that was handed to the constructor, and Blockchain.js:82 adopts the peer's `receivedBlocks` array itself, so a later push is seen by whoever else holds it. Nothing in the modelled code keeps a second reference and mutates it, so no modelled result depends on this.
- Node.Node.AddBlockToChain and Node.Node.ReplaceChain call `processTransactions` with named arguments. src/Blockchain.js:132 and :161 pass the arguments in a different order from Transaction.js:292, and src/Transaction.js, which the later code imports, is not part of this model.

### Where the model reads the code's evident intent

- Transaction.js:78 uses `t` outside its scope. The model gives output k of transaction t the entry (t.id, k).
- Transaction.js:240 reads the undefined `aUnspentTxOuts`. The model uses the unspent list passed in.
- Transaction.js:208 returns `undefined` from the coinbase check. The model reads it as false.
- Transaction.js:31 and Wallet.js:99 call `new Transaction()` with no arguments. The constructor (Transaction.js:11-15) then calls `getTransactionId` with undefined `txIns` and throws a TypeError. The model builds the record field by field.
- The root `signTxIn` (Transaction.js:52-72) is replaced by the abstract signature.
- Blockchain.js:1 and Global.js:1 bind `Block` to the export object of Block.js (Block.js:22), `{ Block, calculateHashForBlock }`, not to the class. As written, `new Block(...)` throws a TypeError at Global.js:4 while the module loads, so there is no shared chain and loading P2PServer.js fails; it throws again at Blockchain.js:21 on every generateNextBlock. The model reads `Block` as the class in LegacyChain.GenesisBlock, LegacyChain.NewGlobalBlockchain and LegacyChain.Blockchain.GenerateNextBlock.
- Wallet.js:3 imports `getUnspentTxOuts` from ./Blockchain, whose only export is the class (Blockchain.js:4), so the name is undefined and getBalance (Wallet.js:51) and findTxOutsForAmount (Wallet.js:60) throw a TypeError as written. The model passes the unspent list as a parameter in Wallet.GetBalance, LegacyWallet.FindTxOutsForAmount and LegacyWallet.CreateTransaction.
- Blockchain.js:56 calls `currentBlock.calculateHash()`, which Block.js does not define. The model uses the hash of the four fields, `CalculateHashForBlock`.
- Block.js:14-19 passes the four fields to SHA-256 as four separate arguments, of which the library reads one. The model's `Hasher` is abstract over all four.
- The genesis transaction comes from src/Transaction.js, which is not part of this model. It is taken to be the height-0 coinbase to a fixed valid address, `SampleAddress`.
- The pool check of src/TransactionPool.js:63 calls `findUnspentTxOut(txIn, unspentTxOuts)`. The model looks the input up by its outpoint.

### Notes on what the code checks (the model follows the code)

- src/Blockchain.js:69 retargets against `chain[chain.length - 10]`, nine block intervals back from the tip, not ten.
- The intervals are named in seconds, but timestamps are milliseconds from `Date.now()`. The model keeps the code's numbers: under 50 and over 200 for the retarget, 60 for the timestamp window.
- validateCoinbaseTx (Transaction.js:197-223) checks neither the signature nor the prior id of the coinbase input. A coinbase whose input names a listed output consumes that output when the block is admitted (Transactions.CoinbaseConsumesNamedOutput).
- isValidBlock (src/Blockchain.js:203-235) checks the block's hash against the block's own difficulty field, not against getDifficulty.

## Findings

| source | as written | input that shows it | evidently intended | confidence | as-written member | corrected member |
|---|---|---|---|---|---|---|
| Transaction.js:257 | inputs are grouped by `txOutTransactionId + txOutTransactionId` | a block transaction spending outputs 0 and 1 of one earlier transaction is refused as a double spend | group by the outpoint (prior id and output index) | high, not executed | Transactions.DuplicateKeyCounterexample | Transactions.ProcessTransactions |
| Transaction.js:126-142 | the output check tests only that the amount is a number | an input-less transaction paying 100 and -100 to valid addresses passes structure and validation, minting 100 | an output amount must be non-negative | medium, not executed | Transactions.NegativeAmountCounterexample | Transactions.ProcessTransactionsKeepsAmountsNonNegative |
| P2PServer.js:33-44 | `sockets.splice(sockets.indexOf(ws), 1)` runs on both `error` and `close` | sockets [a, b]; a errors, then closes: the second call has index -1 and removes b | remove the socket only when it is listed | high, not executed | PeerProtocol.CloseTwiceDropsAnotherPeer | PeerProtocol.CloseTwiceKeepsOthers |

For the first row, the as-written key is `Transactions.HasDuplicatesAsWritten` and the corrected one is `Transactions.HasDuplicates`. `ValidateBlockTransactions` and everything after it use the corrected key.

For the second row, the as-written check is `Transactions.IsValidTransactionStructureAsWritten` and the corrected one is `Transactions.IsValidTransactionStructure`. The corrected check adds `amount >= 0`, and admission uses it.

For the third row, the class method `PeerProtocol.P2PServer.CloseConnection` uses the corrected removal.
