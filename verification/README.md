# A verified model of the auction blockchain engine

This project models the proof-of-work ledger behind the auction application: the block tree with its
derived longest chain, the pruning of dead branches, the delayed execution of confirmed blocks into
accounts and auctions, the mempool, the exchange by which one node catches up with another, and the
client's walk over confirmed blocks. It proves what holds after every step and over every run.

## How it is laid out

- `Hashes`, `Powers`, `Pow`, `Merkle`, `Blocks`: digests and their hexadecimal form, the puzzle, the
  Merkle root, block checks and mining.
- `Forest`, `LongestBranch`, `Pruning`: the block tree as a map from each block to its parent; paths, the
  best path, the recursive search for it, dead branches, and the loops that collect them.
- `WorldState`, `Mempool`: execution and replay of transactions, nonce and auction accounting; pending
  transactions.
- `Ledger`, `Invariant`, `Steps`, `Runs`: the state, the two public steps, what each keeps, and theorems
  over whole runs.
- `Engine` (class `Blockchain`): the imperative engine, each method proved equal to the step it stands for.
- `Sync`, `Network` (class `Node`), `ClientWalk`: catching up with a peer, a node's reactions, and the
  client's reads.
- `Lines`, `Witness`: concrete blocks and the runs in which nodes take them: finality, replay and convergence
  fail, an executed block is pruned, an auction is stopped early by another than its creator, and one chain
  of hashes leads to two worlds.

The state carries three history variables that no code reads: `archive` (every block ever pushed),
`journal` (every transaction that succeeded, with its block) and `executed` (every block whose transactions were run).

## Cryptography

`Blocks.Crypto` holds the header digest, the hash of two sibling nodes, the hash of a transaction and the
signature check as arbitrary functions. Every statement is for all of them; a digest has 64 bytes. Where
the program relies on two headers not having the same digest, the statement names the headers
(`NoCollision`): the blocks already pushed against the one being mined, or the blocks that two nodes both
hold. The Merkle statement assumes nothing: it concludes that the leaves are equal or that two different
pairs among those hashed for the two roots have the same hash.

## Where the first block can change

Children of the sentinel `"0"` are never pruned, because the pruning loop starts at the first chain block.
A rival first block can therefore win after blocks have been executed, and execution is never undone.
Finality, replay and convergence are false without a condition, and it is one on the block that comes in:

- a push keeps the chain, all but its tip, exactly when the pushed branch does not both start at another
  first block and beat the chain (`Steps.PrefixIsFinalExactly`);
- after such a push, and only then, the executed blocks are no longer the confirmed chain, if anything had
  been executed (`Runs.ConfirmedIsExecutedExactly`); a run is free of such pushes exactly when it keeps its
  first block and exactly when all along just the confirmed chain has been executed (`Runs.StableExactly`);
- in every run, with or without such pushes, accounts and auctions are a replay of the executed blocks as
  long as none of these has been pruned (`Runs.WorldIsReplayOfExecuted`), so they are a replay of the
  confirmed chain whenever just that has been executed (`Runs.SettledIsInSync`). The converse does not hold:
  two chains can have the same effect;
- `Witness.FirstBlockCanChange` gives concrete runs in which the executed blocks leave the chain, accounts and
  auctions differ from a replay of the confirmed chain, and a fresh node that takes over the same chain
  arrives at others.

What does not need the condition is stated without it: tombstones, chain length, the cursor, nonce and
auction accounting, and that no block is executed twice.

## Where the code and its own words differ

- The comments and assertions at src/blockchain.rs:1614-1626 and src/blockchain.rs:1659-1717 describe
  execution after one block, and a repair that drops rival first blocks and returns their transactions to
  the mempool. The code does neither; the model follows the code.
- The block hash covers the header and not the miner, and a Merkle root does not tell an odd transaction
  list from the list with its last element repeated, nor an odd number of pairs from the list with its last
  pair repeated (`Blocks.BlocksAreMalleable`, `Blocks.BlocksAreMalleableByPairs`). Equal hashes mean equal
  headers, not equal blocks; short of a collision the transactions are the same exactly if there are equally
  many (`Blocks.EqualHashesMeanEqualHeaders`, `Blocks.SameBodyExactly`).
- So nodes on the same chain of hashes, each with just its confirmed blocks executed, need not have the same
  accounts (`Witness.SameChainOtherWorld`); they do if they hold equally many transactions for each of these
  blocks (`Sync.SameChainSameWorld`).
- The message "Only the creator can end the auction early" promises more than the code keeps: it compares with
  the first record of the auction in the block that created it, and that record may have been rejected
  (`Witness.OthersCanStopEarly`). Exactly which stops succeed is `Runs.StopsSucceedExactly`. No early stop by
  another can succeed exactly if, for each other account holder, that first record stops no earlier than the
  creation and is not the holder's own, unless the creation stops at time 0 anyway
  (`Runs.OnlyCreatorsStopEarlyExactly`); this is so whenever the block creates no auction twice
  (`WorldState.UniqueIdsSuffice`).
- A repair can prune a block that was executed, and then its auctions are no longer found. This takes two
  changes of the first block: `Witness.ExecutedCanBePruned` gives the run, and `Runs.ExecutedIsHeld` proves
  that one is not enough.
- `account.nonce += 1` on a 32-bit counter is modelled as wrapping, which is what an optimised build does; a
  build with overflow checks stops there instead. The same goes for the subtraction in `first_block_hash`.
- The checks for a wrong transaction order and for a broken chain in `accept_block`, and for a bad block
  in `propose_block`, can never fire.

## Model

| member | source | states |
|---|---|---|
| Hashes.DigestsAreRanked | src/blockchain.rs:941-950 | The tip comparison never meets the sentinel or a hash it cannot decode, and tells any two block hashes apart. |
| Hashes.RankOrder | src/blockchain.rs:941-960 | The number compared orders digests from the last byte on: the last byte in which they differ decides. |
| Hashes.EncodeAt | src/blockchain.rs:564-592 | A hash is written in lower-case hexadecimal digits, the higher half of each byte first. |
| Forest.BestUnique | src/blockchain.rs:952-967 | There is one longest path with the smallest little-endian tip hash. |
| Forest.BestIsFirst | src/blockchain.rs:941-967 | A path is the best exactly if every other path is shorter, or as long with a tip hash that comes later in the order of digests read from the last byte. |
| Forest.BestAfterInsert | src/blockchain.rs:763-765 | Recomputing the best branch after one insertion equals comparing the old chain with the branch that ends in the new block. |
| Forest.PruneKeepsBest | src/blockchain.rs:1042-1046 | Cutting the dead branches leaves a closed, acyclic tree in which every kept block keeps its path and the chain found before is still the best. |
| Forest.PruneTrims | src/blockchain.rs:983-1018 | After the cut no chain block with two successors has an off-chain child. |
| Forest.DoomedExactly | src/blockchain.rs:983-1004 | A block is cut exactly if its path leaves the chain before the chain's last two blocks. |
| LongestBranch.FindLongestBranch | src/blockchain.rs:938-967 | The recursive search is defined on every tree (it terminates and only compares decodable hashes) and returns a nonempty branch that starts at its argument. |
| LongestBranch.SearchFindsBest | src/blockchain.rs:938-967 | The greedy recursion from the sentinel is globally optimal: it returns the one best path of the whole tree, and every other path is shorter or as long with a later tip hash in the order of digests. |
| LongestBranch.OrderDoesNotMatter | src/blockchain.rs:1031-1042 | The result does not depend on the order in which the map iteration lists children. |
| Pruning.BuildBranchMap | src/blockchain.rs:1031-1038 | The index lists under each parent exactly its children. |
| Pruning.CollectLosers | src/blockchain.rs:980-992 | The initial worklist holds exactly the off-chain children of chain blocks before the last two. |
| Pruning.CollectDoomed | src/blockchain.rs:994-1004 | The worklist terminates and ends with exactly those children and all their descendants. |
| Merkle.ComputeRoot | src/blockchain.rs:170-210 | The queue loops terminate and compute the root of the level-by-level definition, failing only on the empty list. |
| Merkle.RootIsTree | src/blockchain.rs:187-205 | That root is the root of the tree of least height, defined from the top by repeating short right halves. |
| Merkle.SmallRoots | src/blockchain.rs:175-205 | The roots of one, two and three leaves, spelled out. |
| Merkle.RootBinds | src/blockchain.rs:170-217 | Lists of equal tree height have equal roots exactly when their padded leaves are equal, and equally long lists exactly when they are equal, or else two different pairs hashed for the two roots have the same hash. |
| Merkle.OddListsAreMalleable | src/blockchain.rs:182-186 | Repeating the last leaf of an odd list keeps the root. |
| Merkle.OddPairsAreMalleable | src/blockchain.rs:187-205 | Repeating the last two leaves of a list of an odd number, at least three, of pairs keeps the root. |
| Pow.CountLeadingZeroBits | src/key.rs:25-36 | The counting loop with its early exit returns a count that is at least k exactly when the big-endian value is below 2^(8n-k). |
| Pow.LeadingZerosBoundValue | src/key.rs:25-36 | The same equivalence for the recursive definition of the count. |
| Pow.SolvesMeansSixteenZeroBits | src/blockchain.rs:110-120 | Comparing a 64-byte digest with the 32-byte target asks for at least 16 leading zero bits, the same as peer identities. |
| Blocks.VerifiedExactly | src/blockchain.rs:655-666 | A block passes the check exactly if it has transactions, their root is its Merkle root, its hash is the digest of its header, and that digest has at least 16 leading zero bits; the check errs exactly on an empty list. |
| Blocks.EqualHashesMeanEqualHeaders | src/blockchain.rs:564-592 | Two checked blocks have the same hash exactly when their headers are the same, unless these headers collide. |
| Blocks.HashBindsBlock | src/blockchain.rs:564-592 | Two checked blocks with the same hash and equally many transactions differ at most in the miner, or two headers, sibling pairs or transactions of these two blocks collide. |
| Blocks.SameBodyExactly | src/blockchain.rs:564-592 | Short of a collision at hand, checked blocks with the same hash have the same transactions exactly if they have equally many. |
| Blocks.BlocksAreMalleable | src/blockchain.rs:655-666 | A checked block with an odd number of transactions has a different body that passes the check with the same hash. |
| Blocks.BlocksAreMalleableByPairs | src/blockchain.rs:655-666 | So has one with an odd number, at least three, of pairs: its last pair can be repeated. |
| Blocks.HitsExactly | src/blockchain.rs:130-145 | A nonce solves the puzzle exactly if there are transactions and the header with their root, that nonce and the clock reading has a digest with at least 16 leading zero bits. |
| Blocks.Mine | src/blockchain.rs:130-152 | The mining loops return the first nonce of the first clock reading that solves the puzzle, with the hash of that header; they fail only for an empty list. |
| Blocks.NewBlock | src/blockchain.rs:624-652 | Every block it returns passes the block check, on the given parent and with the given transactions; for a nonempty list it returns none exactly if no nonce hits at any clock reading. |
| WorldState.SucceedsExactly | src/blockchain.rs:770-847 | Exactly which creations of accounts, bids, creations of auctions and stops succeed; bids and creations depend on no auction, and a stop of an auction that is not open needs no more than its turn. |
| WorldState.RejectedExactly | src/blockchain.rs:770-847 | Exactly when each rejection comes out, in the order of the checks. |
| WorldState.SuccessChanges | src/blockchain.rs:770-847 | A success advances its sender's nonce, or creates the account, and opens or closes just the auction that it names. |
| WorldState.LookupExactly | src/blockchain.rs:1126-1143 | A lookup yields exactly the first record of the auction in the block on record, if that is held. |
| WorldState.ReplayUnfolds | src/blockchain.rs:850-880 | A replay runs all transactions of the listed blocks one by one and in order from the empty world; each changes the world if it succeeds and else does nothing, and just the successes are recorded. |
| WorldState.ReplayFrame | src/blockchain.rs:1126-1143 | A replay looks only into the blocks it replays: nodes that hold the same transactions for them get the same world. |
| WorldState.StepKeepsNonceLaw | src/blockchain.rs:770-847 | Every transaction keeps the nonce accounting: an account exists exactly after its sender's first success, which creates it, and its nonce counts the sender's successes modulo 2^32. |
| WorldState.NoReplay | src/blockchain.rs:789-800 | Two successes of one sender share a nonce only after more than 2^32 of its successes. |
| WorldState.StepKeepsAuctionLaw | src/blockchain.rs:802-843 | Every transaction keeps: an auction is open exactly if the last successful create or stop of it was a create, and on record are the block in which that was executed and its stop time. |
| WorldState.ReplayIsTraceable | src/blockchain.rs:820-831 | After a replay every success stems from the block in which it was executed, and each stop of an open auction before the stop time of the first record of it in the block that created it came from the sender of that record. |
| WorldState.StopSucceedsExactly | src/blockchain.rs:820-843 | A stop of an open auction succeeds exactly if it is signed, carries its sender's nonce, and comes from the sender of, or not before the stop time of, the first record of the auction in the block that created it. |
| WorldState.OnlyCreatorStopsEarlyExactly | src/blockchain.rs:820-831 | If account holders can sign stops, no early stop by another than the creator can succeed exactly if the first record allows none to any other account holder. |
| Mempool.PrecedesExactly | src/blockchain.rs:486-490 | The order is by timestamp and then by identifier, as strings are compared. |
| Mempool.SortedQueue | src/blockchain.rs:486-490 | The queue holds every pending transaction once, strictly ordered by timestamp and identifier. |
| Mempool.QueueIsUnique | src/blockchain.rs:486-490 | There is only one such queue. |
| Mempool.TransactionPool.AddTransaction | src/blockchain.rs:503-522 | A full pool gives up its oldest transaction before the new one is filed. |
| Mempool.TransactionPool.Flush | src/blockchain.rs:532-536 | The pool is emptied into its sorted queue. |
| Mempool.AdmittedExactly | src/blockchain.rs:1054-1103 | A transaction is admitted exactly if it is signed, in no held block and not pending, and either creates its sender's own account, with nonce 0 and none existing, or has a sender with an account, a nonce not yet used, and no pending rival for it. |
| Mempool.RefusedExactly | src/blockchain.rs:1054-1103 | Exactly when each refusal comes out, in the order of the checks. |
| Mempool.AdmissionKeepsPoolInv | src/blockchain.rs:1054-1103 | Admission keeps all pending transactions signed, the pool within its bound, and no two pending transactions with the same sender and nonce, except two account creations, for every nonce value. |
| Ledger.InsertEffect | src/blockchain.rs:1031-1042 | Inserting a pushable block leaves a forest whose best path is the better of the old chain and the new block's branch. |
| Invariant.PushKeepsInv | src/blockchain.rs:726-768 | Every push keeps: a closed acyclic tree, blocks filed under their checked hash, the best chain, trimmed branches, the cursor at length minus two, every block ever pushed either held or tombstoned, and both accountings. |
| Invariant.PushRemovesExactly | src/blockchain.rs:971-1021 | A push prunes exactly the blocks whose path leaves the new chain before its last two blocks. |
| Steps.JudgeExactly | src/blockchain.rs:732-761 | The checks pass exactly for a checked, new block on a held parent; the transaction-order and whole-chain checks never fail. |
| Steps.VerdictExactly | src/blockchain.rs:732-761 | Exactly when a block is judged a duplicate, pruned, below a pruned one, unverifiable, invalid, an orphan, or accepted. |
| Steps.ProposalIsPushable | src/blockchain.rs:883-914 | A mined child of the tip repeats no held and no pruned hash although neither is checked. |
| Steps.PrefixIsFinalExactly | src/blockchain.rs:938-1051 | A push keeps the chain, all but its tip, exactly when it does not make a rival first block win. |
| Steps.StepIsNext | src/blockchain.rs:732-914 | From a state with the invariant, the step relation of the runs below relates it to just the state that the engine's method leaves. |
| Runs.InvThroughout | src/blockchain.rs:726-914 | Every state of a run has the invariant if its first state has. |
| Runs.RunExtends | src/blockchain.rs:732-914 | Over any run the chain never gets shorter, the cursor never moves back, no tombstone is lifted, no block is replaced and no execution is undone. |
| Runs.TombstonesArePermanent | src/blockchain.rs:737-747 | In any later state of any run a pruned block is absent and is turned down as pruned. |
| Runs.FirstBlockDecides | src/blockchain.rs:938-1051 | At any moment of any run, the next step keeps the chain, all but its tip, exactly when it keeps the first block. |
| Runs.ConfirmedChainIsFinal | src/blockchain.rs:938-1051 | In a run that keeps the first block, every proper prefix of the chain stays a prefix of every later chain. |
| Runs.ConfirmedIsExecutedExactly | src/blockchain.rs:850-880 | At any moment of any run at which just the confirmed chain has been executed, the next step keeps it so exactly when it does not accept a block that makes a rival first block win; it then keeps accounts and auctions a replay of it. |
| Runs.StableExactly | src/blockchain.rs:850-880 | A run from the start keeps the first block once something is committed exactly when no step overturns it, and exactly when in every state just the confirmed chain has been executed. |
| Runs.WorldIsReplayOfExecuted | src/blockchain.rs:850-880 | In every run, also across changes of the first block, accounts and auctions equal a replay of the executed blocks from nothing as long as none of these has been pruned. |
| Runs.SettledIsInSync | src/blockchain.rs:850-880 | In every run, whenever just the confirmed chain has been executed, accounts and auctions equal its replay from nothing. |
| Runs.WorldRefinesReplay | src/blockchain.rs:850-880 | In every run that keeps the first block once something is committed, accounts and auctions equal a replay of the confirmed chain from nothing, and exactly that chain was executed. |
| Runs.ExecutedOneByOne | src/blockchain.rs:850-880 | In every run, as long as no executed block has been pruned, the world is reached from the empty one by all transactions of the executed blocks, one by one and in order, and the journal holds exactly those that succeeded. |
| Runs.ArchivedIsSolved | src/blockchain.rs:732-761 | In every run the hash of every block ever pushed stands for a digest with at least 16 leading zero bits. |
| Runs.OpenAuctionsAreFound | src/blockchain.rs:1126-1143 | In every run, as long as no executed block has been pruned, looking up an open auction yields the first record of it in the block that holds its last successful creation. |
| Runs.StopsSucceedExactly | src/blockchain.rs:820-843 | In such states a stop of an open auction succeeds exactly if it is signed, carries its sender's nonce, and passes the check against the first record of the auction in the block that created it. |
| Runs.OnlyCreatorsStopEarlyExactly | src/blockchain.rs:820-831 | In such states no early stop by another than the creator can succeed exactly if that first record allows none to any other account holder, provided that account holders can sign stops. |
| Runs.EarlyStopsAreRightful | src/blockchain.rs:820-831 | In such states every stop of an open auction that ever succeeded had passed that check against the block in which the auction was created. |
| Runs.EarlyStopsAreTheCreators | src/blockchain.rs:820-831 | In such states, if the first record allows no early stop to any other account holder, every early stop that succeeded came from the creator. |
| Runs.ExecutedIsHeld | src/blockchain.rs:971-1021 | In every run in which at most one step overturns the first block after an execution, no executed block is ever pruned, and accounts and auctions are a replay of the executed blocks. |
| Runs.NewlyConfirmedAreExecuted | src/blockchain.rs:850-880 | In such a run each step executes just the chain blocks that it gives their second successor, each in its place. |
| Runs.NoBlockExecutesTwice | src/blockchain.rs:850-880 | In no run, even when the first block changes, is a block executed twice. |
| Runs.FixIsIdempotent | src/blockchain.rs:1025-1051 | A second repair changes nothing. |
| Runs.ShapeAfterEveryStep | src/blockchain.rs:983-1046 | A chain block before the last two has its successor as only child; any other block below the first chain block is a childless sibling of the tip. |
| Runs.NonceAccounting | src/blockchain.rs:770-847 | In every run, also across a change of the first block, a sender's successes carry the nonces 0, 1, 2, ... modulo 2^32, its first creates its account, and the stored nonce counts them. |
| Runs.NoPairSucceedsTwice | src/blockchain.rs:789-800 | In every run no pair of sender and nonce succeeds twice while the sender has at most 2^32 successes, however often it appears in blocks. |
| Runs.AuctionAccounting | src/blockchain.rs:802-843 | In every run an auction is open exactly if its last successful create or stop was a create, with the block and stop time of that on record; all that succeeded was signed and stems from a block that was pushed. |
| Runs.AccountsStayThroughout | src/blockchain.rs:1188-1204 | No account ever vanishes in any run, so an admitted transaction's sender stays known. |
| Engine.Blockchain.constructor | src/blockchain.rs:701-712 | A new engine is valid and in the initial state. |
| Engine.Blockchain.ExecuteSingleTransaction | src/blockchain.rs:770-847 | The in-place execution has the specified result and verdict; a rejected transaction changes nothing. |
| Engine.Blockchain.ExecuteTransactions | src/blockchain.rs:850-880 | It runs the chain blocks from the cursor to the second-to-last and leaves the cursor there, or leaves all as it is if the cursor is beyond. |
| Engine.Blockchain.Prune | src/blockchain.rs:971-1021 | It removes exactly the doomed blocks and tombstones them. |
| Engine.Blockchain.Repair | src/blockchain.rs:1025-1051 | The imperative repair equals the specified one: best chain, cut, execution. |
| Engine.Blockchain.VerifyChain | src/blockchain.rs:917-928 | The loop returns whether every chain block is held and passes its check. |
| Engine.Blockchain.AcceptBlock | src/blockchain.rs:732-768 | The verdict is that of the checks in order and the new state is that of the step. |
| Engine.Blockchain.ProposeBlock | src/blockchain.rs:883-914 | The pool is spent; a mined block of just its queue is pushed on the tip, unless the pool was empty or no nonce below the difficulty hits for its queue at any clock reading; the final check never fails. |
| Engine.Blockchain.CandidateIsUnique | src/blockchain.rs:883-914 | State, pool and clock readings determine the proposed block up to the miner. |
| Engine.Blockchain.AddTransaction | src/blockchain.rs:1054-1103 | A transaction is added exactly under the conditions of `Mempool.AdmittedExactly`, else the pool is unchanged; the pool stays in order. |
| Sync.MissingExactly | src/behaviour.rs:350-367 | Asked for are exactly the served hashes that are not held, in the order served. |
| Sync.CatchUpSucceeds | src/behaviour.rs:296-336 | With no tombstone on the peer's chain and no fork inside the settled part, every requested block is accepted, and the requester ends on the better of its own and the peer's chain. |
| Sync.SettledPrefixSuffices | src/behaviour.rs:296-336 | Both hypotheses hold if the requester's chain minus its tip is a prefix of the peer's. |
| Sync.ExchangeCompleteExactly | src/behaviour.rs:296-367 | Over the run in which the served blocks are accepted one by one, the requester ends up holding the whole of the peer's chain exactly under those hypotheses. |
| Sync.AnswerExactly | src/behaviour.rs:303-317 | The served blocks are the only list with just blocks of the chain that were asked for, all of these, in chain order. |
| Sync.FreshNodeConverges | src/behaviour.rs:338-348 | A fresh node that takes over a peer's chain ends with its chain and cursor, with just the confirmed blocks executed, and with the accounts and auctions of their replay. |
| Sync.FreshNodeReachesPeerExactly | src/behaviour.rs:338-348 | For every peer state of every run, the fresh node has executed what the peer has exactly if the peer has executed just its confirmed chain, and then it has the peer's accounts, auctions and successes. |
| Sync.FreshNodeReachesPeer | src/behaviour.rs:338-348 | It does so for every peer whose run kept the first block once something was committed. |
| Sync.SameChainSameWorld | src/blockchain.rs:850-880 | Two nodes on one chain of hashes, each with just its confirmed blocks executed, hold the same transactions for these exactly if they hold equally many, and then have the same accounts, auctions and successes, short of a collision at hand. |
| Network.WholeChainIsServed | src/behaviour.rs:283-317 | For a node without blocks, the whole-chain reply is what the exchange by hashes would deliver. |
| Network.Node.AcceptBlock | src/runtime.rs:150-218 | What each verdict does to the node: an accepted block is dated and published, and an error reported if that fails; an orphan is put aside and, from gossip, leads to just the request for the hashes of that peer; duplicates do nothing; other verdicts are reported. |
| Network.Node.HandleRequest | src/behaviour.rs:282-318 | Served are the hashes of the best path of the tree, the whole chain as checked blocks each on top of the one before, or the one answer to a request by hashes (all wanted chain blocks in chain order, checked). |
| Network.Node.HandleResponse | src/behaviour.rs:328-367 | Blocks are accepted one by one in order, whatever the verdicts; hashes lead to a request for exactly the unknown ones. |
| Network.Exchange | src/behaviour.rs:296-367 | The messages between two nodes, hashes, request and blocks, leave the requester in the state of the specified exchange and the peer as it was; under the hypotheses of `Sync.CatchUpSucceeds` the requester holds the whole of the peer's chain and is on the better of both. |
| ClientWalk.FirstHashExactly | src/state.rs:74-86 | The first hash is handed out exactly while the count of executed blocks, modulo 2^32, is at least 2 and below 2^31 + 2. |
| ClientWalk.ReadAt | src/blockchain.rs:1145-1177 | A chain block is available exactly if it has two successors, and the hash after it is the next one of the chain. |
| ClientWalk.ReadExactly | src/blockchain.rs:1145-1177 | For every hash, a block is available exactly if it has two successors on the chain, and a next hash is handed out exactly for these; a held block off the chain is not available. |
| ClientWalk.WalkFollowsChain | src/state.rs:235-267 | With any steps between the two reads of a request and between requests, and the first block kept, a client obtains the blocks of the final chain in order: none skipped, repeated or retracted. |
| ClientWalk.ClientEnumeratesConfirmed | src/state.rs:235-267 | On a chain at rest the walk from the first hash enumerates exactly the confirmed blocks. |
| Witness.FirstBlockCanChange | src/blockchain.rs:983-992 | Runs from the start, over concrete blocks, in which a rival first block wins after an execution: what was executed is off the chain and stays executed, accounts and auctions differ from a replay of the confirmed chain, and a fresh node that takes over the same chain ends with others. |
| Witness.ExecutedCanBePruned | src/blockchain.rs:983-1018 | A run from the start, over concrete blocks, that changes its first block twice and prunes an executed block. |
| Witness.OthersCanStopEarly | src/blockchain.rs:820-831 | A run from the start, over concrete checked blocks, in which an account holder whose record of the auction was rejected stops another's auction before its stop time. |
| Witness.SameHashOtherWorld | src/blockchain.rs:564-592 | For all hash functions, a checked block of six transactions has a body of eight that passes the check with the same hash and whose execution from nothing leaves another nonce. |
| Witness.SameChainOtherWorld | src/blockchain.rs:850-880 | Two runs from the start, over concrete blocks, that end on one chain of hashes with different accounts. |

## Left out

- Blocks.Mine: mining runs for as long as there are clock readings; the model takes the readings as an input and reports that it is still mining when they are used up, because termination is a matter of chance.
- Engine.Blockchain.ProposeBlock: relies on the header of the one block that this call mines not having the digest of a block already pushed; with such a digest the tree could become cyclic and the search for the best branch would not end. The program relies on the same and cannot check it.
- Mempool.SortedQueue: the library sort is represented by repeated selection of the oldest transaction; its result is the unique sorted queue.
- The direct insertions into the pool at src/vm.rs:155-160 and src/vm.rs:236-249 bypass the admission checks, and the statements about pending nonces do not cover them.
- Notifiers, the rate limit, request decoding and protobuf conversions, which copy fields or signal waiting clients.
- The network layers (discovery, gossip, ping, identify), the terminal client, the bots, key files and key mining.
- Blake2b, Ed25519, JSON and the parsing of keys, represented by the functions of `Blocks.Crypto`.
- Locks and clocks: each engine call, and each read inside a client request, is one atomic step, the two reads of a served response are one, and timestamps are inputs.
