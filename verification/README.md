# Verification of the CPoS node core

This project models the core of the CPoS committeeless proof-of-stake node in Dafny and proves
what it keeps over whole runs: the local chain and its fork handling, the sortition arithmetic, the
resync protocol, the Merkle tree, and the liveness bookkeeping of the discovery beacon.
`dafny verify dfyconfig.toml` checks everything.

## How it is built

Code that changes things in place is modelled by classes and loops (`BlockChainObject.BlockChain`,
`NodeObject.Node`, `Merkle.MerkleTree`, `Beacon.BeaconNode`, and the loops of `Binomial` and
`Sortition`). Each of their methods is proved equal to a function on values (`Chain.Insert`,
`Chain.Merge`, `Chain.UpdateRound`, `Protocol.Turn`, `Merkle.Root`, `Beacon.Sweep`, ...), and the
properties of runs are proved about those functions.

| files | what they model |
|---|---|
| Bytes, Blocks | byte order and encodings, blocks, their three hashes, hash-linked chains |
| Binomial, Sortition | the binomial distribution and the three searches over it |
| Chain, LocalChains, BlockChain | the meaning of `insert`, `merge` and `update_round`; the SQL statements on the table's rows; the object that runs them |
| ChainRuns, Ledger, MergeOutcome, ChainQuality, Confirmation | properties of runs of the three operations |
| Protocol, Node | one turn of the node's loop, as a function and as the object's methods |
| NodeEffects, Production | what the handlers of a turn do, and when a block is valid or can be produced, told from the outside |
| NodeInvariant, NodeOperations, HonestRuns, Resync, HonestResync | properties of runs of turns |
| Samples, ResyncExample, Counterexamples | three concrete runs |
| Merkle, Beacon | the tree and the beacon |

SHA-256 is an arbitrary function to 32-byte digests. It is never assumed injective: a result that
needs it assumes only that no two of the finitely many byte strings that it hashes collide
(`Bytes.NoCollisions`), and names that set. Ed25519 is an arbitrary predicate for verification and
an arbitrary function for signing. The clock, random choices, the mempool, whether a request can be
sent, and the message that arrives are inputs of a turn (`Protocol.Input`).

A table carries three history fields that the program does not have (`log`, `birth`, `frozen`): which
tickets were credited, and between which moments a row counts them. No operation reads them.

## What the code does not do

These follow the code where a reader might expect otherwise.

- Tickets are credited before the proof hash and the round of a block are tested, so a refused block
  counts. Two valid children of the tip that are refused for their round are enough to make
  `update_round` fail on a missing row, even when every block is honest and nothing collides.
  `Counterexamples.RejectedChildrenCanMakeARoundRaise` gives such a run,
  `Confirmation.RoundRaisesWhenEveryRowPasses` says exactly when it happens, and
  `Confirmation.RoundsNeverRaise` which runs are free of it.
- `compose_block` gives a stored block back exactly when its hashes are the ones its fields give and
  its transaction hash is empty (`Resync.ComposingGivesTheBlockBack`). `insert` checks neither: a
  forged hash field and the genesis row do not come back. In a resync both matter for the blocks that
  are sent, the ones above an ancestor that both chains hold; the first holds for every honest node.
- A missed block can end up in the chain without leaving the missed list. In every run, whatever the
  messages and the hash function, that happens exactly when the node itself makes a block with a
  missed hash (`NodeInvariant.MissedStayOutOfEveryRun`). Messages whose blocks have the hashes their
  fields give and 32-byte keys (`Protocol.Honest`) rule it out unless preimages collide
  (`HonestRuns.MissedStayOutOfHonestRuns`); `Counterexamples.AForgedHashEntersTheChain` is a run in which a
  forged hash field, which nothing checks, lets it happen although nothing collides.
- A negative chunk size makes every Merkle root the padding byte
  (`Merkle.NegativeChunkSizeBindsNothing`), so the binding results need a positive one.
- A `Hello` from a peer that the beacon knows does not keep it alive; only a notification does.

## Model

| member | source | states |
|---|---|---|
| Binomial.BinomialIsExact | cpos/core/sortition.py:8-17 | for all n and p the falling product is divisible by p!, and the quotient is Pascal's coefficient |
| Binomial.Coefficient | cpos/core/sortition.py:8-17 | the loops return that coefficient; the call fails exactly when p > n, and a negative p gives 1 |
| Binomial.CumulativeBinomDist | cpos/core/sortition.py:19-24 | the loop returns the partial sum of the distribution; it fails exactly when k exceeds n |
| Binomial.PmfStep | cpos/core/sortition.py:19-24 | one more draw mixes the mass at k and at k - 1 with weights 1 - p and p |
| Binomial.CdfTotal | cpos/core/sortition.py:19-24 | binomial theorem: from k = n on the sum is exactly 1, for every real p |
| Binomial.CdfGrowsWithK | cpos/core/sortition.py:19-24 | the distribution function does not decrease in k |
| Binomial.CdfFallsWithN | cpos/core/sortition.py:19-24 | it does not increase in the number of draws |
| Binomial.CdfFallsWithP | cpos/core/sortition.py:19-24 | it does not increase in the success probability |
| Sortition.HashFraction | cpos/core/sortition.py:39-43 | the scaled digest lies in [0, 1), so the search meets a sum that reaches it |
| Sortition.DigestIsLittleEndian | cpos/core/sortition.py:39-43 | raising byte i of the digest by one raises the fraction by exactly 256^i / 256^32 |
| Sortition.ZeroDigestIsZero | cpos/core/sortition.py:39-43 | the all-zero digest is 0, which with the weights of the bytes fixes every value |
| Sortition.LastByteDecides | cpos/core/sortition.py:39-43 | the last byte over 256 is the fraction up to 1/256 |
| Sortition.RunSortition | cpos/core/sortition.py:37-52 | the search ends, stays within the stake, never asks for a coefficient out of range, and returns the first count whose sum reaches q |
| Sortition.CrossingIsTheTicketCount | cpos/core/sortition.py:46-52 | the result is the only i with CDF(i-1) < q <= CDF(i) |
| Sortition.SortitionIsMonotone | cpos/core/sortition.py:37-52 | more stake or a higher probability never lowers the number of winning tickets |
| Sortition.ConfirmationThreshold | cpos/core/sortition.py:54-68 | the search ends and returns the least s >= 1 whose tail is within the threshold |
| Sortition.ConfirmationBound | cpos/core/sortition.py:54-68 | that s exists and is at most total_stake / 2 + 1 |
| Sortition.ConfirmationBoundIsSharp | cpos/core/sortition.py:54-68 | the condition holds exactly from the returned s on |
| Sortition.ConfirmationBoundMeans | cpos/core/sortition.py:54-68 | s reaches the threshold exactly when at least 2 * delta_r * s successes in total_stake * delta_r draws, each with probability tau / total_stake, are no likelier than the given chance |
| Sortition.ForkThreshold | cpos/core/sortition.py:70-86 | the search ends at or above 0 and returns the greatest a up to tau whose tail meets the threshold |
| Sortition.ForkBoundIsSharp | cpos/core/sortition.py:70-86 | the condition holds exactly up to the returned a |
| Sortition.ForkBoundMeans | cpos/core/sortition.py:70-86 | a up to tau is within the threshold exactly when at least a * delta_r successes in those draws are at least as likely as the given chance |
| Sortition.ForkBelowTwiceConfirmation | cpos/core/blockchain.py:115-137 | for the same waiting time the fork bound is below twice the confirmation bound, whenever the risk is below the confidence |
| Blocks.Create | cpos/core/block.py:12-39 | a block is built exactly when round and ticket fit unsigned 32-bit fields, negative ones do not, and then its hashes are fixed points of `update` |
| Blocks.UpdateFixesHashes | cpos/core/block.py:26-46 | in a well-formed block each hash is the digest of its own preimage, and has 32 bytes |
| Blocks.WellFormedMeans | cpos/core/block.py:26-46 | a block is well formed exactly when round and ticket fit and its hashes are the digests of key, round and parent, of node hash and ticket, and of proof hash, parent and transaction hash |
| Bytes.Encode32Layout | cpos/core/block.py:33-43 | the four bytes of a round or ticket, lowest first |
| Blocks.HashBindsContent | cpos/core/block.py:33-46 | well-formed blocks with equal hashes agree on parent, owner, round, ticket, transaction hash and inner hashes, unless two of their six preimages collide |
| Blocks.CommonPrefix | cpos/core/block.py:33-68 | chains from genesis that hold blocks with the same hash hold them at the same index and agree on every block up to it, unless two preimages collide |
| Chain.Validate | cpos/core/blockchain.py:154-177 | a validated block has a 32-byte key, a signature that verifies, and a positive ticket count that reaches its ticket number and is at most the stake |
| Chain.FoundFirst | cpos/core/blockchain.py:330-337 | a hash is reported unknown exactly when no row has it, and otherwise at its first row |
| Chain.InsertEffect | cpos/core/blockchain.py:197-238 | an accepted block replaces everything from its index on; a refused one leaves every block |
| Chain.CreditedOutcome | cpos/core/blockchain.py:214-238 | once a block is valid its tickets are credited, and it goes in exactly when it beats the block at its index, if any, and its round is above its parent's |
| Chain.InsertKeepsInvariant | cpos/core/blockchain.py:197-238 | insert keeps contiguous indices, parent links, distinct hashes, rising rounds, the confirmed prefix and the falling numSuc |
| Chain.MergeKeepsInvariant | cpos/core/blockchain.py:240-270 | merge keeps it, whether it succeeds or puts the local rows back |
| Chain.FailedMergeIsExact | cpos/core/blockchain.py:240-264 | a failed merge changes nothing, unless its head is a new and valid block right above the ancestor that is refused for its round; then exactly its tickets go to every unconfirmed row up to the ancestor |
| Chain.MergeSucceedsExactlyWhen | cpos/core/blockchain.py:240-270 | a merge succeeds exactly when its head is new, valid, right above a known parent and in a later round |
| Chain.HeadIsPoppedWhenItsParentIsKnown | cpos/core/blockchain.py:243-259 | the caller's list loses its head exactly when the head's parent is known, and is otherwise untouched |
| Chain.FailedMergeOnlyCredits | cpos/core/blockchain.py:240-264 | whatever the table, a failed merge leaves every block, every flag, and every row above the ancestor |
| Chain.UpdateRoundKeepsInvariant | cpos/core/blockchain.py:80-142 | a new round keeps the invariant and every block |
| Chain.LengthIsBoundedByRound | cpos/core/blockchain.py:231-234 | under the invariant a chain has at most tip.round + 1 blocks |
| Chain.LoopConfirmsRun | cpos/core/blockchain.py:104-129 | confirming one row at a time confirms the maximal run of oldest passing rows, and stops at the row behind it |
| Chain.RunIsMaximal | cpos/core/blockchain.py:104-129 | everything in the run passes its own threshold and the row after it does not |
| Chain.LastIsConfirmedWhenAllAre | cpos/core/blockchain.py:97-102 | comparing the last confirmed hash with the last hash tells whether every row is confirmed |
| LocalChains.AtIndexIsThere | cpos/core/blockchain.py:346-351 | on an indexed table a lookup by index below its length finds that row |
| LocalChains.DeletionKeepsPrefix | cpos/core/blockchain.py:353-357 | deleting from an index keeps the prefix, and selecting from it yields the rest |
| LocalChains.CreditReachesBelow | cpos/core/blockchain.py:388-392 | the update adds the tickets to exactly the unconfirmed rows below the index |
| LocalChains.RemovedKeyIsNew | cpos/core/blockchain.py:447-453 | every key of the rows that are put back is new when its INSERT runs |
| LocalChains.WithHashFindsFirst | cpos/core/blockchain.py:426-436 | a lookup by hash yields the first row with it, or nothing when there is none |
| LocalChains.ConfirmedRowsAreAPrefix | cpos/core/blockchain.py:359-380 | the last confirmed row and the oldest unconfirmed one are neighbours at the end of the confirmed prefix |
| LocalChains.ConfirmChangesOneRow | cpos/core/blockchain.py:382-386 | with distinct hashes, confirming by id sets the flag of one row |
| BlockChainObject.BlockChain.constructor | cpos/core/blockchain.py:52-78 | a new chain is genesis, confirmed, after one round update |
| BlockChainObject.BlockChain.ValidateBlock | cpos/core/blockchain.py:154-177 | key, signature, sortition and ticket tests give the validated ticket count |
| BlockChainObject.BlockChain.BlockInBlockchain | cpos/core/blockchain.py:330-337 | true exactly when some row has the hash |
| BlockChainObject.BlockChain.HasCorrectParent | cpos/core/blockchain.py:346-351 | the row below the index is found and has the parent hash |
| BlockChainObject.BlockChain.UpdateSuccessfulSortition | cpos/core/blockchain.py:388-392 | the whole new table: tickets credited below the index |
| BlockChainObject.BlockChain.DeleteBlocksSince | cpos/core/blockchain.py:353-357 | the whole new table: the prefix, confirmed rows not spared |
| BlockChainObject.BlockChain.InsertBlock | cpos/core/blockchain.py:298-305 | the new key is free and the row goes behind the last one, uncredited and unconfirmed |
| BlockChainObject.BlockChain.ReintroduceBlocks | cpos/core/blockchain.py:447-453 | the loop of INSERTs puts the removed rows back as they were, each under a new key |
| BlockChainObject.BlockChain.OldestUnconfirmedBlock | cpos/core/blockchain.py:374-380 | the row behind the confirmed prefix, or nothing |
| BlockChainObject.BlockChain.ConfirmBlock | cpos/core/blockchain.py:382-386 | the oldest unconfirmed row becomes confirmed and nothing else changes |
| BlockChainObject.BlockChain.BlockByIndex | cpos/core/blockchain.py:465-473 | the block rebuilt from the row at the index, negative ones counted from the end |
| BlockChainObject.BlockChain.Insert | cpos/core/blockchain.py:197-238 | state and result are those of `Chain.Insert`; no lookup comes back empty |
| BlockChainObject.BlockChain.Merge | cpos/core/blockchain.py:240-270 | state, result and what is left of the caller's list are those of `Chain.Merge` |
| BlockChainObject.BlockChain.ConfirmPassing | cpos/core/blockchain.py:104-129 | the loop ends and confirms the maximal run, with its delays |
| BlockChainObject.BlockChain.UpdateRound | cpos/core/blockchain.py:80-142 | state, and whether the call fails, are those of `Chain.UpdateRound` |
| ChainRuns.EveryReachableChainIsSound | cpos/core/blockchain.py:80-270 | every state that insert, merge and update_round reach from genesis satisfies the invariant and the length bound |
| ChainRuns.EveryReachableChainIsValidated | cpos/core/blockchain.py:214-220 | every block behind genesis of such a state has passed validation |
| Ledger.EveryValidatedBlockIsLogged | cpos/core/blockchain.py:214-220 | exactly the new, linked and valid blocks are credited, inserted or not |
| Ledger.ReattachedRowsAccount | cpos/core/blockchain.py:253-264 | taking rows out and putting them back in a failed merge does not disturb what they count |
| Ledger.LedgerBalancesInEveryRun | cpos/core/blockchain.py:215-238 | in every run, an unconfirmed row's numSuc is the sum of tickets credited above it since it was inserted, and a confirmed row's is frozen |
| MergeOutcome.ChildOfTipLandsAtTheEnd | cpos/core/blockchain.py:197-238 | a block whose parent is the tip can only land behind it |
| MergeOutcome.SuccessfulMergeReplacesTheFork | cpos/core/blockchain.py:240-270 | a successful merge of a linked list leaves the prefix through the ancestor and the longest accepted non-empty prefix of the list |
| ChainQuality.InsertImproves | cpos/core/blockchain.py:223-238 | every successful insert makes the chain strictly better, every other one leaves its blocks |
| Bytes.LessIsLexicographic | cpos/core/blockchain.py:223-227 | proof hashes are compared by the first byte that differs, a proper prefix being smaller |
| ChainQuality.BetterIsTransitive | cpos/core/blockchain.py:223-227 | the order of chains by first differing proof hash and proper extension is transitive |
| ChainQuality.BetterIsIrreflexive | cpos/core/blockchain.py:223-227 | and no chain is better than itself |
| ChainQuality.RunsOnlyImprove | cpos/core/blockchain.py:197-238 | in runs without a successful merge the chain never gets worse, and any success makes it better |
| ChainQuality.NoEarlierChainReturns | cpos/core/blockchain.py:197-238 | in such runs no chain from before a successful insert comes back |
| Confirmation.RoundConfirmsThePassingPrefix | cpos/core/blockchain.py:104-129 | a row is confirmed after a round exactly when it was, or every unconfirmed row up to it passes |
| Confirmation.RoundReportsAFork | cpos/core/blockchain.py:131-142 | a fork is reported exactly when the first row that fails its threshold has too low an average |
| Confirmation.PassesMeans | cpos/core/blockchain.py:108-126 | a row passes exactly when d >= 1 rounds lie between its own and the new one and its numSuc exceeds s * d, with s the confirmation threshold for d and 1e-6 |
| Confirmation.LooksForkedMeans | cpos/core/blockchain.py:133-139 | a row looks forked exactly when d >= 1 and its numSuc is below a * d, with a the fork threshold for d and 0.95 |
| Confirmation.OldestIsConfirmedExactlyWhen | cpos/core/blockchain.py:106-129 | a new round confirms the oldest unconfirmed row exactly when d >= 1 and numSuc > s * d |
| Confirmation.FewTicketsNeverConfirm | cpos/core/blockchain.py:106-129 | a row with numSuc <= d is never confirmed |
| Confirmation.LeftOverRowDecidesTheFork | cpos/core/blockchain.py:133-142 | the first row a round leaves unconfirmed makes it report and count a fork exactly when d >= 1 and numSuc < a * d |
| Confirmation.NothingLeftOverNoFork | cpos/core/blockchain.py:86-102 | the same round again changes nothing, a new one is taken over, and without a row left over there is no report |
| Confirmation.RoundRecordsDelays | cpos/core/blockchain.py:124-127 | exactly the newly confirmed rows are recorded, oldest first, with hash, index and age, and the last delay counts from the newest row confirmed before |
| Confirmation.RoundRaisesWhenEveryRowPasses | cpos/core/blockchain.py:104-107 | the call fails exactly when some row is unconfirmed and all of them pass |
| Confirmation.RoundsNeverRaise | cpos/core/blockchain.py:104-107 | in runs that turn no valid child of the tip down for its round, the tip's numSuc is 0 and the call never fails |
| Protocol.BestCandidateIsSmallest | cpos/node.py:183-212 | the block that is found is a valid candidate that no other one beats; there is none only if no candidate is valid |
| Production.ValidExactlyWhen | cpos/core/blockchain.py:154-177 | a block is valid, with one winning ticket, exactly when its key has 32 bytes, its signature verifies for its node hash, its ticket number is at most one and the digest of the signature exceeds 1 - tau / total_stake |
| Production.ProducesExactlyWhen | cpos/node.py:175-212 | a node whose keys match produces a block exactly when the digest of its signature of sha(key, round, tip hash) exceeds 1 - tau / total_stake |
| Production.ProducedBlockIsExact | cpos/node.py:175-212 | what is produced names the tip, the round and ticket 0, is signed over its own node hash, carries the mempool's transactions, and is valid |
| Protocol.OwnBlockFitsBehindTheTip | cpos/node.py:192-198 | it fits behind the tip, so only a known hash or a round that has not risen keeps it out |
| Protocol.BeforeReadingIsSound | cpos/node.py:285-328 | whatever happens before a message is read keeps the chain invariant |
| Protocol.ReceivePhaseIsSound | cpos/node.py:331-391 | so does whatever a message does |
| NodeObject.Node.constructor | cpos/node.py:38-115 | a new node listens, with empty buffers and a fresh chain |
| NodeObject.Node.GenerateBlock | cpos/node.py:183-212 | the loop over the tickets finds the valid candidate with the smallest proof hash; it fails exactly when a field does not fit |
| NodeObject.Node.HandleNewBlock | cpos/node.py:214-256 | the whole new state: tolerance, own, known and missed blocks are dropped, and a refused one is kept with its sender |
| NodeObject.Node.StartResync | cpos/node.py:285-302 | the whole new state: random missed blocks are dropped until a request reaches a sender |
| NodeObject.Node.UpdateRound | cpos/node.py:304-328 | the whole new state of the round update and of the node's own block, in either mode |
| NodeObject.Node.AnswerRequest | cpos/node.py:350-355 | a request is answered with the block at the index when there are more blocks than its absolute value, and fails when that block cannot be rebuilt |
| NodeObject.Node.HandleResponse | cpos/node.py:360-391 | the whole new state for an empty answer, a merge that succeeds and one that does not |
| NodeObject.Node.LoopOnce | cpos/node.py:285-404 | one turn does what `Protocol.Turn` says and sends the reply it says; it keeps the node invariant, and lets no missed block into the chain unless it makes a missed hash |
| NodeEffects.StartIsExact | cpos/node.py:285-302 | a listening node with a detected fork takes missed blocks out until a request goes out and then asks the sender of the last one; when none goes out nothing is left and the turn is over; any other node does nothing |
| NodeEffects.PickTakesOut | cpos/node.py:288-297 | what is taken out was missed, and the rest keeps its order |
| NodeEffects.RoundIsExact | cpos/node.py:304-328 | in which rounds a node joins, produces, skips the rest of the turn or fails, and what each leaves of its state |
| NodeEffects.BroadcastIsExact | cpos/node.py:214-256 | which blocks are tried, and that exactly the refused ones are kept, with their sender |
| NodeEffects.EmptyAnswerIsExact | cpos/node.py:365-377 | after an empty answer the sender of some missed block is asked for its last block, and that block alone is missed no more |
| NodeEffects.BlockAnswerIsExact | cpos/node.py:379-391 | an answer ends the resync exactly when it goes right above a known block; refused above a known parent it leaves the buffer as it was, above an unknown one it is put in front |
| NodeEffects.OtherMessagesAreIgnored | cpos/node.py:341-391 | broadcasts change listening nodes only and answers resyncing ones only |
| NodeEffects.AnswerIsExact | cpos/node.py:350-355 | for every index, whether there is an answer, which row's block it is, and when it fails |
| NodeEffects.RepliesGoToTheAsker | cpos/node.py:346-355 | a reply goes to whoever sent the request that is read, and only then |
| NodeInvariant.TurnKeepsInvariant | cpos/node.py:285-404 | a turn keeps the chain sound, missed blocks distinct and foreign, and the mode consistent with buffer, fork flag and counters |
| NodeInvariant.InvariantHoldsInEveryRun | cpos/node.py:214-404 | so they are after every turn of every run, whatever the messages and the hash function: the resync buffer is empty while listening and resyncing implies a detected fork |
| NodeInvariant.MissedStayOutUnlessProduced | cpos/node.py:321-325 | producing a block puts a missed hash into the chain exactly when its own hash is a missed one |
| NodeInvariant.TurnIsExact | cpos/node.py:285-404 | when a turn reads a message, or ends without one, no missed block is in the chain exactly when the turn has not made a missed hash; reading never lets one in |
| NodeInvariant.MissedStayOutOfEveryRun | cpos/node.py:214-404 | in every run, missed blocks stay out of the chain exactly when no turn makes a missed hash |
| NodeOperations.TurnIsOperations | cpos/node.py:285-391 | the chain after a turn is the chain after a list of inserts, merges and round updates, up to the fork flag |
| NodeOperations.RunIsOperations | cpos/node.py:274-404 | the chain of a node after any run is the chain after the operations of its turns, up to the fork flag |
| NodeOperations.NodeLedgerBalances | cpos/core/blockchain.py:215-238 | the ticket ledger balances in every run of a node |
| NodeOperations.NodeChainIsValidated | cpos/core/blockchain.py:214-220 | every block behind genesis of a node's chain has passed validation |
| NodeOperations.NodeRoundsNeverRaise | cpos/core/blockchain.py:104-107 | a node that turned no valid child of its tip down for its round has a tip without tickets, and its next round update does not fail |
| NodeOperations.NodeChainOnlyImproves | cpos/core/blockchain.py:197-238 | between two moments of a node's run without a successful merge the chain gets no worse, and better with every insert |
| HonestRuns.OwnHashIsNew | cpos/node.py:221-224 | a block of this node has no missed hash, unless preimages collide |
| HonestRuns.MissedStayOutOfHonestRuns | cpos/node.py:214-404 | in runs of honest messages without collisions no missed block is ever in the chain |
| HonestRuns.HonestChainsAreHashLinked | cpos/node.py:274-404 | a node that reads honest messages always has a hash-linked chain |
| HonestRuns.HonestNodesAgreeUpToACommonBlock | cpos/node.py:274-404 | two such nodes that hold a block with the same hash hold it at the same index and agree up to it, unless preimages collide |
| Resync.ComposingGivesTheBlockBack | cpos/core/blockchain.py:307-318 | any stored block is given back exactly when it is well formed and its transaction hash is empty |
| Resync.AnswersWalkBackwards | cpos/core/blockchain.py:465-473 | request -1-k is answered with the block k below the tip |
| Resync.MergingASuffixOfThePeer | cpos/core/blockchain.py:240-270 | merging a suffix of the peer's chain succeeds exactly when the block before it is known, and then gives the peer's chain |
| Resync.RoundKeepsKnown | cpos/node.py:304-328 | a new round and the node's own block leave every hash of the chain known |
| Resync.TurnMakesProgress | cpos/node.py:304-391 | a turn without an answer keeps the resync where it is; one with an answer completes it or goes one block further back |
| Resync.ResyncConverges | cpos/node.py:288-391 | for any block both chains hold, such as genesis: in every run of turns the resync is over after at most as many answers as the peer has blocks behind it, and then the chain equals the peer's block by block, whatever the node appended meanwhile |
| HonestResync.StartingIsJustAsking | cpos/node.py:285-302 | starting puts request -1 out with an empty buffer, and the turn goes on as a resyncing one |
| HonestResync.EmptyAnswerAsksAnotherPeer | cpos/node.py:365-377 | a turn that reads an empty answer asks the sender of another missed block, which is missed no more, or ends the resync and forgets the fork |
| HonestResync.ResyncConvergesAfterAnEmptyAnswer | cpos/node.py:365-391 | the resync that goes on with another peer after an empty answer converges all the same |
| HonestResync.HonestPeersServe | cpos/core/blockchain.py:465-473 | the chain of an honest run can be handed over from any index on from which its transaction lists are plain |
| HonestResync.HonestNodesResync | cpos/node.py:274-404 | two honest runs from genesis with the same parameters: when one asks the other for blocks, its resync converges to the other's chain as above, given plain transaction lists behind a shared block, answers from that other node, and no collision |
| ResyncExample.AResyncThatCompletes | cpos/node.py:274-391 | a concrete run of two nodes from genesis meets all assumptions of the convergence result: they fork, one detects it and asks, and one answer gives it the other's chain |
| Counterexamples.AForgedHashEntersTheChain | cpos/node.py:214-325 | a concrete run from a fresh node in which a missed block with a forged hash field ends up in the chain as well |
| Counterexamples.TheForgeryIsNoCollision | cpos/core/block.py:33-46 | no two preimages of that run collide |
| Counterexamples.RejectedChildrenCanMakeARoundRaise | cpos/core/blockchain.py:220-234 | a concrete run of three inserts of honest blocks, without collisions, after which a round update fails |
| Merkle.PowerOfTwoTest | cpos/util/merkle.py:3-4 | the bit trick recognises exactly the powers of two |
| Merkle.PaddingRoundsUp | cpos/util/merkle.py:7-12 | padding reaches the next power of two and no further |
| Merkle.MerkleTree.Build | cpos/util/merkle.py:16-22 | building fails exactly on empty data and on a chunk size of 0, and else yields the padded leaves |
| Merkle.MerkleTree.CreateHashedChunks | cpos/util/merkle.py:24-32 | the loop yields the digests of the consecutive chunks, and none for a negative size |
| Merkle.MerkleTree.InsertPadding | cpos/util/merkle.py:34-41 | the digests, padded |
| Merkle.LeafAt | cpos/util/merkle.py:24-41 | leaf i is the digest of bytes i * size up to (i + 1) * size, or what is left of them, and one zero byte beyond the data |
| Merkle.RootOfFour | cpos/util/merkle.py:43-59 | left before right on every level |
| Merkle.MerkleTree.HashLevel | cpos/util/merkle.py:50-56 | one pass turns a finished level at stride 2^round into the next one at stride 2^(round+1) |
| Merkle.MerkleTree.MerkleRoot | cpos/util/merkle.py:43-59 | the in-place passes return the recursive tree hash of the leaves that were in the array |
| Merkle.PairHash | cpos/util/merkle.py:52-55 | the digest of two neighbours is the node above them |
| Merkle.RootBindsLeaves | cpos/util/merkle.py:43-59 | equal roots of equally many leaves come from equal leaves, unless inner preimages collide |
| Merkle.PaddingHidesNothing | cpos/util/merkle.py:34-41 | equal padded leaves come from equal digests |
| Merkle.DigestsBindData | cpos/util/merkle.py:24-32 | equal chunk digests come from equal data, unless chunks collide |
| Merkle.RootBindsData | cpos/util/merkle.py:16-59 | trees with the same positive chunk size, leaf count and root are trees of the same data, unless preimages collide |
| Merkle.NegativeChunkSizeBindsNothing | cpos/util/merkle.py:24-41 | with a negative chunk size the root is the padding byte for all data |
| Beacon.HandleKeepsConsistent | cpos/p2p/discovery/beacon.py:87-114 | a message keeps ids distinct and the flag keys equal to them |
| Beacon.SweepKeepsConsistent | cpos/p2p/discovery/beacon.py:145-156 | so does a sweep |
| Beacon.SweepKeepsTheActive | cpos/p2p/discovery/beacon.py:145-156 | a sweep leaves exactly the peers that registered or notified since the last one, as a subsequence of their arrival |
| Beacon.EveryRunIsConsistent | cpos/p2p/discovery/beacon.py:87-156 | in every run of messages and sweeps both hold |
| Beacon.BeaconNode.HandleMessage | cpos/p2p/discovery/beacon.py:87-114 | the whole new bookkeeping for a registration or a notification |
| Beacon.BeaconNode.ManagePeerForgetting | cpos/p2p/discovery/beacon.py:145-156 | the loop never misses a flag and ends with the swept list and flags |
| Beacon.BeaconNode.UpdateRound | cpos/p2p/discovery/beacon.py:158-170 | a new round sweeps exactly when its number is a multiple of three |

## Left out

- MySQL connections, cursors and commits: the table is a sequence of rows in index order, a statement its meaning on them, and arrival times, the unused columns and the widths of columns are dropped.
- SHA-256 and Ed25519 themselves: a hash and a verification predicate are parameters.
- Floating-point rounding and overflow: probabilities are exact reals, with tau at most the total stake.
- The clock, randomness and the network: a turn takes the round number, the random choices, whether requests go out and the message as inputs; `should_halt`, `total_rounds`, rebroadcasts, notifications and peer-count control are dropped.
- Negative block indexes, on which `has_correct_parent` finds no row and fails.
- Object identity of blocks: `Block` is a value, so `update` returns the new block; the lists of the node hold values.
- A second `merkle_root` call on the same tree, whose leaves the first one has overwritten.
- A chain without a genesis block argument: `insert_genesis_block` needs one, and its round is 0; its timestamp only matters to the clock.
- `set_genesis_block`, the dump and log methods, the message classes, `rpc.py` and `demo/`: no property of their own.
- The transactions of a block are whatever the mempool gives; how `cpos/core/transactions.py` picks them is a query and a prefix cut.
- Finality of confirmed blocks, and merge preferring a smaller proof hash: the code enforces neither.
- Resync.ResyncConverges: assumes that every answer that is read is the peer's to the request that is out, because nothing in an answer says which request it belongs to; lost or stale answers and a peer whose chain changes are outside it, and so is a turn that fails with an exception.
- Merkle.MerkleTree.constructor: stated for the arguments on which building succeeds; `Merkle.MerkleTree.Build` has the failures.
