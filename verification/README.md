# Verified models of the Vocdoni node

This project models seven components of the Vocdoni node in Dafny and proves what they are for.

* **The state database** (`TreeLinks`, `TreeOrder`, `TreeViews`, `TreeUpdates`, `TreeTransactions`, `StateRuns`, `StateWrites`, `RootLeaves`, `KeySpace`). A hierarchy of Merkle trees, in which the root of every sub-tree lives in a leaf of its parent. A transaction opens sub-trees lazily, marks what it writes, and on commit propagates the roots upwards, skipping what nobody touched. The project proves that the result does not depend on the order of iteration at any level, that skipping is sound, and that what a committed transaction wrote is what the next view reads, over every run of transactions.
* **The ABCI application** (`AbciModel`, `Proposals`, `AbciApp`, `AbciRuns`). PrepareProposal, ProcessProposal, FinalizeBlock and Commit, in every order the consensus engine may use, with the cache that lets FinalizeBlock skip the execution of a block it has executed as a proposal. The reference is the section "Formal Requirements" of "Requirements for the Application" in CometBFT's ABCI 2.0 specification.
* **Vocone** (`VoconeModel`, `VoconeChain`, `VoconeMempool`, `VoconeKeys`, `VoconeQueue`, `VoconeHistory`, `VoconeNode`, `VoconeBlocks`). A chain with one node, three databases and volatile indexes. The model is a state machine whose steps are the persistent writes; a crash may come between any two of them, and a restart recovers.
* **Snapshots** (`Snapshot`, `SnapshotOrder`, `Chunks`, `ChunkLeftovers`). The file format with its writer and reader, the order of the trees in it, and the transfer in chunks that arrive in any order, also into a directory with files of another transfer.
* **The census weight** (`Census`, `CensusDump`), **encrypted votes** (`VotePackages`) and **circuit inputs** (`ZkInputs`, with the conversions of `Numbers`).

`Base` holds what the modules share. Objects that the Go code updates in place are classes whose methods are proved against functions of the old state; the lemmas are about those functions, over all inputs and all runs.

## Where the code falls short of what one would expect

Each point is a theorem: a concrete failing case, and the exact condition under which the property holds.

* FinalizeBlock trusts its cache without looking at the working state. After an accepted proposal, a PrepareProposal (which rolls the working state back, `vochain/cometbft.go:421`) or a rejected proposal (`vochain/cometbft.go:550-561`) leaves the cache in place, and Commit then saves another state than the one announced (`AbciRuns.PrepareProposalLosesTheBlock`, `AbciRuns.RejectedProposalReplacesTheBlock`, `AbciRuns.RejectedTransactionIsCommitted`; exactly when: `AbciRuns.FaithfulExactly`, `AbciRuns.FaithfulIffUndisturbed`).
* Vocone saves its state outside blocks too, at the height in production, and does so at every start when the key keeper is set. A block that is stored but not committed at that height is passed over by recovery (`VoconeChain.UncommittedBlockPassedOver`, `VoconeChain.RecoveryExactly`).
* The Pebble database strips the prefix from the keys it iterates over (`db/pebbledb/pebledb.go:59`), and `loadMempool` keeps those keys as database keys: a transaction pending at a restart can never be read or removed again (`VoconeMempool.RecoveryNeedsWholeKeys`, `VoconeHistory.PendingAtRestartIsStuck`, `VoconeHistory.StrippedQueueAgreesExactly`).
* The documentation of `KindID` asks for different identifiers (`statedb/statedb.go:112-116`). They also have to be free of prefixes of each other (`KeySpace.KindsApart`). Storage prefixes go through `path.Join`, so names with slashes collide, among siblings, across depths and with the parent's own keys (`KeySpace.SlashesCollide`, `KeySpace.DepthsCollide`, `KeySpace.NamesCanClimb`; exactly when: `KeySpace.SamePrefixExactly`, `KeySpace.OverlapExactly`).
* Importing a dump into a census that has weight already counts that weight twice (`Census.ImportCountsTwice`, `Census.ImportBalancesExactly`).
* A blob of 2^32 bytes or more wraps its recorded size, and reading it back fails (`Snapshot.RoundTripExactly`).
* The chunk directory is not emptied when a snapshot is offered. A file left over from a longer transfer makes the join start too early and fail; worse, a leftover with an index of the new transfer is silently taken for one of its chunks, and the joined file is accepted, since its hash is not compared with the announced one (`snapshot/snapshot.go:628`). Both are shown by runs of offers and chunks (`ChunkLeftovers.AbandonedTransferBreaksTheNext`, `ChunkLeftovers.AbandonedTransferForgesTheNext`); exactly when a transfer from any directory is right is `ChunkLeftovers.TransferIsRightExactly`.

## Model

| member | source | states |
|---|---|---|
| TreeOrder.LeafOrderIndependent | statedb/treeupdate.go:254-298 | several sub-trees with independent root setters leave one parent leaf the same in every order of updates |
| TreeOrder.PropagationIsUnique | statedb/treeupdate.go:236-302 | two propagations of the same writes, with any iteration orders at every depth, give the same trees and so the same state hash |
| TreeOrder.CleanUnchanged | statedb/treeupdate.go:239-249 | a branch in which neither the tree nor any opened descendant was written to comes out unchanged |
| TreeOrder.SkippingIsSound | statedb/treeupdate.go:243-280 | with linked clean sub-trees at the start, skipping clean branches gives the result of rewriting the root of every opened sub-tree |
| TreeViews.OpenAtRoot | statedb/treeview.go:127-154 | a stored tree opens at a root exactly when that is the root it has now, and never as another tree |
| TreeViews.DeepSubTree | statedb/treeview.go:159-167 | the loop over configurations reaches what the recursive definition of a nested view reaches, or its error |
| TreeViews.LeafTakesRoots | statedb/treeupdate.go:284-298 | a leaf takes all the selected roots exactly when it has room for each of them |
| TreeViews.PropagatedIsWritable | statedb/treeupdate.go:284-298 | a propagation exists only if every written sub-tree finds its parent leaf, with room for a root |
| TreeViews.RootInLeaf | statedb/treeupdate.go:284-298 | after the updates of a leaf, each sub-tree finds its current root there if it was written, and what was there before if not |
| TreeViews.PropagationLinksAll | statedb/treeupdate.go:236-302 | propagation links every sub-tree whose parent leaf exists |
| TreeViews.ViewReaches | statedb/treeview.go:127-177 | in a linked hierarchy a view reaches a place if and only if the parent leaves on the way exist, and then the stored tree |
| TreeViews.CommitRefinesNestedMap | statedb/treeupdate.go:236-342 | for every path, a view of the committed trees arrives exactly when the parent leaves existed, with the same keys, the same values up to the roots just written, and the current root of every sub-tree in its leaf |
| TreeUpdates.UpdatesWriteRoots | statedb/treeupdate.go:284-298 | applying the gathered updates of a leaf is writing the roots of the written sub-trees into it |
| TreeUpdates.DirtyMeansUpdates | statedb/treeupdate.go:276-280 | a tree needs propagation exactly when it was written to or a leaf of it gets an update |
| TreeUpdates.GatherStep | statedb/treeupdate.go:254-272 | propagating one more opened sub-tree keeps those propagated before, at every depth |
| TreeUpdates.LoopsPropagate | statedb/treeupdate.go:252-302 | the two loops together settle the tree and all opened trees below it |
| TreeTransactions.TreeTx.constructor | statedb/statedb.go:288-340 | a transaction starts with the main tree open and clean |
| TreeTransactions.TreeTx.Get | statedb/treeupdate.go:61-63 | reading an opened tree |
| TreeTransactions.TreeTx.MarkDirty | statedb/treeupdate.go:115-117 | the tree counts as written |
| TreeTransactions.TreeTx.Add | statedb/treeupdate.go:121-124 | succeeds exactly for a new key, which it adds with its value; every other key and place is as before; the tree counts as written in any case |
| TreeTransactions.TreeTx.Set | statedb/treeupdate.go:128-131 | the key has the value; every other key and place is as before; the tree counts as written |
| TreeTransactions.TreeTx.Del | statedb/treeupdate.go:134-137 | succeeds exactly for an existing key, which it removes; every other key and place is as before; the tree counts as written in any case |
| TreeTransactions.TreeTx.SubTree | statedb/treeupdate.go:148-170 | a sub-tree opened before is returned again, one that does not exist is created empty, and no leaf changes |
| TreeTransactions.TreeTx.DeepSubTree | statedb/treeupdate.go:174-182 | opens the sub-trees along a list of configurations |
| TreeTransactions.TreeTx.DeepGet | statedb/treeupdate.go:186-192 | reads the leaf at the end of a list of configurations, as it was before the call |
| TreeTransactions.OpeningKeepsTrees | statedb/treeupdate.go:174-192 | opening trees changes no leaf and creates only empty trees |
| TreeTransactions.TreeTx.GatherUpdates | statedb/treeupdate.go:252-275 | visiting the opened sub-trees in any order propagates each of them and collects exactly the roots of the written ones, by parent leaf |
| TreeTransactions.TreeTx.WriteLeaves | statedb/treeupdate.go:284-298 | each leaf is written once, with all its updates; a failure names a leaf that is missing or does not take them |
| TreeTransactions.ApplyAll | statedb/treeupdate.go:289-294 | the inner loop applies the updates of one leaf in turn, up to the first that fails |
| TreeTransactions.TreeTx.WriteUpdates | statedb/treeupdate.go:276-302 | from gathered sub-trees to a propagated tree, or no root for a clean tree without updates |
| TreeTransactions.TreeTx.PropagateRoot | statedb/treeupdate.go:236-302 | the roots at and below a place are propagated; no root is returned exactly when nothing there was written to; it fails only for a hierarchy that cannot be written |
| TreeTransactions.TreeTx.CommitOnTx | statedb/treeupdate.go:321-342 | propagates, closes the sub-trees and records the main root, or the last root when nothing was written, under the version |
| StateRuns.StateDB.BeginTx | statedb/statedb.go:288-340 | begins exactly when the last version is the root of the main tree |
| StateRuns.StateDB.Commit | statedb/treeupdate.go:312-317 | the database becomes the committed transaction, or stays as it was on failure |
| StateRuns.StateDB.TreeView | statedb/statedb.go:382-408 | the view of the last version is the stored main tree exactly when that version is the tree's root; a given root opens exactly when the tree has it now |
| StateRuns.WriteAndRead | statedb/statedb.go:267-408 | a transaction of one write succeeds exactly on a database whose last version is the root of its main tree; the next view reads the new value, the other keys are as before, and only that version is recorded |
| StateRuns.PutIsSafeExactly | statedb/treeupdate.go:121-131 | a write keeps every sub-tree reachable after commit if and only if a value put over a parent leaf carries the roots of the clean sub-trees hanging there |
| StateRuns.CommitKeeps | statedb/treeupdate.go:321-342 | both branches of CommitOnTx record the actual root of the main tree, and no other version changes |
| StateRuns.StepKeepsInv | statedb/treeupdate.go:121-357 | every step of a transaction keeps the database linked and its last version true |
| StateRuns.RunKeepsInv | statedb/treeupdate.go:121-357 | so does every run from an empty database |
| StateRuns.ViewsReadTheState | statedb/treeview.go:127-177 | after any run the view of the last version reads the stored trees, through every path whose parent leaves exist and no other |
| StateRuns.CommittedWritesAreRead | statedb/treeupdate.go:312-357 | after any run, what a committed and saved transaction had at a path is what the new last version reads there; the version maps to the main root and all others keep theirs |
| StateWrites.LastWriterWins | statedb/treeupdate.go:115-212 | at any point of a transaction, whatever was called on it, each leaf at every depth is the value last put there, absent if last removed, and otherwise what the database held when it began |
| StateWrites.LastWriteIsRead | statedb/treeupdate.go:312-342 | after commit and save, the view of the last version reads exactly that, through every path whose parent leaves exist |
| StateWrites.DirtyExactly | statedb/treeupdate.go:115-137 | a tree counts as written if and only if a call of the transaction wrote to it since it was opened |
| RootLeaves.RootLeafIsLawful | vochain/state/trees.go:171-188 | a leaf that is a root obeys the laws that propagation relies on |
| RootLeaves.RootSlotIsLawful | vochain/state/trees.go:192-219 | so does a leaf that has a root in a place of its own (a fixed place, for a field of a message) |
| RootLeaves.SlotsAreIndependent | statedb/statedb.go:101-127 | roots in disjoint places of one leaf are independent |
| RootLeaves.RootLeafSchemaIsLawful | vochain/state/trees.go:71-126 | a hierarchy whose sub-trees each have a root leaf of their own obeys all the laws that the theorems about runs ask for |
| RootLeaves.SharedLeafSchemaIsLawful | vochain/state/trees.go:71-140 | so does one with root leaves below the main tree and, deeper, kinds that keep their roots side by side in shared leaves |
| KeySpace.StorageIsIsolated | statedb/statedb.go:80-99 | with names that are single path components, a database key tells the tree, at any depth, its area and its key |
| KeySpace.SamePrefixExactly | statedb/statedb.go:87-99 | for all names, two places at any depths have the same storage prefix if and only if the same path components remain of their names |
| KeySpace.OverlapExactly | statedb/statedb.go:80-99 | for all names, two areas of any two places share a database key if and only if the components of one begin those of the other |
| KeySpace.SlashesCollide | statedb/treeupdate.go:148-170 | a doubled or trailing slash in a key is lost, so different sub-trees of one kind share their storage |
| KeySpace.DepthsCollide | statedb/treeupdate.go:148-170 | the sub-tree "a/s/b" of a place is stored where the sub-tree "b" of its sub-tree "a" is |
| KeySpace.NamesCanClimb | statedb/treeupdate.go:148-170 | the sub-tree "../t" is stored among the keys of the tree it hangs from |
| KeySpace.KindsApart | statedb/statedb.go:156-162 | two kinds of sub-tree never share a prefix if and only if neither identifier begins the other |
| AbciModel.Execute | vochain/app.go:181-215 | a finished execution has one response per transaction, is at the height of the block, and its root is that of the state it leaves, transitions included |
| AbciModel.ExecutionHasTrace | vochain/app.go:181-293 | an execution is a trace: the clock is set, each transaction does what its check does in the state before it, one that does not decode answers with code 1 and changes nothing, then the transitions at the height and time of the block, then the root |
| AbciModel.TracesAgree | vochain/app.go:181-215 | a block has one trace |
| AbciModel.ClockIsBlockTime | vochain/app.go:278-293 | whatever reads the clock of the state reads the time of the block after it |
| AbciModel.NextStateDecides | vochain/cometbft.go:287-392 | the next committed state is the trace of the block, its transitions, the scheduling and the sealing, in this order |
| AbciApp.BaseApplication.ExecuteBlock | vochain/app.go:181-215 | the working state becomes the execution of the block on the committed state, which is a trace of its transactions followed by the transitions, with the root of the outcome; the invalid transactions are exactly the positions with a code |
| AbciApp.BaseApplication.PrepareProposal | vochain/cometbft.go:403-502 | every transaction that decodes and has a readable sender and nonce is tried as often as it came, and no other, in order of sender and nonce, each in the state that those before it left; the proposal is exactly those whose check answers with code zero; no trace stays in the working state |
| AbciApp.BaseApplication.ProcessProposal | vochain/cometbft.go:513-571 | verdict, working state and cache in every branch |
| AbciApp.BaseApplication.FinalizeBlock | vochain/cometbft.go:287-365 | answers from the cache on the same hash, executes otherwise, and schedules in the working state |
| AbciApp.DecideBlock | vochain/app.go:219-241 | a block that is proposed, accepted, decided and committed without a call between leads from one committed state to the next as its trace says, under the root of the state after the transitions; otherwise nothing is saved |
| AbciApp.FewerTransactions | vochain/cometbft.go:421-502 | a sub-multiset of candidates is a sub-multiset of transactions |
| Proposals.Sort | vochain/cometbft.go:447-459 | a permutation with senderless transactions first, then senders ascending, the nonces of a sender ascending |
| Proposals.OrderedExactly | vochain/cometbft.go:447-459 | the comparison of the source sorts into just that order |
| Proposals.CandidatesAreInput | vochain/cometbft.go:423-445 | the candidates are transactions of the request, none more often than it came |
| Proposals.CandidatesExactly | vochain/cometbft.go:423-445 | exactly the transactions that decode and have a readable sender and nonce are candidates, as often as they came |
| Proposals.PassingAreSubsequence | vochain/cometbft.go:461-494 | the transactions that pass keep the order |
| Proposals.PassingChooses | vochain/cometbft.go:461-494 | those that pass are all whose check accepts them in the state that those before left, in their order |
| Proposals.PassedPassAgain | vochain/cometbft.go:461-494 | what passed among others passes on its own, in a state that is alike |
| Proposals.PreparedReplaysCleanly | vochain/cometbft.go:403-502 | a prepared block executes without a rejected transaction at any height and time, and validators with that state accept it |
| AbciRuns.StepKeepsInv | vochain/cometbft.go:287-571 | every call keeps the cache true to the committed state it was made on and the working state accounted for |
| AbciRuns.RunKeepsInv | vochain/cometbft.go:287-571 | so does every run |
| AbciRuns.AnswersAreFresh | vochain/cometbft.go:302-312 | at any point of any run FinalizeBlock answers with the responses of a trace of the decided block on the committed state, and the root of the state after its transitions, cached or not |
| AbciRuns.FaithfulExactly | vochain/cometbft.go:302-392 | Commit saves what executing the block gives if and only if the cache did not answer, or the last execution in the working state had the outcome of that block; never after a PrepareProposal or a failed execution |
| AbciRuns.FaithfulIffUndisturbed | vochain/cometbft.go:302-392 | when no other block has that outcome: if and only if no other call touched the working state since the block was accepted |
| AbciRuns.PrepareProposalLosesTheBlock | vochain/cometbft.go:403-421 | accept, prepare, finalize, commit: the answer is that of the block, the saved state is the old one at the old height |
| AbciRuns.RejectedProposalReplacesTheBlock | vochain/cometbft.go:536-564 | accept a block, reject another, finalize the first, commit: the answer is that of the first, the saved state the outcome of the rejected one |
| AbciRuns.RejectedTransactionIsCommitted | vochain/cometbft.go:536-564 | an application in which the transaction of a rejected block ends up in the committed state |
| AbciRuns.RunStaysOnTrack | vochain/cometbft.go:287-392 | in an undisturbed run the committed state is the replay of the committed blocks |
| AbciRuns.CommitsDecide | vochain/cometbft.go:287-392 | in an undisturbed run every commit leads from one committed state to the next as the decided block's trace says, and what was announced is the root after its transitions |
| AbciRuns.VerdictExactly | vochain/cometbft.go:536-564 | a validator accepts a block exactly when every transaction of its trace passes and the transitions succeed |
| AbciRuns.ReplicasAgree | vochain/cometbft.go:287-571 | two nodes with undisturbed runs that committed the same blocks have equal states and gave equal answers |
| VoconeModel.SortedKeys | vocone/mempool.go:19-64 | the recovered numbers are the pending ones, in increasing order |
| VoconeModel.FirstMatch | vocone/mempool.go:129-152 | the position of the first pending transaction that matches |
| VoconeModel.Without | vocone/mempool.go:229-248 | exactly the keys that were not consumed |
| VoconeChain.StoreMetaChains | vocone/blockstore.go:30-72 | storing the metadata of the next or the top height keeps heights contiguous and hashes chained |
| VoconeChain.StoreMetaIndexes | vocone/blockstore.go:30-72 | the hash index stays the inverse of the metadata, also when a height is produced again |
| VoconeChain.RunKeepsChain | vocone/vocone.go:247-320 | every run with crashes keeps the chain invariant |
| VoconeChain.ChainIsSound | vocone/blockstore.go:30-183 | in every reachable state heights are contiguous, each block names its predecessor's hash, the index is the inverse of the metadata, and the height in production is the top one or the next |
| VoconeChain.WritesAtHeight | vocone/vocone.go:247-320 | a step writes only at the height in production |
| VoconeChain.CommittedBlocksAreFinal | vocone/vocone.go:98-107 | a committed block is read back as built, by height and hash, after everything that follows, and is never executed again |
| VoconeChain.RecoveryExactly | vocone/vocone.go:94-107 | recovery starts at the height in production or the next; it passes over an uncommitted block if and only if that block is stored and the last save at its height was outside a block |
| VoconeChain.UncommittedBlockPassedOver | vocone/vocone.go:394-403 | the key keeper's save, a stored block and a crash: the chain goes on at height 1 with block 0 uncommitted |
| VoconeMempool.StepKeepsAccount | vocone/mempool.go:68-249 | every step accounts for every transaction ever accepted |
| VoconeMempool.LeavesOnlyWhenDone | vocone/mempool.go:211-249 | a pending transaction leaves the database only by pruning or in the cleanup after the commit of the block that consumed it |
| VoconeMempool.NothingPendingIsLost | vocone/mempool.go:68-152 | after any run the database holds exactly the accepted transactions neither pruned nor consumed, as they were sent, and the next number is new |
| VoconeHistory.LeftThroughBlock | vocone/mempool.go:211-249 | in every run, an accepted transaction that is neither pending nor pruned was, at some earlier point, held by a block whose state had been saved and which was committed |
| VoconeBlocks.CommittedWasBuilt | vocone/blockstore.go:89-118 | in every run, each committed block was built by an execution at its height: it carries its time and state root, the node's identity, the hashes of its transactions and of the block before it, and the transactions read by then |
| VoconeBlocks.ConsumedIsInBlock | vocone/mempool.go:178-202 | in every run, a number consumed by a block has its transaction in a committed block, or its transaction was gone or invalid when it was read |
| VoconeBlocks.BlockTransactionsWereRead | vocone/mempool.go:178-202 | in every run, each transaction of a committed block was sent to the node, read from its mempool and found valid |
| VoconeBlocks.SentWasAccepted | vocone/mempool.go:68-119 | in every run, each number given out belongs to a call that accepted just that transaction |
| VoconeBlocks.AcceptedIsQueued | vocone/mempool.go:90-111 | an accepted transaction is pending under its number and last in the queue |
| VoconeMempool.WithoutKeepsOrder | vocone/mempool.go:229-248 | the cleanup of the index removes exactly the consumed numbers and keeps the order |
| VoconeMempool.QueueAgreesWithDatabase | vocone/mempool.go:19-119 | with whole keys and accepted cleanups the index is the sorted list of stored keys, within the size limit, in every run and right after restarts |
| VoconeMempool.RecoveryNeedsWholeKeys | vocone/mempool.go:48-50 | the recovered queue can be read if and only if iteration yields whole keys or nothing was pending |
| VoconeHistory.PendingAtRestartIsStuck | vocone/mempool.go:48-50 | with stripped keys, a transaction pending at a restart stays in the database for ever: it is read by no key, enters no block and cannot be pruned |
| VoconeHistory.SameUntilRestart | vocone/mempool.go:19-64 | runs in which restarts find an empty mempool are the same with whole and with stripped keys |
| VoconeHistory.StrippedQueueAgreesExactly | vocone/mempool.go:19-119 | with stripped keys the index is the sorted list of stored keys if and only if every restart found an empty mempool |
| VoconeKeys.MempoolKeyOrder | vocone/mempool.go:155-160 | lexicographic order of mempool keys is the order of sequence numbers |
| VoconeKeys.BlockStoreKeysApart | vocone/blockstore.go:206-229 | keys of different transactions, heights, hashes and kinds are different |
| VoconeQueue.StepWaits | vocone/mempool.go:166-249 | every step keeps a transaction's place or brings it forward, a finished block by its size |
| VoconeQueue.BoundedWait | vocone/mempool.go:166-249 | the transaction at position p is out of the mempool once p / txsPerBlock + 1 blocks are finished, whatever else happens, crashes included |
| VoconeNode.LoadMempool | vocone/mempool.go:19-64 | the loop recovers the keys and the larger of the stored and the largest seen number |
| VoconeNode.Vocone.constructor | vocone/vocone.go:98-117 | the recovery part of a start is the restart of the machine |
| VoconeNode.Vocone.AddTx | vocone/mempool.go:68-119 | accepts exactly valid transactions that fit and could be stored; the transaction is then pending under the next number, at the end of the queue; otherwise nothing changes |
| VoconeNode.Vocone.MempoolPrune | vocone/mempool.go:129-152 | removes the first pending transaction that matches, from database and index, and nothing else |
| VoconeNode.Vocone.PrepareBlock | vocone/mempool.go:166-208 | takes keys from the front and consumes each; the transactions are exactly those of the consumed keys that are found and valid, each once, in the order of the keys |
| VoconeNode.Vocone.CleanupIndex | vocone/mempool.go:229-248 | removes exactly the consumed keys from the index |
| VoconeNode.Vocone.StoreBlockMeta | vocone/blockstore.go:30-72 | one step of the machine |
| VoconeNode.Vocone.StoreBlockTxs | vocone/vocone.go:287-300 | one step of the machine |
| VoconeNode.Vocone.CommitState | vocone/vocone.go:302-304 | the state is saved at the height it works at |
| VoconeNode.Vocone.CommitMempoolCleanup | vocone/mempool.go:213-249 | the database first, then the index, then the next height |
| VoconeNode.Vocone.ProduceBlock | vocone/vocone.go:247-320 | on success the block read back at the old height has exactly the prepared transactions, the given time and state root, the node as proposer, the hash of its transactions and of the block before it, and the consumed keys are gone; on failure nothing is committed or removed; what was done is a prefix of the steps of a block |
| VoconeNode.ProductionIsSteps | vocone/vocone.go:262-307 | the writes of a block, up to the failing one, are steps of the machine in their fixed order |
| VoconeNode.PersistStores | vocone/vocone.go:281-307 | a block that got through all its writes is stored as it was built, and committed |
| VoconeNode.NewVocone | vocone/vocone.go:94-133 | a start recovers and saves for the key keeper: two steps of the machine, after which a block stored at that height is passed over by the next recovery, committed or not |
| VoconeNode.Vocone.ReadBlock | vocone/blockstore.go:121-167 | reads as many transactions as the metadata counts, up to the first missing one, and a shell for a height that is not stored |
| Chunks.SliceBounds | snapshot/snapshot.go:565-567 | every announced chunk begins inside the file, and the last one reaches its end |
| Chunks.SlicesMakeFile | snapshot/snapshot.go:556-576 | for every file and chunk size the slices, none empty and none too long, make up the file |
| Chunks.SnapshotManager.JoinChunks | snapshot/snapshot.go:579-631 | concatenates the chunks in order and removes them, or stops at the first missing one |
| Chunks.SnapshotManager.ApplyChunk | vochain/cometbft.go:673-693 | stores the chunk, and joins when the number of files is the announced one |
| Chunks.DeliveryIsRight | vochain/cometbft.go:673-693 | a delivery completes the transfer exactly when it makes every index present |
| Chunks.AnyOrderTransfer | snapshot/snapshot.go:556-659 | in any order, with any repeats, the receiver waits while an index is missing; the delivery of the last one rebuilds the file byte for byte and empties the directory |
| Chunks.JoinBreaksExactly | snapshot/snapshot.go:579-659 | a delivery breaks if and only if the number of files is reached with a file of a longer transfer among them |
| ChunkLeftovers.FirstJoin | snapshot/snapshot.go:579-659 | from any directory, the delivery that ends a transfer joins if and only if no leftover lies beyond the transfer and every index is present, reading leftovers where nothing was delivered, and breaks if and only if one lies beyond |
| ChunkLeftovers.TransferIsRightExactly | snapshot/snapshot.go:579-659 | from any directory, the file is right if and only if no leftover lies beyond, every index is present, and every wrong leftover was replaced, or leftovers cut differently fall together with the file |
| ChunkLeftovers.FileIsRightExactly | snapshot/snapshot.go:556-659 | with leftovers cut as the file is, the exception goes away |
| ChunkLeftovers.CutsCanFallTogether | snapshot/snapshot.go:599-619 | the exception is real: two wrong leftovers of other lengths can make up for each other |
| ChunkLeftovers.Receive | vochain/cometbft.go:673-693 | the calls of a transfer, up to the one that ends it, have the outcome of the deliveries, from whatever the directory held |
| ChunkLeftovers.AbandonedTransferBreaksTheNext | vochain/cometbft.go:619-693 | an abandoned transfer of three chunks makes the next one, of two, fail with its first chunk |
| ChunkLeftovers.AbandonedTransferForgesTheNext | vochain/cometbft.go:619-693 | an abandoned transfer of two chunks makes the next one end with a file that begins with the chunk of the other |
| SnapshotOrder.SortTrees | snapshot/snapshot.go:389-397 | a permutation in order of name, parent and key |
| SnapshotOrder.SortedExactly | snapshot/snapshot.go:389-397 | the comparison sorts by name, under one name by parent, and under one parent by key |
| SnapshotOrder.SortedIsUnique | snapshot/snapshot.go:387-397 | sorted arrangements of trees with different triples are one and the same |
| SnapshotOrder.TiesAreOpen | snapshot/snapshot.go:389-397 | trees with one triple can stand in either order |
| SnapshotOrder.ListingOrderIsIrrelevant | vochain/state/snapshot.go:24-81 | the triples of a state's trees are different, so the sorted list does not depend on the listing |
| Snapshot.Writer.Write | snapshot/snapshot.go:98-107 | adds to the size of the last blob in 32 bits, and digests everything written |
| Snapshot.Writer.DumpBlob | snapshot/state.go:8-27 | a blob is what its exporter wrote, in whatever pieces |
| Snapshot.Writer.Finish | snapshot/snapshot.go:175-230 | length field, header, blobs |
| Snapshot.DraftHoldsBlobs | snapshot/snapshot.go:98-107 | the file is the blobs back to back, with the size of each and the digest of all |
| Snapshot.DraftDescribesBlobs | snapshot/state.go:17-24 | the header carries the description of every blob |
| Snapshot.Open | snapshot/snapshot.go:452-481 | opens a file or says what is wrong with it, and stands at the first blob |
| Snapshot.Reader.SeekToNextBlob | snapshot/snapshot.go:128-145 | limits reading to the next blob without moving in the file, or reports the end |
| Snapshot.Reader.ReadBlobs | snapshot/snapshot.go:259-294 | the loop of Restore reads the data in pieces of the recorded sizes |
| Snapshot.HeaderIsRead | snapshot/snapshot.go:452-481 | a finished file opens to the header that was written |
| Snapshot.FileLayout | snapshot/snapshot.go:175-230 | four bytes with the length of the header, zeros up to byte 32, the header, the blobs |
| Snapshot.RoundTripExactly | snapshot/snapshot.go:98-145 | for any blobs in any pieces, finish, open and read give back exactly the blobs, if and only if each is smaller than 2^32 bytes |
| Snapshot.SizesAccountForFile | snapshot/snapshot.go:175-230 | field, header and recorded sizes add up to the file under the same condition |
| Snapshot.Do | snapshot/snapshot.go:350-425 | the file of the no-state database, the sorted trees and the indexer |
| Snapshot.SnapshotReadsBack | snapshot/snapshot.go:350-425 | a snapshot gives back what it was started with, the no-state database, every tree in order with its name, parent, key, root and data, and the indexer |
| Snapshot.SnapshotIsDeterministic | snapshot/snapshot.go:387-403 | snapshots of one state are equal byte for byte, however its trees were listed |
| Numbers.SwapEndianness | tree/arbo/utils.go:11-18 | the reverse |
| Numbers.BytesLEToBigInt | tree/arbo/utils.go:51-55 | the little-endian value |
| Numbers.BigIntToBytesLE | tree/arbo/utils.go:27-33 | fixed width, and the number modulo that width |
| Numbers.ReversalSwapsOrder | tree/arbo/utils.go:11-18 | reversing a big-endian string gives a little-endian one of the same value |
| Numbers.FittedDigits | tree/arbo/utils.go:27-33 | copying the reversed minimal digits into a zeroed buffer is the fixed-width little-endian form |
| CensusDump.Parse | tree/arbo/tree.go:877-901 | the reading loop of an import ends well only at the end of the input |
| CensusDump.EntryLayout | tree/arbo/tree.go:778-781 | the bytes of an entry: lengths, key, value |
| CensusDump.ParseUndoesEncode | tree/arbo/tree.go:783-837 | a dump is read back leaf by leaf |
| CensusDump.EncodeUndoesParse | tree/arbo/tree.go:861-901 | whatever parses is the dump of what it parses to |
| Census.BatchRejects | censustree/censustree.go:225-248 | the reported places are exactly those of the leaves that the tree rejects at that point, and they change nothing |
| Census.BatchConserves | censustree/censustree.go:231-246 | the weight that a batch counts is what it adds to the sum of the leaves |
| Census.AddLeaf | censustree/censustree.go:260-262 | a leaf is added exactly if its key is new, the lengths fit and the tree admits it, and all others stay |
| Census.AddKeepsBalance | censustree/censustree.go:256-273 | Add keeps the weight equal to the sum of the leaves modulo the width of the record |
| Census.BatchKeepsBalance | censustree/censustree.go:225-248 | so does AddBatch |
| Census.ImportBalancesExactly | censustree/censustree.go:276-304 | an import keeps it if and only if the weight was zero before |
| Census.ImportCountsTwice | censustree/censustree.go:284-298 | for every width of the record, adding a leaf and importing an empty dump records twice the weight of the one leaf |
| Census.InterruptedImportExactly | censustree/censustree.go:276-304 | a process that stops between the two transactions of an import leaves the weight right if and only if the dump added none |
| Census.RunIsBalanced | censustree/censustree.go:210-304 | over every run of operations the weight is right as long as imports meet a weightless census, and wrong after the first that does not |
| Census.DumpIsRestored | censustree/censustree.go:276-304 | a dump imported into an empty census gives the same leaves and their weight, whatever the order of the dump |
| Census.Tree.UpdateCensusWeight | censustree/censustree.go:210-222 | adds to the record, in its width |
| Census.Tree.Add | censustree/censustree.go:256-273 | as the operation, and keeps the balance |
| Census.Tree.AddBatch | censustree/censustree.go:225-248 | as the operation, with the rejected places, and keeps the balance |
| Census.Tree.WeighLeaves | censustree/censustree.go:287-294 | the sum of the leaves, in any order of iteration |
| Census.Tree.ImportDump | censustree/censustree.go:276-304 | all or nothing, and balanced exactly when there was no weight before |
| Census.Tree.GetCensusWeight | censustree/censustree.go:307-319 | the recorded weight, zero without a record |
| VotePackages.PublishedExactly | apiclient/vote.go:253-258 | the published keys are exactly those that are not empty, each once, in the order of the list |
| VotePackages.SealedStep | apiclient/vote.go:291-304 | each key adds one layer around those before it, or the error of that key |
| VotePackages.PrepareVotePackageBytes | apiclient/vote.go:281-307 | seals for one key after the other, up to the first error |
| VotePackages.VoteEnvelope | apiclient/vote.go:248-276 | an encrypted election without published keys is an error; otherwise the sealed package and the indexes of its keys |
| VotePackages.DecryptVotePackage | api/helpers.go:214-229 | opens from the last index to the first, up to the first error |
| VotePackages.LayersOpenExactly | api/helpers.go:214-229 | the layers open if and only if the key table matches at every layer, and then to the original package |
| VotePackages.EnvelopeRoundTrip | apiclient/vote.go:248-307 | for every list of election keys, decrypting an envelope with its indexes returns the package exactly when the table of private keys matches, and never another package |
| VotePackages.SealedExactly | apiclient/vote.go:291-304 | sealing fails exactly for a key that does not decode |
| ZkInputs.BytesToArboSplit | util/zk.go:31-37 | the two halves of the hash as little-endian numbers |
| ZkInputs.SplittedArboToBytes | util/zk.go:46-58 | the two padding loops put the dropped zeros back |
| ZkInputs.HalfIsLittleEndian | util/zk.go:49-56 | a half has 16 bytes exactly when its number fits, and is then its little-endian form |
| ZkInputs.JoinUndoesSplit | util/zk.go:31-58 | joining the numbers of a hash returns the hash, whatever its bytes |
| ZkInputs.SplitIsInjective | util/zk.go:31-37 | a hash is determined by its numbers |
| ZkInputs.SplitUndoesJoinExactly | util/zk.go:46-58 | splitting undoes joining if and only if both numbers fit in a half |
| ZkInputs.BigToFF | util/zk.go:18-26 | the representative of any integer, negative ones included, in the scalar field |
| ZkInputs.FieldRepresentatives | util/zk.go:18-26 | representatives are equal exactly for numbers equal modulo the field |

## Left out

- Arbo is a map of leaves with a hash; limits on key lengths and levels, proofs and node storage are not modelled. Nothing assumes that old roots stay readable, so a database whose last version is not the root of its main tree cannot begin a transaction here; `StateRuns.RunKeepsInv` shows that this does not happen.
- Handles to opened sub-trees are places in the one transaction object. Object identity is not captured, nor are handles kept after CommitOnTx has closed the sub-trees.
- Failed commits: after CommitOnTx fails, the runs only continue with a transaction that is discarded; a transaction saved in that condition is not modelled. One transaction is open at a time.
- The values of parent leaves are assumed to be canonical encodings, so that writing back the root a leaf already holds leaves it unchanged; protobuf messages are represented by roots at fixed places.
- The no-state database beside the trees, graphviz output, `Import` of trees and iteration are not modelled.
- The application state, transaction checks, internal transitions and the election scheduler are one deterministic rule set. A State.Save that fails after it has persisted, transaction references, CheckTx outside proposals, validator updates and event listeners are not modelled.
- StateRuns.StateDB.BeginTx: where the last version is not the root of the main tree, the source goes back to that root; here it is an error, since old nodes need not be readable. No run reaches it.
- RootLeaves.RootSlotIsLawful: the votes root is a field of a protobuf message in the source; the model has it at a fixed offset.
- RootLeaves.SlotsAreIndependent: shown for fixed offsets, not for message fields.
- RootLeaves.RootLeafSchemaIsLawful: one leaf for each sub-tree; shared leaves are in RootLeaves.SharedLeafSchemaIsLawful.
- AbciModel.Execute: the transitions get the time of the block, where the source reads it back from the state; AbciModel.ClockIsBlockTime shows that it is the same.
- AbciApp.BaseApplication.FinalizeBlock: does not model the validator updates of the response.
- VoconeNode.Vocone.constructor: recovery only; the save for the key keeper that a start ends with is added by VoconeNode.NewVocone.
- VoconeMempool.LeavesOnlyWhenDone: one step; over runs it is VoconeHistory.LeftThroughBlock.
- VoconeMempool.QueueAgreesWithDatabase: for whole keys; for the stripped keys of Pebble the exact condition is in VoconeHistory.StrippedQueueAgreesExactly.
- Chunks.SnapshotManager.JoinChunks: the joined file is not opened, which can fail as well; Snapshot.Open models that on its own.
- Chunks.SnapshotManager.ApplyChunk: the restore of the state after a join is not modelled.
- Census.Tree.ImportDump: one step for two database transactions; what a stop between them leaves is in Census.InterruptedImportExactly.
- VoconeQueue.BoundedWait: for whole keys (with stripped keys it carries over by VoconeHistory.SameUntilRestart, and fails for what is pending at a restart); blocks of one size and accepted database cleanups are required; the source changes the size with SetBlockSize, and a refused cleanup is only logged there.
- The block cache of the node, timers, closing, the indexer, the key keeper's own transactions and the API of Vocone are not modelled. Sequence numbers and heights do not overflow.
- Proposals.PreparedReplaysCleanly: requires that a refused transaction changes nothing and that checks do not depend on height and time, which the transaction handler has to provide.
- Chunk counts are exact integers; the source computes them in floating point, which agrees below 2^53 bytes. File names, file system errors and the restore after a join are not modelled.
- Snapshot.RoundTripExactly: requires an encoded header below 2^32 bytes, since the length field holds 32 bits; the gob encoding is any encoding that decodes to what was encoded, and the decoder is taken to read the whole header.
- Negative census weights do not occur.
- Encryption, hashes and JSON are abstract; the law of the boxes is that a box opens with the private key it was sealed for and with no other.
- REST handlers, faucet, clients, CLI, IPFS, subpub, metrics and the SQL indexer are not part of this model.
