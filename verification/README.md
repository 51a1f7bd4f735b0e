# A verified model of the melnode store, quorum, sync and gossip

melnode is a blockchain full node. This project models, in Dafny, the parts of it that carry
invariants, and proves those invariants for all inputs, runs and interleavings.

| file | what it models |
|---|---|
| `Structs.dfy` | the node's data types, and `Config`: the crates and the genesis file, as uninterpreted functions |
| `Samples.dfy` | a small configuration for concrete examples, with collision-free hashes and unique signatures |
| `Quorum.dfy` | the vote tally of `apply_block`, as written and as intended, and quorum intersection |
| `Gatherer.dfy` | gathering a consensus proof key by key, and `vote_weights` |
| `Stakes.dfy` | the stakes table, and the stake set rebuilt from it against the one replayed block by block |
| `Ledger.dfy` | the chain as a plain replay, the database for a chain, reconstruction of states |
| `Mempool.dfy` | the mempool as a class, and as a fold over whole runs |
| `Storage.dfy` | `Storage` as a class: opening, reading with other tasks running in between, `apply_block` |
| `StoreMachine.dfy`, `StoreInvariant.dfy`, `StoreRuns.dfy` | any number of `apply_block` and `get_state_or_wait` calls, dropped futures and crashes, step by step; the invariant of these steps; what holds in every run |
| `StoreDrops.dfy` | which dropped futures do harm, by the phase the call is in |
| `StoreCalls.dfy` | the `apply_block` calls of a run, one at a time, in the order in which they end |
| `StoreProgress.dfy` | from every reachable node calls and waiters get on |
| `StoreOrder.dfy` | and in the order in which they take effect: every run is linearizable |
| `NodeRpc.dfy` | the RPC caches and the greedy batch served to syncing peers |
| `BlkSync.dfy` | syncing from a peer, batched and legacy |
| `Network.dfy` | many nodes, arbitrary deliveries, honest and dishonest stakers |
| `Gossip.dfy` | transaction gossip and its termination measure |

`dafny verify dfyconfig.toml` checks everything.

## How the model is built

The state transition, hashing, signatures, unlocking and encoding live in crates that are not
in the repository. They are function fields of `Structs.Config`, so every result holds for all of them that
satisfy `Structs.WellFormed`: epochs never decrease with height, a stake set's iterator gives each of
its documents once (in any order), what one epoch unlocks every later
epoch unlocks, Merkle roots are collision free, encoded blocks are not empty, and genesis has
height 0. Three more assumptions are built into definitions: `StakesAfter` (a block's effect on
the stake set is the acceptance rule of `storage.rs:328-331` followed by unlocking), `NextState` (the
transition checks that the header commits to the resulting stakes and contents), and the activity
test `e_start <= epoch < e_post_end` for `votes` and `total_votes`. No-fork results also assume
`HeadersBind`: a header determines its block. `Network.AssumptionsHaveAModel` gives a configuration with
three stakers that meets all of them and has a first block that passes under either tally.

Code that runs step by step is modelled by classes and loops, proved against functions on values.
An `await` is a call to `Storage.Yield`. Its contract lets other tasks commit blocks, insert
Merkle nodes and change the cache, and callers use nothing but that contract. Handlers that use
the shared RPC caches also call `NodeRpc.OtherHandlers`, whose contract lets the others fill and empty them. Dropped futures,
crashes and sleeping waiters need finer steps and are in `StoreMachine`. A crash there may lose the newest commits
(SQLite in WAL mode with `synchronous=normal`) and any part of the unflushed Merkle nodes.

Where a theorem depends on the tally, its name or its `tally` argument says which one it uses:
`AsCoded` is `storage.rs:288`, which adds the running total for each signer; `Intended` adds the
signer's own stake, which is what the error message at `storage.rs:294-299` and the gatherer
at `staker.rs:195-198` call for. `Storage`, `StoreMachine` and `BlkSync` use `AsCoded`.

## What turned out false

- The votes check is not the two-thirds rule. `CodedAcceptsAThird` gives a stake list on which one third passes
  alone. `CodedMatchesIntendedIff` says for which stake lists the check is exact and `CodedSafeIff` for
  which it is still fork-safe: never when nobody holds more than a third (`NobodyOverAThird`).
  `CodedForksOnUnsafeLists` builds a fork from every tip with an unsafe list, and `ACodedFork` is such a fork
  in full, from a genesis with three stakers.
- The gatherer can stop on proofs that `apply_block` rejects: across an epoch boundary
  (`GathererFailsAcrossEpochs`) and with unchecked signatures (`GathererTrustsJunk`). `GathererSafeIff` shows
  that these are the only two ways.
- `vote_weights` drops the high bits of a stake in a cast (`VoteWeightsTruncate`) and aborts when a key's casts add up
  to 2^64 (`VoteWeightsAbort`), as the build profiles (`Cargo.toml:10-18`) check for overflow.
  It returns weights that sum to the total exactly when no key holds 2^64 or more (`VoteWeightsSumToTotal`).
- A dropped `apply_block` future can strand a sleeping waiter (`CancelLosesWakeup`, `OrphanLosesWakeup`), make a
  later call hit a taken primary key (`CancelCausesConflict`) and leave a committed block that no call reports.
  Conflicts arise exactly if calls are dropped while their SQL transaction runs (`ConflictFreeIff`); lost wakeups
  and unreported blocks exactly if calls are dropped then or between commit and notification
  (`WakeupSafeIff`, `AlwaysReportedIff`). Dropping a call earlier is harmless. Whatever is dropped, the
  stored chain stays valid (`CrashConsistency`) and the calls are linearizable (`EffectsSerialise`, `RealTimeOrder`).
- A transaction refused once as invalid is refused until the next rebase (`FailedTransactionStaysOut`), so a
  child that arrives before its parent stays out although it has become valid (`ChildBeforeParent`).
  `RefusedThoughValidIff` says exactly when a valid transaction is refused.
- Syncing does not end with every peer: it runs for ever exactly if it comes to a height for which the peer sends
  empty batches from then on (`NeverEndsIff`).

## Model

| member | source | states |
|---|---|---|
| Quorum.TallyVotes | src/storage/storage.rs:278-292 | the loop computes the active stake, and the present votes with the running total added per valid signer |
| Quorum.StakeCounts | src/storage/storage.rs:282-285 | a stake counts in the total, and for its own key alone, at every epoch from `e_start` to `e_post_end - 1` and at no other, wherever it stands in the list |
| Quorum.CodedCredits | src/storage/storage.rs:281-292 | the first stake of a list is credited once for each document of the list that is active and signed for, its own included |
| Quorum.NoStakeNoVote | src/storage/storage.rs:282-292 | a signer none of whose stakes is active changes neither tally nor verdict |
| Quorum.MoreThanTwoThirds | src/storage/storage.rs:293 | under either tally exactly two thirds of the total is not enough, anything more is |
| Quorum.IntendedImpliesCoded | src/storage/storage.rs:293-300 | `p > floor(2T/3)` is `3p > 2T`, and every signer set with more than two thirds passes the coded check, in any order of the stakes |
| Quorum.QuorumIntersection | src/storage/storage.rs:293-300 | two intended quorums share signers holding more than a third of the active stake |
| Quorum.IntendedIsSafe | src/storage/storage.rs:293-300 | with at most a third dishonest, two intended quorums share an honest signer |
| Quorum.LastKeyGetsEverything | src/storage/storage.rs:285-289 | the last active document's key passes the coded check on its own |
| Quorum.CodedMatchesIntendedIff | src/storage/storage.rs:278-300 | the coded check equals the two-thirds rule for all signer sets exactly on `CodedExact` stake lists |
| Quorum.CodedSafeIff | src/storage/storage.rs:278-300 | the coded check is fork-safe against every third exactly on `CodedSafe` stake lists |
| Quorum.NobodyOverAThird | src/storage/storage.rs:278-300 | on any list where somebody has stake and nobody more than a third, the coded check is not fork-safe |
| Quorum.CodedAcceptsAThird | src/storage/storage.rs:285-293 | three equal stakes: one third passes the coded check and fails the intended one |
| Quorum.ListedStakes | src/storage/storage.rs:280-292 | the loop over the documents weighs the stake set itself, in whatever order the iterator lists it |
| Gatherer.SumVotes | src/staker.rs:198 | the per-key sum over the gathered keys is the stake of all documents those keys own, several documents per key included |
| Gatherer.SigGather.Insert | src/staker.rs:236-240 | received signatures replace earlier ones under the same key and the rest stay, from an empty entry if there is none |
| Gatherer.SigGather.GatherProof | src/staker.rs:180-250 | returns the first gathered map that passes the threshold, and nothing when none does; the map has the keys of the own map and of every answer, each with its last signature |
| Gatherer.MergedIsGathered | src/staker.rs:236-240 | after any answers, unreachable neighbours among them: exactly the keys of the own map and of the answers, each with the signature of the last answer that has it, else its own |
| Gatherer.GatheredGrows | src/staker.rs:193-240 | further answers lose no key, and once there is enough there stays enough |
| Gatherer.GathererMeetsApplyBlock | src/staker.rs:193-217 | with valid signatures and one epoch the gatherer stops exactly on intended quorums, all of which pass the votes check of apply_block |
| Gatherer.GathererSafeIff | src/staker.rs:193-240 | for any configuration, header and gathered signatures: whatever the stakes, a proof the gatherer stops on passes apply_block, if and only if the epoch does not change and every signature is valid (or none is held) |
| Gatherer.GathererFailsAcrossEpochs | src/staker.rs:194-209 | the gatherer weighs by the base epoch and can stop on a proof the next epoch rejects |
| Gatherer.GathererTrustsJunk | src/staker.rs:236-240 | an unchecked signature can replace a good one and make the final proof fail |
| Gatherer.VoteWeightsAreVotes | src/staker.rs:337-350 | the fold returns exactly if for every key the casts of its active stakes add up to less than 2^64; the map then has exactly the keys with a document `e_start <= epoch < e_post_end` and holds those sums |
| Gatherer.CastCounts | src/staker.rs:345-346 | a document adds its stake modulo 2^64 to its own key's sum exactly when `e_start <= epoch < e_post_end` |
| Gatherer.SumWeightsIsStake | src/staker.rs:343-349 | for any distinct keys a returned map sums to at most their stake, and to it exactly when none of their active documents has 2^64 or more |
| Gatherer.VoteWeightsSumToTotal | src/staker.rs:337-350 | it returns a map that sums to the total of apply_block exactly when no key's stake reaches 2^64, so always when the total is below 2^64; a returned map falls short exactly by documents of 2^64 or more |
| Gatherer.VoteWeightsTruncate | src/staker.rs:346 | one document of 2^64 gives its key weight 0 |
| Gatherer.VoteWeightsAbort | src/staker.rs:346 | two documents of 2^63 under one key abort the node |
| Stakes.BatchEqualsIncremental | src/storage/storage.rs:161-190 | rows up to a height, unlocked once, give the stake set that adding and unlocking at every block gives |
| Stakes.StakeRowsExact | src/storage/storage.rs:327-336 | a row comes from genesis at height 0, or from a block of the row's height with a stake transaction of that hash and document, at height 500000 or later or off the main network; there is no other |
| Stakes.BlockRowsExact | src/storage/storage.rs:327-336 | the same of the inserts of one block into any table |
| Stakes.StakeBoundary | src/storage/storage.rs:328-331 | on the main network a stake is taken at 500000 and not at 499999, on any other at every height |
| Stakes.InsertFailsIff | src/storage/storage.rs:332 | the inserts fail exactly when a hash is in the table or comes twice |
| Stakes.StakeSetExact | src/storage/storage.rs:176-185 | a stake is in the set after some blocks exactly when it has a row and is not unlocked at the tip's epoch |
| Stakes.RowsStable | src/storage/storage.rs:169-170 | later blocks never change the rows up to a height |
| Ledger.CommitExtends | src/storage/storage.rs:311-339 | the SQL transaction either turns the database of a chain into that of the chain plus the entry or changes nothing; a taken height always fails |
| Ledger.ReconstructionIsReplay | src/storage/storage.rs:226-234 | block, stake rows and nodes read at different times rebuild the replayed state, and the stake-root assertion holds |
| Ledger.VotesAreRows | src/storage/storage.rs:278-292 | at every tip the votes of any keys and the total are the active stake of the rows of the stakes table that the tip's epoch does not unlock, and the intended check asks for more than two thirds of it |
| Ledger.ReplayFacts | src/main.rs:80-89 | replaying blocks gives consecutive heights, and each header commits to its state's stakes and contents |
| Ledger.OneMoreBlock | src/storage/storage.rs:302 | a block extends the replay exactly if it executes on the state before it, has the next height and commits to the resulting stakes and contents, which are the new state's |
| Ledger.WrongStakesAreCaught | src/storage/storage.rs:226-234 | where stake roots are collision free, get_state with whatever stakes either panics or gives the replayed state |
| Mempool.Mempool.constructor | src/storage/mempool.rs:21-29 | a new mempool is empty on the given state |
| Mempool.Mempool.ApplyTransaction | src/storage/mempool.rs:36-48 | full, duplicate, invalid and accepted cases, the hash being recorded even for an invalid transaction |
| Mempool.Mempool.Rebase | src/storage/mempool.rs:51-68 | the whole pool is replaced by an empty one on the next state |
| Mempool.PoolIsFold | src/storage/mempool.rs:36-68 | after every run the provisional state is the fold of the accepted transactions over the last rebase; hashes distinct and seen, weight exact and bounded |
| Mempool.FullFromTenMillion | src/storage/mempool.rs:37 | from weight 10000000 on everything is refused as full, below it nothing |
| Mempool.SeenIff | src/storage/mempool.rs:36-48 | after every run the seen-set is exactly the hashes attempted below the weight limit since the last rebase |
| Mempool.SeenStaysSeen | src/storage/mempool.rs:38-40 | a seen hash is refused as duplicate, or as over the limit, until the next rebase, with no effect |
| Mempool.FailedTransactionStaysOut | src/storage/mempool.rs:38-41 | a transaction that failed once is refused in the same way whatever is added next |
| Mempool.RefusedThoughValidIff | src/storage/mempool.rs:36-48 | a transaction that applies now is refused exactly when the pool is full or its hash was attempted since the last rebase |
| Mempool.ChildBeforeParent | src/storage/mempool.rs:38-41 | a child invalid before its parent, valid after it, and then refused as a duplicate |
| Storage.InsertGenesis | src/storage/storage.rs:85-91 | genesis rows are added without touching rows already there |
| Storage.RebuildStakes | src/storage/storage.rs:169-185 | the rows loop, in any order, computes the batch stake set |
| Storage.InsertStakeRows | src/storage/storage.rs:327-336 | the insert loop adds exactly the block's accepted stakes, or fails as a whole on a taken hash |
| Storage.Storage.Open | src/storage/storage.rs:64-120 | opening finds the committed chain again, also after a crash half way through an earlier opening, with the mempool on genesis |
| Storage.Storage.HighestHeight | src/storage/storage.rs:134-148 | the maximum height is the number of committed blocks, 0 when there are none |
| Storage.Storage.GetBlock | src/storage/storage.rs:193-223 | through the cache or not, a block of the chain, or None only for a height not stored at the call |
| Storage.Storage.GetConsensus | src/storage/storage.rs:237-259 | the proof committed with the block of that height |
| Storage.Storage.GetState | src/storage/storage.rs:226-234 | the replayed state, whatever is committed between its reads |
| Storage.Storage.HighestState | src/storage/storage.rs:123-131 | the replayed state of a height that was the highest during the call; its expect never fails |
| Storage.Storage.CheckBlock | src/storage/storage.rs:267-303 | which of height, votes and transition rejects a block, exactly |
| Storage.Storage.SaveBlock | src/storage/storage.rs:304-341 | the chain grows by the entry exactly when it is applicable, else nothing changes |
| Storage.Storage.ApplyBlock | src/storage/storage.rs:262-354 | Ok exactly for applicable entries, which extend the chain and rebase the mempool on the new tip; an error changes neither |
| Storage.ReadsFit | src/storage/storage.rs:226-234 | reads made while the chain was three different prefixes fit together |
| StoreRuns.CrashConsistency | src/storage/storage.rs:303-341 | in every run the tables hold exactly the committed valid chain and every stored block's nodes are flushed |
| StoreRuns.ReadersSeeReplay | src/storage/storage.rs:151-234 | in every run each state returned is the replayed one, no assertion fails, and at most one call holds the lock |
| StoreRuns.ChainMovesByAppend | src/storage/storage.rs:262-354 | each step appends one applicable entry, keeps the chain, or is a crash that keeps a prefix |
| StoreRuns.SleepersArePledged | src/storage/storage.rs:151-159 | a sleeper on a stored height is notified, or its height's committer has yet to notify or was dropped |
| StoreDrops.InsertsNeverConflict | src/storage/storage.rs:317-325 | in every run, crashes included, the inserts never meet a taken height, unless some call is dropped while its transaction runs |
| StoreDrops.NoLostWakeup | src/storage/storage.rs:337-351 | in every run a sleeper on a stored height is notified or about to be, unless some call is dropped while its transaction runs or between its commit and its notification |
| StoreProgress.NotifiedSleeperGetsOn | src/storage/storage.rs:151-159 | in every reachable node a notified sleeper on a stored height wakes, looks and returns the replayed state in three steps of its own; on a missing height it goes back to sleep |
| StoreProgress.NewWaiterGetsOn | src/storage/storage.rs:151-159 | in every reachable node anyone can ask for any height: a stored one is answered with the replayed state, for another the call goes to sleep |
| StoreProgress.SleeperIsAnswered | src/storage/storage.rs:151-354 | with the lock free and an applicable next entry, a run of at most eleven steps brings the block and answers a sleeper on its height with its state |
| StoreProgress.HolderFinishes | src/storage/storage.rs:263-354 | in every reachable node the holder of the writer lock can run to its end alone and then frees the lock |
| StoreProgress.CallAlone | src/storage/storage.rs:262-354 | a call that finds the lock free can run to its end alone; it succeeds exactly if its entry is applicable, which then joins the chain, and every sleeper has been notified |
| StoreProgress.EveryCallCanBeDropped | src/staker.rs:253 | a call can be dropped in every phase, which frees the lock it holds |
| StoreProgress.EveryOrphanCanEnd | src/storage/storage.rs:308-341 | the transaction of a dropped call can end at any time, lock or no lock, and commits exactly if its entry is applicable then |
| StoreProgress.EveryCrashIsPossible | src/storage/storage.rs:303-341 | a crash can lose any newest commits and any unflushed nodes, and leaves a node just opened |
| StoreDrops.CancelLosesWakeup | src/staker.rs:253 | dropping a call between commit and notification strands a waiter |
| StoreDrops.OrphanLosesWakeup | src/staker.rs:253 | dropping a call during its transaction strands a waiter when the transaction commits on its own |
| StoreDrops.CancelCausesConflict | src/staker.rs:253 | dropping a call during its transaction makes another call fail on a taken height |
| StoreDrops.ConflictFreeIff | src/storage/storage.rs:308-341 | for any set of phases: runs dropping calls in these phases only never conflict, if and only if the running transaction is not one of them |
| StoreDrops.WakeupSafeIff | src/storage/storage.rs:337-351 | for any set of phases: such runs strand no waiter, if and only if neither the running transaction nor the time from commit to notification is one of them |
| StoreCalls.CallsSerialise | src/storage/storage.rs:263-354 | from any opening to the next crash, without drops of running transactions: the ended calls made one at a time in the order they ended have the same results and leave the same chain, but for the entry of the one call between commit and notification |
| StoreCalls.AlwaysAccountedIff | src/storage/storage.rs:308-341 | for any set of phases: the calls that ended, those dropped after their commit included, account for the chain of every run dropping calls in these phases only, if and only if the running transaction is not one of them |
| StoreCalls.AlwaysReportedIff | src/storage/storage.rs:308-353 | for any set of phases: in such runs every block of the chain is reported by a call that returned or is about to be, if and only if neither the running transaction nor the time from commit to notification is one of them |
| StoreOrder.EffectsSerialise | src/storage/storage.rs:262-354 | with calls dropped anywhere, the calls made one at a time in the order of the steps at which they take effect leave exactly the chain |
| StoreOrder.EveryCallTakesEffect | src/storage/storage.rs:262-354 | every call that returns takes effect, with the result it returns, at a step from its arrival to its end |
| StoreOrder.RealTimeOrder | src/storage/storage.rs:262-354 | a call that ended before another arrived comes before it in that order |
| StoreOrder.ResultsTakeEffect | src/storage/storage.rs:262-354 | every result any number of equal calls end with is in that order, as many times as it was returned |
| NodeRpc.NodeRpc.GetAbbrBlock | src/node.rs:233-243 | cached or not, the block's header, the hashes of all its transactions and its own proof |
| NodeRpc.NodeRpc.GetSummary | src/node.rs:245-267 | this network, the header of a height that was the highest and the proof stored for that height; the default proof only at genesis |
| NodeRpc.NodeRpc.GetCoinTree | src/node.rs:143-166 | cached or not, under every hash of the block's transactions the last such transaction, and nothing else |
| NodeRpc.MappingFinds | src/node.rs:159-162 | the mapping has exactly the hashes of the transactions and finds the last one with each |
| NodeRpc.CollectBatch | src/node.rs:274-312 | terminates; None only if the start is not stored; else a greedy run of blocks with proofs aligned and at most one spare, which the limit or the store ends |
| NodeRpc.NodeRpc.GetBatch | src/node.rs:274-316 | blocks from the start height on, at least one, each proof at its block's place, greedily up to the size limit, which is capped at ten million |
| NodeRpc.SizeOfAll | src/node.rs:288-289 | the batch size adds up block and proof of every entry |
| NodeRpc.AccumulateOne | src/node.rs:285-300 | one round keeps blocks, proofs and size in step, and on passing the limit takes back the block but not its proof |
| BlkSync.ApplyAll | src/node/blksync.rs:74-87 | entries join in order until the first with a wrong height or refused by apply_block, and the error says which of the two it was |
| BlkSync.JoinAllIff | src/node/blksync.rs:74-87 | a batch joins in full exactly if its entries carry consecutive heights from the one asked for and each is applicable on those before it |
| BlkSync.NothingJoinsBeyondAGap | src/node/blksync.rs:89 | after a batch with fewer proofs than blocks nothing joins any more |
| BlkSync.AttemptBlksync | src/node/blksync.rs:14-93 | any peer: the chain only grows by applicable entries, Ok counts them, each error says what the last answer was, the requests are at most the missing heights and the empty batches, and all patience is used up exactly when the loop would go on; an honest peer: Ok, and we reach its height on its chain |
| BlkSync.RequestsBounded | src/node/blksync.rs:40-90 | every request but those answered by an empty batch brings the sync a height further |
| BlkSync.NoEmptyNoDelay | src/node/blksync.rs:40-90 | a peer that sends no empty batch is asked at most once for each missing height |
| BlkSync.NeverEndsIff | src/node/blksync.rs:40-90 | the loop, batches that fail to apply ending it, runs for ever if and only if it comes to a height for which the peer sends empty batches from then on |
| BlkSync.AttemptBlksyncLegacy | src/node/blksync.rs:96-162 | the same one block at a time, up to the batch bound; each error says why the next block did not join |
| BlkSync.BatchesAreHonest | src/node.rs:274-316 | a batch read from a node's store is an honest answer for every later state of that node's chain |
| BlkSync.HonestBatchApplies | src/node/blksync.rs:74-89 | an honest batch for the next height is applied in full and leads to a prefix of the peer's chain |
| Network.IntendedNeverForks | src/storage/storage.rs:262-300 | in every run of many nodes with at most a third dishonest at each stake set reached, histories are prefix-comparable under the intended tally |
| Network.CodedNeverForksOnSafeLists | src/storage/storage.rs:262-300 | the same under the coded tally when every stake list reached is `CodedSafe` |
| Network.SafeTallyNeverForks | src/storage/storage.rs:262-300 | any quorum-safe tally keeps every run fork-free, restarts that lose commits included |
| Network.AnyRestart | src/storage/storage.rs:303-341 | a node can come back with any prefix of its chain and go on from there |
| Network.UnsafeTallyForks | src/storage/storage.rs:277-300 | wherever two nodes hold the same blocks, the next stake list is not quorum-safe and two blocks can follow, four steps fork the chain, honest keys signing one header each |
| Network.CodedForksOnUnsafeLists | src/storage/storage.rs:277-300 | at every such tip whose stake list is not `CodedSafe`, some keys holding at most a third fork the coded check |
| Network.ACodedFork | src/storage/storage.rs:285-293 | a whole fork from a genesis whose stake set is three equal stakes, with collision-free hashes and unforgeable signatures |
| Network.ThreeStakersUnsafe | src/storage/storage.rs:285-293 | three equal stakes are not fork-safe in whatever order they are listed |
| Gossip.AcceptedIsForwarded | src/node.rs:188-231 | a newly accepted transaction goes to every neighbour if they are at most sixteen, else to the first sixteen; a refused one goes no further |
| Gossip.IgnoredOrLost | src/node.rs:189-193 | a message whose hash the receiver remembers has no effect, like a lost one |
| Gossip.StepDecreases | src/node.rs:188-231 | every delivery or loss lowers 17 times the unseen pairs plus the messages in flight |
| Gossip.GossipTerminates | src/node.rs:188-231 | runs are no longer than that measure, and no node broadcasts a transaction twice between rebases |
| Gossip.SentIsRefused | src/node.rs:198-206 | a broadcast transaction that comes back is refused with no effect |

## Left out

- Integer width: `CoinValue` sums, heights and mempool weights are unbounded; only the 64-bit cast and the checked 64-bit addition in `vote_weights` are modelled.
- Storage.Storage.ApplyBlock: starts where the writer lock is held; waiting for the lock, dropped futures and notification are steps of `StoreMachine`. Its error cases suppose that no transaction of a dropped call is running, since such a transaction commits without the lock (`StoreMachine` has that step), and that no other task adds to the mempool meanwhile.
- Storage.Storage.Open: the folder name, the 16 connections and the misc table are not modelled.
- NodeRpc.CollectBatch: relies on every stored block having its proof, which `StoreRuns.CrashConsistency` proves; with a missing proof the source would loop for ever. Base64, lz4 and stdcode are left out.
- BlkSync.AttemptBlksync: after any chosen number of requests, `patience`, the peer stops answering; `NeverEndsIff` is about the loop without it. No other task applies blocks meanwhile.
- StoreOrder.EffectsSerialise: ends at a crash; the node then is `JustOpened` again (`OpenedAfterCrash`) and the next stretch begins.
- Gossip.GossipTerminates: holds between rebases and without new submissions; the ten-second memory of recent hashes is any choice.
- StoreRuns.ReadersSeeReplay: the block cache is in the `Storage` class only; a lookup in the machine reads the history table.
- Staker rounds: the Streamlette decider, proposals, timers and a rebase of the mempool on a stale base state are not modelled, and nothing is claimed about consensus making progress.
- `get_coin_changes`, `get_some_coins`, `get_coin_spend` and the coin indexer: queries over a crate that is not part of this repository.
- `get_smt_branch`, `get_stakers_raw`, `get_sigs`, `autoretry`, logging, swarm routes and timeouts: thin wrappers or I/O.
