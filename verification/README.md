# Indexing watcher: a Dafny model

This project models the parts of the watcher framework that are hard to get right: what subgraph handlers read while
the chain reorganises, the jobs that index and prune blocks, the states that are folded into checkpoints, and some
self-contained algorithms around them. It proves what holds in every run, for every input.

| module | file | what it is about |
|---|---|---|
| BlockTree | BlockTree.dfy | the block tree, versioned entities and the hierarchical queries over them |
| EntityCache, EntityCacheRuns, EntityCacheForks, EntityCacheResets, GraphDatabases | EntityCache.dfy, EntityCacheRuns.dfy, EntityCacheForks.dfy, EntityCacheResets.dfy, GraphDatabase.dfy | the two-level entity cache: its rules, its runs, two runs that go wrong, what it answers after rows are deleted, and the class that changes it |
| Realtime, RealtimeLate, RealtimeJobs | Realtime.dfy, RealtimeLate.dfy, RealtimeJobs.dfy | indexing, pruning and resets as a protocol, a run with a late block, and the job runner's methods |
| HistoricalJobs | HistoricalJobs.dfy | historical batches, restarts, and how they go on |
| HookJobs | HookJobs.dfy | hooks and checkpoint jobs taken in any order |
| StateMerge, StateCheckpoints, StateIndexers | StateMerge.dfy, StateCheckpoints.dfy, StateIndexer.dfy | deep merges, diffs, checkpoints and the objects that hold them |
| EventOrder, EventProcessors | EventOrder.dfy, EventProcessor.dfy | the order in which a block's events are handled, and the page loops |
| Payments, PaymentsManagers | Payments.dfy, PaymentsManager.dfy | prepaid vouchers and free quota |
| StorageLayout, StoragePlacement, StorageLabels, StorageDecoder, StorageRoundTrip, Utf8 | StorageLayout.dfy, StoragePlacement.dfy, StorageLabels.dfy, StorageDecoder.dfy, StorageRoundTrip.dfy, Utf8.dfy | Solidity's storage layout, a writer for it, labels of types, the decoder, that the decoder undoes the writer, where it reads what, and the text encoding |
| ByteNumbers, GraphDecimals | ByteNumbers.dfy, GraphDecimal.dfy | integers in two's complement of any size, and the digits of decimal numbers |
| CallTracers, CallTracerGas | CallTracer.dfy, CallTracerGas.dfy | the call tracer's stack machine, and the gas, output and error it reports |

The layout rules are those of "Layout of State Variables in Storage" of the Solidity 0.8.4 documentation, which the
decoder links to.

Three kinds of files go together. A module of values states the rules and proves what holds of them over whole runs. A
class, where the original changes fields in place, has methods that change the same fields; each is proved to do what a
function or a step of the value module says. Facts about the functions then hold of the methods; lemmas whose names end
in Exact, Read or Tells say what a function computes in terms of its inputs alone.

## What the model says about the code

Some promises do not hold for all inputs. The model keeps what the code does, and says exactly when they hold.

- The cache asks the database for versions up to one above the oldest cached block, so that a version of a sibling
  branch at that height can be returned and cached (`EntityCacheForks.SiblingVersionLeaks`, `EntityCacheRuns.MissExact`).
- The same bound is used without the cache (`EntityCacheForks.FallbackLeaks`, `BlockTree.FallbackExact`).
- A reset deletes rows and leaves the cache as it is: a block that is indexed again can read its own earlier version
  (`EntityCacheResets.ResetAnswersExact`, `EntityCacheResets.ResetGoesStale`). The same happens after an error outside
  the subgraph handlers (`EntityCacheResets.ErrorAnswersExact`, `EntityCacheResets.ErrorGoesStale`).
- A job to index a block at a height that was pruned already is accepted, and the block stays unpruned
  (`RealtimeLate.LateBlockReached`, `Realtime.LateBlockStays`, `Realtime.OneBlockPerHeight`).
- The loop that looks for a block to prune from fails its own assertion when the only block is directly above the pruned
  height (`Realtime.TipHeightExact`, `RealtimeJobs.JobRunner.FindTip`); on a chain without gaps it finds one 16 above
  (`Realtime.PruneFinds`).
- A restart of historical processing from the last completed block is refused, so that the logs of a new contract in
  that block are not fetched (`HistoricalJobs.RestartExact`, `HistoricalJobs.RestartRefused`).
- A checkpoint created at block 1 is built on the latest checkpoint of all (`StateCheckpoints.BlockOneTakesLatest`,
  `StateCheckpoints.BlockOneExact`, `StateCheckpoints.NewBlockOneExact`, `StateCheckpoints.BlockOneFails`).
- Merging is not associative where diffs disagree about leaves (`StateMerge.MergeAssocExact`).
- The loops over the events of a block that was pruned, or whose unknown events were removed, do not end, because the
  query has fewer rows than the block counts (`EventProcessors.PagesEndExact`, `EventProcessors.PrunedBlockExact`).
- A contract whose name, or a function whose signature, has `int` and a digit in it is decoded as a number, and one
  with `string` in it as text
  (`StorageLabels.ScalarRoundTrip`, `StorageLabels.ContractReadAsNumber`).
- A mapping key of type bytesN that is shorter than a slot is padded on the wrong side
  (`StorageRoundTrip.FixedBytesKeyExact`).
- A request with two priced selections and one voucher spends the voucher and fails (`Payments.SelectionsExact`), and a
  voucher that is delivered twice before it is spent is lost (`Payments.DeliveredTwice`).
- A call that is not entered, such as one to an account without code, is missing from the trace when the very step that
  makes it is the one at which another call returns; so is the returned call. A call into code is kept, under the one
  that returned (`CallTracers.TraceExact`, `CallTracers.CallOnReturn`, `CallTracers.SpoiledTrace`).
- When the first operation of a call fails, the next step of its caller is taken for the first one inside, and the
  caller's gas is overwritten (`CallTracerGas.GasToldExact`, `CallTracerGas.GasOverwritten`).

## Model

| member | source | states |
|---|---|---|
| `EntityCacheRuns.EveryAnswerIsNewest` | packages/util/src/graph/database.ts:99-169 | in every state reached by caching blocks at any height, saving, loading, pruning, resetting, failing handlers and other errors, each answer for a block above the last canonical one is the newest version on that block's own branch |
| `EntityCacheRuns.PruneChangesNoAnswer` | packages/util/src/graph/database.ts:1225-1250 | every lookup has the same answer before and after a pruning step |
| `EntityCacheRuns.MissExact` | packages/util/src/graph/database.ts:146-156 | a lookup that goes to the database gives the newest version for every legal query answer if and only if that version is unpruned and outnumbers all other unpruned ones up to one above the oldest cached block |
| `EntityCacheForks.SiblingVersionLeaks` | packages/util/src/graph/database.ts:127-156 | a run from an empty watcher after which the bound of one above the oldest cached block lets a sibling branch's version into the cache, which then serves it |
| `EntityCacheForks.FallbackLeaks` | packages/util/src/database.ts:598-622 | a run after which the query without the cache returns a sibling branch's version where the branch has none |
| `EntityCacheRuns.StepKeeps` | packages/util/src/graph/database.ts:1164-1250 | caching a block, late ones and forks from below the cache included, saving with the mirrored write, loading, marking, pruning, emptying after a handler error, errors outside the handlers and resets keep the cache equal to the stored rows of its blocks, and the pruned part equal to the newest versions at the canonical block |
| `EntityCacheRuns.NewBlockEnabled` | packages/util/src/job-runner.ts:577-641 | a block not stored before, with no stored block on top of it, may come at any height unless it is an ancestor of the canonical block |
| `EntityCacheRuns.ResetExact` | packages/util/src/indexer.ts:1416-1469 | a reset, which leaves the cache alone, keeps the cache equal to the rows if and only if no cached entity belongs to a block above the reset height |
| `EntityCacheResets.ResetAnswersExact` | packages/util/src/indexer.ts:1416-1469 | once the blocks above the reset height are indexed again, every answer is the newest version if and only if no cached entity, pruned or on the way to the canonical block, is from above that height |
| `EntityCacheResets.StaleLatest` | packages/util/src/indexer.ts:1416-1469 | a cached pruned entity from above the reset height is returned to the block on top of the new canonical one, although its row is gone |
| `EntityCacheResets.StaleFrothy` | packages/util/src/graph/database.ts:1200-1211 | a block that keeps its cache entry reads its own earlier version when it is indexed again |
| `EntityCacheResets.ResetGoesStale` | packages/util/src/indexer.ts:1416-1469 | a run from an empty watcher to a reset after which an answer is not the newest version |
| `EntityCacheResets.ErrorExact` | packages/util/src/indexer.ts:1471-1490 | after an error outside the handlers, which deletes the rows of the block and leaves the cache alone, the cache is equal to the rows if and only if no entity was saved at the block |
| `EntityCacheResets.ErrorAnswersExact` | packages/util/src/job-runner.ts:778-794 | then every answer is the newest version under the same condition; otherwise the retry reads what the failed attempt has saved |
| `EntityCacheResets.ErrorGoesStale` | packages/util/src/job-runner.ts:778-794 | a run from an empty watcher to such an error after which an answer is not the newest version |
| `EntityCache.PruneKeepsLookups` | packages/util/src/graph/database.ts:1225-1250 | pruning at the oldest cached block keeps every hit above it, and a miss stays a miss with a bound moved to the child |
| `EntityCache.FrothyBlockAddedExact` | packages/util/src/graph/database.ts:1200-1223 | a block that comes is cached, without entities if it was not there, every other cached block stays as it is, and the latest pruned entities are forgotten exactly at the multiples of the interval |
| `GraphDatabases.GraphDatabase.GetModelEntity` | packages/util/src/graph/database.ts:99-169 | the loop over cached parents answers what the cache and the database together allow, and stores a version fetched from the database |
| `GraphDatabases.GraphDatabase.StoreSet` | packages/graph-node/src/loader.ts:92-112 | a save writes the row and mirrors it into the cached block |
| `GraphDatabases.GraphDatabase.CacheUpdatedEntity` | packages/util/src/graph/database.ts:1164-1192 | the entity goes into its cached block if there is one, or into the latest pruned entities |
| `GraphDatabases.GraphDatabase.UpdateEntityCacheFrothyBlocks` | packages/util/src/graph/database.ts:1200-1223 | a new block is cached without entities, and at the clearing interval the pruned part is emptied |
| `GraphDatabases.GraphDatabase.PruneEntityCacheFrothyBlocks` | packages/util/src/graph/database.ts:1225-1250 | the canonical block's entities become the latest pruned ones and all blocks up to it are removed |
| `BlockTree.NewestSpec` | packages/util/src/database.ts:598-609 | the plain rule: the version lies on the branch and no version on the branch has a higher number |
| `BlockTree.LowestRowIsStop` | packages/util/src/database.ts:539-596 | the lowest-numbered row of the recursive query is the block at which its walk stopped |
| `BlockTree.WalkShape` | packages/util/src/database.ts:539-580 | the walk visits at most 16 consecutive blocks of the branch, and stops at a version, at the limit or where no parent is stored |
| `BlockTree.PrevVersionIsNewest` | packages/util/src/database.ts:598-622 | getPrevEntityVersion returns the newest version of the branch when the walk meets one or all unpruned versions in reach of the fallback are on the branch |
| `BlockTree.FallbackExact` | packages/util/src/database.ts:598-622 | without a version on the walk, every legal answer is the newest one if and only if that one is unpruned and outnumbers all others in reach |
| `GraphDatabases.GetPrevEntityVersion` | packages/util/src/database.ts:598-609 | the answer is the version at the walk's end, or else one allowed by the fallback query |
| `GraphDatabases.GetLatestPrunedEntity` | packages/util/src/database.ts:611-622 | an unpruned version up to the bound that no other one outnumbers, or none if there is none |
| `Realtime.ParentsComplete` | packages/util/src/job-runner.ts:577-641 | in every run with resets, each stored block above the canonical one has its parent stored and complete |
| `Realtime.OneBlockPerHeight` | packages/util/src/job-runner.ts:466-528 | in every run, a pruned height keeps exactly one unpruned block besides late ones, and exactly one if and only if no late one is unpruned there |
| `Realtime.SettledChain` | packages/util/src/job-runner.ts:466-528 | the blocks left at successive pruned heights are parent and child, whichever path the pruning took |
| `Realtime.NoHeightSkipped` | packages/util/src/common.ts:432-448 | if prune jobs ask for at most the height after the canonical block, every height from the first pruned one to the canonical block is settled |
| `Realtime.PruneFinds` | packages/util/src/job-runner.ts:485-506 | where pruning runs on a gap-free chain, there is a block at the height and one 16 above it |
| `Realtime.ClimbReaches` | packages/util/src/database.ts:461-497 | above the canonical block, the lowest row of getAncestorAtHeight is the ancestor at exactly that height |
| `Realtime.StepKeeps` | packages/util/src/job-runner.ts:466-641 | indexing, completing, the indexed pointer, pruning on both paths and resets keep the invariant |
| `Realtime.LateBlockStays` | packages/util/src/job-runner.ts:577-641 | a block indexed at an already pruned height is accepted and stays unpruned beside the canonical one |
| `Realtime.CanonicalBlock` | packages/util/src/job-runner.ts:485-528 | in every run with resets, the hash kept with the canonical number is that of an unpruned block stored there, and of the settled one unless a reset has picked a late one |
| `Realtime.PruneCatchesUp` | packages/util/src/common.ts:432-448 | however far pruning is behind, working off the prune jobs that are asked for, each when it is taken, brings the canonical block to 16 below the indexed one |
| `Realtime.AskedAdvances` | packages/util/src/job-runner.ts:466-528 | every sequence of prune jobs that are asked for, from whatever blocks they prune, raises the canonical block by one each and leaves the indexed pointer |
| `Realtime.AcceptedAgain` | packages/util/src/job-runner.ts:548-575 | from every state with the invariant, after such jobs a new block with a complete parent is saved: indexing is not refused for good |
| `Realtime.ResetExact` | packages/util/src/indexer.ts:1416-1469 | a reset leaves exactly the blocks up to its height with their flags, and lowers the pointers that are above it |
| `RealtimeLate.LateBlockReached` | packages/util/src/job-runner.ts:577-641 | a run that settles height 1 and then accepts a late block there, which stays unpruned beside the settled one |
| `RealtimeJobs.JobRunner.IndexBlock` | packages/util/src/job-runner.ts:531-650 | one step of the protocol; the block is indexed if and only if its number is not 0, pruning is not behind, its parent is complete where it has to be, and it is not stored without its parent; the parent is asked for first if and only if it is missing and known upstream; a prune job is asked for if and only if pruning is behind; and whenever the block is not indexed nothing changes |
| `RealtimeJobs.JobRunner.FindTip` | packages/util/src/job-runner.ts:493-506 | the downward loop finds a block at the highest height with one from two to 16 above the pruned height, and fails its assertion exactly if none of these heights has a block |
| `Realtime.TipHeightExact` | packages/util/src/job-runner.ts:493-506 | the height at which the loop stops is the highest with a block, and there is none if and only if no height but the one directly above the pruned one has a block |
| `RealtimeJobs.JobRunner.PruneChain` | packages/util/src/job-runner.ts:466-528 | one step of the protocol, including its refusals; in a state with the invariant, where pruning runs it succeeds and the canonical block is at the height |
| `RealtimeJobs.JobRunner.HandleIndexingComplete` | packages/util/src/events.ts:371-391 | the indexed pointer becomes the number if a block is there and it is higher, and a prune job, for the height after the canonical one, is asked for if and only if a block is there and the indexed number is then more than 16 above the canonical one |
| `RealtimeJobs.JobRunner.ResetWatcherToBlock` | packages/util/src/indexer.ts:1416-1469 | refused without a block or with an incomplete one; otherwise later blocks go and higher pointers come down |
| `HistoricalJobs.FetchedExactly` | packages/util/src/job-runner.ts:216-316 | in every run with restarts, the block numbers fetched and kept are those from the first job's start to the last completed one, each once and in order |
| `HistoricalJobs.JobKeeps` | packages/util/src/job-runner.ts:216-294 | a job is refused without effect, or extends the kept interval by exactly its batch; no block is saved twice |
| `HistoricalJobs.JobAcceptedExact` | packages/util/src/job-runner.ts:216-294 | in a state reached by jobs, a job is accepted if and only if it is the first, follows the last completed block, or starts before it where the watcher can be reset to the block before its start |
| `HistoricalJobs.SaveFailsExact` | packages/util/src/job-runner.ts:253-265 | saving a batch fails, and changes nothing, if and only if a block with logs in it is saved already |
| `HistoricalJobs.ResetExact` | packages/util/src/indexer.ts:1416-1469 | a reset keeps exactly the saved, complete and fetched numbers up to its block, which becomes the chain head |
| `HistoricalJobs.BatchesReachEnd` | packages/util/src/job-runner.ts:301-311 | once its first batch is accepted, a job and the jobs it pushes reach the end block |
| `HistoricalJobs.NextJobAccepted` | packages/util/src/events.ts:100-168 | the job that starts the next stretch follows the last completed block and is accepted; there is none if the stretch would have at most one block |
| `HistoricalJobs.NextJobExact` | packages/util/src/events.ts:100-168 | there is a next job if and only if the block after the chain head, or the latest without one, is more than 16 below the latest; it starts there and ends 16 below the latest, or earlier only as far as the fetch-ahead limit demands |
| `HistoricalJobs.JobsInOrder` | packages/util/src/job-runner.ts:216-316 | every job that is ever pushed, by the start of a stretch, by a batch or by a restart, starts at block 1 or later and does not end before it starts |
| `HistoricalJobs.QueueRunIsRun` | packages/util/src/job-runner.ts:216-316 | every run of the job runner with its queue is a run of jobs as FetchedExactly takes them |
| `HistoricalJobs.RestartExact` | packages/util/src/job-runner.ts:725-742 | in every run with the queue, a restart after block n is for the blocks after n up to the end of the last job, and is accepted and fetches them again if and only if n is at least two below the last completed block; otherwise it is refused without effect |
| `HistoricalJobs.JobsAfterExact` | packages/util/src/job-runner.ts:216-316 | which jobs wait after each step: a batch that is not the last pushes the rest of its job, and a restart leaves exactly one, for the blocks after it up to the end of the last job accepted |
| `HistoricalJobs.LastEndExact` | packages/util/src/job-runner.ts:253 | the end block that a restart gets is that of the last job that was accepted |
| `HistoricalJobs.QueueReachesEnd` | packages/util/src/job-runner.ts:301-311 | from every reached queue with an accepted job, working off the job and those it pushes gets to its end block |
| `HistoricalJobs.RestartReachesEnd` | packages/util/src/job-runner.ts:725-742 | a restart two or more below the last completed block, followed by the jobs it leaves, gets to the end block of the last job again |
| `HistoricalJobs.RestartRefused` | packages/util/src/job-runner.ts:725-742 | a run of the queue to a restart after the block below the last completed one, which is refused |
| `HistoricalJobs.JobRunner.ProcessHistoricalBlocks` | packages/util/src/job-runner.ts:216-316 | the job changes the tables as specified and pushes exactly the next batch, after deleting the waiting jobs if it is a restart; it is aborted if and only if logs are found after an error in events processing, and then the blocks stay saved and the batch does not count as completed |
| `HistoricalJobs.JobRunner.ResetWatcherToBlock` | packages/util/src/indexer.ts:1416-1435 | keeps exactly the numbers up to the given block, if a complete block is there |
| `HookJobs.HooksInOrder` | packages/util/src/job-runner.ts:356-394 | for any order and repetition of jobs, each block for which hooks run is the child of the one before |
| `HookJobs.HooksOnce` | packages/util/src/job-runner.ts:356-394 | no block's hooks run twice |
| `HookJobs.CheckpointsFollow` | packages/util/src/job-runner.ts:396-430 | the checkpoints done are a consecutive stretch of the hooks done, and the checkpoint pointer never passes the indexed one |
| `HookJobs.CheckpointsCatchUp` | packages/util/src/job-runner.ts:396-430 | from any reached state, a checkpoint job for a block ahead of the pointer can be worked off by taking the jobs it queues, until the checkpoint of that block is made and the pointer is at it |
| `HookJobs.HooksLeaveCheckpoint` | packages/util/src/job-runner.ts:356-394 | in every run, each block whose hooks have run has a checkpoint job |
| `HookJobs.HooksGetCheckpoint` | packages/util/src/job-runner.ts:356-430 | from every reached state, a block whose hooks have run can still get its checkpoint made, unless the checkpoints are at it or beyond |
| `HookJobs.HooksCatchUp` | packages/util/src/job-runner.ts:366-375 | from any reached state, a hooks job for a block ahead can be worked off by taking the jobs it queues |
| `HookJobs.JobRunner.ProcessHooks` | packages/util/src/job-runner.ts:356-394 | fails if and only if the parent's hooks have not run, and then nothing has run and the parent's job is queued; succeeds otherwise, with the indexed number at the block or beyond, having run the hooks and left a checkpoint job if it was behind |
| `HookJobs.JobRunner.ProcessCheckpoint` | packages/util/src/job-runner.ts:396-430 | fails if and only if there is a checkpoint but not the parent's, and then nothing was done and the parent's job is queued; succeeds otherwise, with the checkpoint number at the block or beyond, having made the checkpoint if it was behind |
| `HookJobs.JobRunner.UpdateStateSyncStatusIndexedBlock` | packages/util/src/database.ts:889-904 | creates the row with no checkpoint, or raises the indexed number |
| `StateMerge.MergeAssocExact` | packages/util/src/graph/state-utils.ts:118-123 | merging is associative if and only if no leaf stands between two nodes of which the later does not hide the earlier, and no object between two arrays leaves a trace; the condition looks at keys, kinds and leaves only |
| `StateMerge.HiddenExact` | packages/util/src/graph/state-utils.ts:118-123 | merging c into a gives c if and only if c hides a: key by key, kind by kind |
| `StateMerge.AbsorbedExact` | packages/util/src/graph/state-utils.ts:118-123 | merging b into a gives a if and only if a has all that b says already |
| `StateMerge.NoTraceExact` | packages/util/src/graph/state-utils.ts:118-123 | b merged in between changes nothing if and only if it leaves no trace that c does not hide |
| `StateMerge.AgreeNoClash` | packages/util/src/graph/state-utils.ts:118-123 | trees that agree on which keys are leaves never make the order matter, whatever they are merged into |
| `StateMerge.FoldFirst` | packages/util/src/graph/state-utils.ts:118-123 | merging diffs into each other first and the outcome into any state equals merging them one after the other |
| `StateMerge.InMemoryMerge` | packages/util/src/graph/state-utils.ts:118-123 | the same when the diffs are gathered in memory from an empty object |
| `StateMerge.MergeIdempotent` | packages/util/src/indexer.ts:1287-1293 | merging a tree into itself changes nothing |
| `StateMerge.MergeLeaf` | packages/util/src/graph/state-utils.ts:118-123 | at every path a merge has the new tree's leaf if there is one or something on the path is replaced, and otherwise keeps the old tree's, for all trees |
| `StateMerge.FoldHasNewest` | packages/util/src/indexer.ts:1572-1591 | if state and diffs agree on leaves, the fold has at every path the leaf of the last diff that has one there |
| `StateMerge.MergeNotAssociative` | packages/util/src/graph/state-utils.ts:118-123 | without agreement the two ways of merging differ |
| `StateCheckpoints.RangesMeet` | packages/util/src/indexer.ts:1574-1578 | two adjoining half-open ranges hold together the diffs of the whole range, none missing and none twice |
| `StateCheckpoints.RangeOne` | packages/util/src/database.ts:809-824 | a diff is in range if and only if its block is above the lower bound and at most the upper one |
| `StateCheckpoints.RangeAppend` | packages/util/src/database.ts:809-824 | the diffs of a range come one by one and in order |
| `StateCheckpoints.MergeDiffsInRange` | packages/util/src/indexer.ts:1572-1591 | for every positive batch size the batches make one ordered fold over the diffs of the half-open range, and the loop ends |
| `StateCheckpoints.RowsFold` | packages/util/src/indexer.ts:1265-1293 | folding the saved diffs, several of one block merged into one row, equals folding all diffs created, if diffs of the same block agree on which keys are leaves |
| `StateCheckpoints.EveryCheckpointIsFold` | packages/util/src/indexer.ts:1188-1261 | for every schedule of checkpoints, each is the initial state with all diffs up to its block merged in turn; diffs of different blocks may disagree |
| `StateCheckpoints.CheckpointHasNewest` | packages/util/src/indexer.ts:1188-1261 | in every run a checkpoint has at every path what the newest diff up to its block says there, or else the initial state, if these agree on leaves |
| `StateCheckpoints.RecreateChangesNothing` | packages/util/src/indexer.ts:1285-1293 | creating a checkpoint again leaves the whole state as it was |
| `StateCheckpoints.BlockOneTakesLatest` | packages/util/src/database.ts:694-697 | at block 1 the search for an earlier checkpoint is not bounded: whether there is a checkpoint at 1 or not, what is merged gives the latest one of all |
| `StateCheckpoints.BlockOneExact` | packages/util/src/database.ts:694-697 | a checkpoint created at block 1 beside a later one is right if and only if the later diffs are absorbed by the state at 1 (a checkpoint was there) or leave it equal (none was) |
| `StateCheckpoints.NewBlockOneExact` | packages/util/src/database.ts:694-697 | where the later diffs agree on leaves, a new checkpoint at block 1 is right if and only if the state at 1 has all that they say, merged into each other, already |
| `StateCheckpoints.BlockOneFails` | packages/util/src/indexer.ts:1188-1261 | a run, with one diff at block 2 and checkpoints at 1 and 2, after which creating the one at 1 again gives the wrong state |
| `StateCheckpoints.EventsThroughBlocks` | packages/util/src/graph/state-utils.ts:118-145 | folding block diffs that were merged in memory from event diffs equals folding all event diffs |
| `StateIndexers.StateIndexer.CreateDiff` | packages/util/src/indexer.ts:1149-1186 | refused at the block of the last checkpoint; otherwise merged into the last diff of the same block or appended |
| `StateIndexers.StateIndexer.CreateCheckpoint` | packages/util/src/indexer.ts:1188-1261 | refused for a block whose state is not indexed; otherwise the specified checkpoint is saved |
| `StateIndexers.StateIndexer.GetLatestState` | packages/util/src/database.ts:687-723 | the highest checkpoint up to the bound, where zero means no bound |
| `StateIndexers.SubgraphState.Update` | packages/util/src/graph/state-utils.ts:118-123 | the contract's memory holds the fold of all diffs given for it since the last dump |
| `StateIndexers.SubgraphState.Dump` | packages/util/src/graph/state-utils.ts:125-145 | one diff for each contract, the fold of those given for it, and an empty memory |
| `EventOrder.HandledExactly` | packages/util/src/common.ts:279-390 | handled are exactly the events of contracts watched at the start, and the unknown events of other contracts that the handlers of those watch and that can be parsed by then, each with the name it is parsed to |
| `EventOrder.HandledOnce` | packages/util/src/common.ts:279-390 | the events of contracts watched at the start come before all others, and within both parts the indices go up |
| `EventOrder.WatchedExact` | packages/util/src/common.ts:279-390 | a contract is watched after some events if and only if it was before or the handler of one of them has started to watch it |
| `EventOrder.IndexOrderExact` | packages/util/src/common.ts:210-277 | in index order handled are exactly the events whose contracts are watched when it is their turn, an unknown one with the name it is parsed to then, if it can be |
| `EventOrder.IndexOrderAscends` | packages/util/src/common.ts:210-277 | in index order the indices of the events handled go up |
| `EventOrder.OrdersAgree` | packages/util/src/common.ts:210-277 | if no handler watches a new contract, index order and subgraph order handle the same events in the same order |
| `EventProcessors.BlockProcessor.ProcessEventsInSubgraphOrder` | packages/util/src/common.ts:279-390 | for every page size, if all rows of the block are found, the loops handle the events in subgraph order; the processed count is their number, and the last processed index goes through the indices of the first part and then on by one or to the index of the event, whichever is more |
| `EventProcessors.BlockProcessor.ProcessEvents` | packages/util/src/common.ts:210-277 | for every page size, if all rows of the block are found, the loops handle the events in index order, count all of them and go through all of their indices |
| `EventProcessors.BlockProcessor.ProcessBatchEvents` | packages/util/src/common.ts:172-208 | the events are handled in the chosen order, then the block handler runs once unless the block was complete before, the block is complete, and saving its progress afterwards counts nothing more |
| `EventProcessors.BlockProcessor.GetEventsBatch` | packages/util/src/common.ts:392-403 | a page holds exactly the events after those of the pages before |
| `EventProcessors.PagesEndExact` | packages/util/src/common.ts:299-303 | the page loops end if and only if the query has at least as many rows as the block was saved with events |
| `EventProcessors.PrunedBlockExact` | packages/util/src/database.ts:325-329 | with every event still stored the loops end if and only if the block is unpruned or has no events |
| `EventProcessors.BlockProcessor.ParseUnknown` | packages/util/src/common.ts:359-375 | the unknown events among the given ones whose contracts are watched and that can be parsed, each with its name, and in the order they came |
| `EventProcessors.MarksAfterExact` | packages/util/src/common.ts:378-386 | the last processed index goes up with every event of a newly watched contract, to one more or to the event's own index |
| `Payments.CreditsTelescope` | packages/util/src/payments.ts:113-153 | the credits of a channel add up to its last voucher's amount less what it had paid at the start |
| `Payments.ServedWithinCredits` | packages/util/src/payments.ts:160-190 | in every run with any evictions of payments, the cost of what a payer was served never exceeds the payer's credits |
| `Payments.EachVoucherOnce` | packages/util/src/payments.ts:284-303 | in every run each voucher pays for at most one query with a price |
| `Payments.FreeWithinLimit` | packages/util/src/payments.ts:160-178 | nobody is served more free queries than the limit |
| `Payments.FreeExact` | packages/util/src/payments.ts:160-185 | in every run a free query is allowed if and only if fewer than the limit were served, and then counts as one |
| `Payments.VoucherWorth` | packages/util/src/payments.ts:113-148 | a voucher is worth to the payer of its channel what it adds to the channel's amount: a priced query with it is allowed if and only if the price is not more |
| `Payments.PaidCounted` | packages/util/src/payments.ts:284-303 | a paid query that is allowed is counted with its price for its signer and takes the payment; refused, it changes nothing |
| `Payments.DeliveredTwice` | packages/util/src/payments.ts:129-141 | over every run that neither spends nor evicts a received payment it keeps its worth if its voucher is not delivered again, and otherwise is worth nothing, so that every priced query with it is refused |
| `Payments.SelectionsExact` | packages/util/src/payments.ts:447-452 | a request with a voucher succeeds if and only if it has at most one priced selection and that one is covered; with more it fails after its voucher is spent |
| `PaymentsManagers.FreeSelectionsExact` | packages/util/src/payments.ts:160-178 | a request on the free quota succeeds if and only if enough of it is left for all its priced selections, and then each counts |
| `PaymentsManagers.OneCost` | packages/util/src/payments.ts:408-435 | a selection costs its price unless it is on the free list or has none |
| `PaymentsManagers.CostsAppend` | packages/util/src/payments.ts:408-435 | several selections cost what each of them does, in order |
| `PaymentsManagers.CostsNothing` | packages/util/src/payments.ts:408-435 | a request costs nothing if and only if each of its selections is free or has no price |
| `PaymentsManagers.PaymentsManager.HandleVoucher` | packages/util/src/payments.ts:113-148 | credits the difference to the last voucher and replaces a payment with the same hash |
| `PaymentsManagers.PaymentsManager.AcceptReceivedPayment` | packages/util/src/payments.ts:284-303 | tells whether the voucher was found and sufficient, and removes it only if so |
| `PaymentsManagers.PaymentsManager.AllowRequest` | packages/util/src/payments.ts:160-190 | free quota for the empty voucher hash, otherwise the voucher has to cover the cost |
| `PaymentsManagers.PaymentsManager.ValidateGQLRequest` | packages/util/src/payments.ts:394-455 | succeeds if and only if the request is introspection, costs nothing, or comes with a header whose free quota, or whose voucher for a single priced selection, covers it; without need of payment nothing changes |
| `StorageRoundTrip.DecodeUndoesWrite` | packages/solidity-mapper/src/storage.ts:120-184 | decoding any part of any value of a valid type, mappings by key included, gives back what the writer laid out, whatever the storage held before; the part may not hold contracts of unreadable names or ill-formed text |
| `StorageRoundTrip.WholeRoundTrip` | packages/solidity-mapper/src/storage.ts:120-184 | a variable is read back as a whole exactly as written if and only if it has no mapping, no contract of an unreadable name and no ill-formed text in it |
| `StorageRoundTrip.DecodeHeld` | packages/solidity-mapper/src/storage.ts:120-184 | wherever a value is held by the layout rules, the decoder returns the part its keys name, reading the kind of each scalar off its label |
| `StorageLayout.ElementsPacked` | packages/solidity-mapper/src/storage.ts:240-252 | elements of up to 32 bytes leave no gap in a slot: counting the bytes that a slot has for them, they lie one after the other |
| `StorageLayout.LargeElementsFollow` | packages/solidity-mapper/src/storage.ts:240-252 | each larger element starts where the slots of the one before end |
| `StorageLayout.FixedArraySize` | packages/solidity-mapper/src/storage.ts:240-252 | an array of fixed length takes the slots that its elements fill, several elements to a slot or several slots to an element |
| `StorageRoundTrip.PackedElementRead` | packages/solidity-mapper/src/storage.ts:235-260 | whatever the storage holds, with as many elements to a slot as fit, element k of slot j of a packed array is read from that slot at the byte after the k elements before it |
| `StorageRoundTrip.PackedDynElementRead` | packages/solidity-mapper/src/storage.ts:160-168 | the same in a dynamic array, in the area that hangs from its slot |
| `StorageRoundTrip.LargeElementRead` | packages/solidity-mapper/src/storage.ts:240-260 | an element of more than 32 bytes is read from the slot after those of the elements before it |
| `StorageRoundTrip.DynLengthRead` | packages/solidity-mapper/src/storage.ts:226-233 | the length of a dynamic array is the number in its slot |
| `StorageRoundTrip.MemberRead` | packages/solidity-mapper/src/storage.ts:281-301 | a member asked for by name is read from the slot and the byte that the layout gives it |
| `StorageRoundTrip.EntryRead` | packages/solidity-mapper/src/storage.ts:153-156 | the entry of a mapping is read from the first slot of the area for its key |
| `StorageRoundTrip.StringRoundTrip` | packages/solidity-mapper/src/storage.ts:352-409 | a byte string of any length is read back exactly, in the short form with an even and the long form with an odd header |
| `StorageRoundTrip.StringBytesRead` | packages/solidity-mapper/src/storage.ts:352-409 | whatever the storage holds: the length is half the number in the slot if that is odd and half its lowest byte otherwise, less than 32 bytes are read from the high end of the slot, and more from the slots of the area that hangs from it, each from its high end |
| `StorageLabels.ScalarRoundTrip` | packages/solidity-mapper/src/storage.ts:80-109 | reading the bytes of a value by the label of its type gives the value back if and only if the type is not a contract whose name, or a function whose signature, has int and a digit, or string, in it |
| `StorageLabels.FirstIntExact` | packages/solidity-mapper/src/storage.ts:86 | the unanchored pattern matches exactly the labels that have int and a digit somewhere |
| `StorageLabels.ContractReadAsNumber` | packages/solidity-mapper/src/storage.ts:86-97 | a contract with a name such as Point3D is decoded as a signed number of three bits, whatever its address, and one with a name such as Int0 is refused |
| `StorageLabels.BooleanRead` | packages/solidity-mapper/src/storage.ts:82-84 | a boolean is read as true if and only if one of its bytes is not zero |
| `StorageLabels.ByteStringRoundTrip` | packages/solidity-mapper/src/storage.ts:100-108 | bytes come back as they are, and a string if and only if it is well-formed UTF-8 |
| `Utf8.WellFormedExact` | packages/solidity-mapper/src/storage.ts:99-104 | the bytes that are taken for text are exactly those that encode a sequence of Unicode scalar values |
| `StorageRoundTrip.KeysAgree` | packages/solidity-mapper/src/storage.ts:191-224 | for supported keys, numbers below 2^53-1 and hexadecimal text in either case among them, the decoder hashes the bytes that Solidity hashes |
| `StorageRoundTrip.ParseHexExact` | packages/solidity-mapper/src/storage.ts:211-214 | a key text is taken as data if and only if it is 0x followed by the hexadecimal digits, in either case, of the data |
| `StorageRoundTrip.KeyRefusedExact` | packages/solidity-mapper/src/storage.ts:191-219 | a key is refused if and only if it is a flag where none belongs, a number from 2^53-1 on, or text that is not hexadecimal data or, for a value type, more than 32 bytes of it |
| `StorageRoundTrip.FlagMeant` | packages/solidity-mapper/src/storage.ts:194-197 | for a boolean key zero, the empty text and false are false, and everything else is true |
| `StorageRoundTrip.NoKeyIsFalse` | packages/solidity-mapper/src/storage.ts:153-156 | without a key a mapping with boolean keys answers for false |
| `StorageRoundTrip.FixedBytesKeyExact` | packages/solidity-mapper/src/storage.ts:191-224 | a bytesN key is looked up in the right slot if and only if it fills a slot or is all zeros |
| `StoragePlacement.CompiledIsValid` | packages/solidity-mapper/src/storage.ts:281-329 | members placed by the packing rules never overlap and stay inside the struct's slots, for all fields |
| `StoragePlacement.StartsFirst` | packages/solidity-mapper/src/storage.ts:281-301 | a member starts at the first byte, from the end of the one before, at which the layout rules let it start |
| `StorageDecoder.GetDecodedValue` | packages/solidity-mapper/src/storage.ts:120-184 | the mutually recursive methods terminate and compute the decoder function |
| `StorageDecoder.GetArrayElements` | packages/solidity-mapper/src/storage.ts:264-271 | the loop over an array's elements, stopping at the first that fails |
| `StorageDecoder.GetMembers` | packages/solidity-mapper/src/storage.ts:296-304 | the loop over a struct's members, stopping at the first that fails |
| `StorageDecoder.GetBytesValue` | packages/solidity-mapper/src/storage.ts:352-409 | the length test and the loop over consecutive hashed slots, cut to length |
| `ByteNumbers.BigIntRoundTrip` | packages/graph-node/src/loader.ts:519-542 | every integer written as little-endian two's complement is read back |
| `ByteNumbers.BigIntBytesUnique` | packages/graph-node/src/loader.ts:312-326 | a byte array stands for one number of its range, and no other array of its length does |
| `ByteNumbers.BigIntSignExtend` | packages/graph-node/src/loader.ts:312-326 | a larger array with the sign continued stands for the same number |
| `GraphDecimals.DigitsAndExpValue` | packages/util/src/graph/graph-decimal.ts:187-195 | the digits read as an integer, times ten to the exponent, are the absolute value of every normalised number |
| `GraphDecimals.GraphDigitsCanonical` | packages/util/src/graph/graph-decimal.ts:199-226 | the digits have no zero in front or at the end unless the number is zero |
| `GraphDecimals.SameDigitsIffEqual` | packages/util/src/graph/graph-decimal.ts:187-195 | two numbers other than zero have the same digits and exponent if and only if they are equal |
| `GraphDecimals.MagnitudeBounds` | packages/util/src/graph/graph-decimal.ts:189 | the first digit counts ten to the exponent that decimal.js holds |
| `GraphDecimals.DigitsToString` | packages/util/src/graph/graph-decimal.ts:199-226 | the loops over the words, the zeros in front and the zeros at the end compute the digits, and they end |
| `GraphDecimals.GetZeroString` | packages/util/src/graph/graph-decimal.ts:228-232 | the given number of zeros |
| `GraphDecimals.CheckOutOfRange` | packages/util/src/graph/graph-decimal.ts:166-183 | refused exactly if the exponent of the digits is out of range |
| `GraphDecimals.InRangeExact` | packages/util/src/graph/graph-decimal.ts:166-183 | a number is in range if and only if it is an integer that ten does not divide, scaled by a power of ten in range |
| `CallTracers.NoCallLost` | packages/tracing-client/tracers/call_tracer.js:28-193 | after every sequence of steps and faults the stack is not empty and its frames, with the calls attached to them, are all calls opened, each once and in order |
| `CallTracers.CallsCounted` | packages/tracing-client/tracers/call_tracer.js:28-99 | after every sequence of steps and faults there is one call for each creation, self-destruction and call to a contract that is not precompiled, and the outermost |
| `CallTracers.NoFrameMade` | packages/tracing-client/tracers/call_tracer.js:58-80 | a self-destruction becomes the last call of its frame with no calls inside, and a call to a precompiled contract changes nothing |
| `CallTracers.OutermostFails` | packages/tracing-client/tracers/call_tracer.js:158-193 | a failure of the outermost frame stays with it |
| `CallTracers.ResultComplete` | packages/tracing-client/tracers/call_tracer.js:197-221 | the result has every call if and only if one frame is left |
| `CallTracers.TraceExact` | packages/tracing-client/tracers/call_tracer.js:28-221 | for every trace that follows the depths of the EVM to its end, failing operations included, the result has every call if and only if no step directly on return of a call is one that is not entered, or ends or fails the frame of the caller |
| `CallTracers.CallOnReturn` | packages/tracing-client/tracers/call_tracer.js:28-193 | a call that is not entered, made by the very step at which another call returns, leaves both on the stack, and the result incomplete |
| `CallTracers.SpoiledTrace` | packages/tracing-client/tracers/call_tracer.js:28-221 | a trace of four steps that follows the EVM and is spoiled: a call that returns directly into one that is not entered |
| `CallTracerGas.CallGas` | packages/tracing-client/tracers/call_tracer.js:99-151 | whatever happens inside, nested and failing calls included, unless one of its own steps is taken for the first of a failed call, a call that is entered and returns becomes the last call of its caller, with what its opening recorded, the calls made inside and the gas told by its first step, charged what the caller had less the cost, plus that gas unless it is a creation, less what is left on return |
| `CallTracerGas.CallOutcome` | packages/tracing-client/tracers/call_tracer.js:115-148 | if its result is not zero, its output is what its return left behind, for a creation with the address made, and otherwise it has none; its error is the one set inside, or, if its result is zero and none was set, an internal failure |
| `CallTracerGas.RevertedCall` | packages/tracing-client/tracers/call_tracer.js:110-148 | a call whose code ends with a revert becomes the last call of its caller, reported as reverted and without output; a fault reported for the revert changes nothing |
| `CallTracerGas.FailedCallGas` | packages/tracing-client/tracers/call_tracer.js:165-193 | under the same conditions, a call that is entered and fails becomes the last call of its caller, with its error, no output and all the gas told by its first step charged |
| `CallTracerGas.InnerTraceKeeps` | packages/tracing-client/tracers/call_tracer.js:28-193 | while the code of a call runs, its callers stay as they are, and its own frame changes in its calls and its error only |
| `CallTracerGas.GasToldExact` | packages/tracing-client/tracers/call_tracer.js:99-113 | along every trace that follows the EVM, a frame's gas is changed only by the step directly after the one that opened it, if and only if no step is taken for the first one inside a call whose first operation has failed |
| `CallTracerGas.GasOverwritten` | packages/tracing-client/tracers/call_tracer.js:99-113 | a trace of six steps that follows the EVM in which the gas told of a call is overwritten |
| `CallTracers.FinalizedIds` | packages/tracing-client/tracers/call_tracer.js:226-251 | finalize keeps every call in its place |
| `CallTracers.FinalizedTells` | packages/tracing-client/tracers/call_tracer.js:229-251 | every field of every call in the tree is reported as it is, and nothing else |
| `CallTracers.Tracer.HandleStep` | packages/tracing-client/tracers/call_tracer.js:28-162 | step changes the stack as specified |
| `CallTracers.Tracer.HandleFault` | packages/tracing-client/tracers/call_tracer.js:165-193 | fault changes the stack as specified |
| `CallTracers.FinalizeAll` | packages/tracing-client/tracers/call_tracer.js:245-249 | the loop over inner calls reports each with all its fields |

## Left out

- Network clients, GraphQL and RPC servers, peers and relays, consensus, command line tools, metrics and logging: plumbing around libraries that are not part of this model.
- Postgres, TypeORM and the job queue inside: tables are maps and sets, a query stands for its meaning, and where SQL leaves the order of rows open every legal answer is allowed. Each job is one atomic step; a crash in the middle of one is not modelled.
- `buildWhereClause` and its helpers: sibling entries of an and/or list share a parameter suffix, so that their text does not mean what the filter says.
- `prefetchBlocks`: its retry slices the list of block numbers first, so that not every height of a batch is kept.
- Null blocks of FEVM in the job protocol: the theorems of Realtime and HookJobs are for chains without gaps in the numbering. The entity cache and its queries allow gaps.
- Realtime: the chain head and processed pointers, which follow the same guarded update as the indexed one. The invariants do not depend on when jobs are queued, so the queue of index and prune jobs is any sequence of steps.
- Realtime: the upstream chain is fixed for a run, and all its blocks 16 above a height share their ancestor at that height.
- EntityCacheRuns: a version is loaded by block hash only, for a block whose path down to the canonical one is stored; the lookup without a block hash is a plain query.
- EntityCacheRuns: the canonical block and its ancestors are not processed again, no block is saved below a stored one, and a block that is not cached is added only when it has no versions stored. A reset is a step of the runs where ResetExact says that it keeps the cache right.
- EntityCache: the maps by table name and by id are one map by both, which is the same because a table's map is never empty.
- HistoricalJobs: logs come from a fixed set of block numbers, and address filters do not change them; the property is for runs in which processing events does not fail.
- HookJobs: blocks are those of one canonical branch, as SettledChain of Realtime gives them, and no reset happens.
- StateMerge: merging follows lodash on JSON values; plain objects with a numeric `length` field, which lodash takes for arrays, are not modelled.
- StateCheckpoints: runs create no checkpoint at block 1 beside a later one, for which BlockOneExact says when it is right, and diffs of one block agree on which keys are leaves. Diffs are created in ascending block order with checkpoint hooks that leave the default checkpoint on; staged diffs, CIDs, metadata and the dag-cbor encoding are not part of this model.
- StateIndexers.StateIndexer.CreateDiff: asks that no diff goes back to an earlier block than the last one, which is the order in which canonical blocks are processed.
- EventProcessors.BlockProcessor.ProcessBatchEvents: is for a block whose rows are all found, as for its two loops; PagesEndExact says when the loops end otherwise. A block that is processed again after its unknown events were removed is such a case.
- EventOrder: filtering of logs by address is off; handlers and parsers are arbitrary functions of what was handled and what is watched.
- Payments: no channel entry is evicted and the cumulative amount of a channel never goes down. Waiting for a voucher and its time limit are steps that ask again or give up, which is left to the caller; signatures, and hashes other than that they tell vouchers apart, are not modelled.
- StorageLayout: keccak256 is a free constructor, so that areas reached by different keys are different, and slot numbers do not wrap around at 2^256. Negative numbers as keys or array indices, arrays of 2^53 elements and more, checksummed addresses and storage proofs are not modelled: addresses and bytes are the bytes read, and text is given by its UTF-8 bytes.
- PaymentsManagers.PaymentsManager.AllowRequest: the wait for a voucher that has not arrived is left to the caller, who asks again or gives up.
- StorageDecoder.GetDecodedValue: arrays, structs, mappings and byte strings are told apart by the constructor of the type, not by the text of label and encoding.
- StorageLabels: the labels are those of the types that the 0.8.4 compiler emits; `fromTwos` follows bn.js, which is not part of this model.
- StorageDecoder: the members of a struct are read one after the other; when several fail, the first error is the one reported.
- GraphDecimals: arithmetic, rounding to 34 digits and comparison are decimal.js's own; digits are numbers, not characters.
- ByteNumbers: WASM memory and AssemblyScript wrappers.
- CallTracerGas: the gas and the outcome of a call opened by the very step at which another returns is not stated; such a call is attached without it. A frame's first operation takes no operands, so it neither calls nor reverts unless it fails.
- CallTracers: stack and memory contents of a new call are one opaque text; the time and context fields of the result, and the precompile table, are not modelled.
- LRU time limits, Handlebars code generation, GraphQL schema composition and subgraph handler bodies.
