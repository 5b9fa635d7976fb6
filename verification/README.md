# Verification model of the unified cache manager

A Dafny model of the logic by which the unified cache manager reuses KV cache across
requests, and of the tool that estimates what such reuse would bring. It covers:

- the trace simulator: LRU caches in three tiers, request groups, token accounting
  (`Lru`, `Tiers`, `TraceRuns`, `TierShares`, `CapacityMonotone`, `RequestGroups`,
  `Simulator`);
- the direct connector: block ids, matching, scheduling steps, and the soundness of
  prefix reuse over whole runs (`HashChain`, `DirectScheduler`, `PrefixCacheRuns`);
- cross-rank consistency and asynchronous dumps (`RankMarks`, `DumpManager`, `NullBlocks`,
  `AsyncDump`);
- the hybrid connector: two-stage lookup, dispatch, row pipeline, page layout
  (`HybridLookup`, `HybridDispatch`, `HybridSteps`, `RowPipelines`, `HybridLayout`);
- full-attention and window groups: lookup, dump windows, rank shares, addressing
  (`FawaPlan`, `FawaLayout`);
- vectored copies and the segment rows they serve (`VectoredCopy`, `SegmentRows`);
- CPU lists and their splits (`CpuList`).

`Wrappers`, `Sets`, `Prefixes` and `Arithmetic` hold shared helpers. `dafny verify dfyconfig.toml`
checks the whole project.

## How to read the model

Code that updates objects is modelled by classes and methods, each proved against a
function of the old state; what the code is for is then proved about these functions over
all runs. The main results are `TraceRuns.OneNodeIsOneLru`, `TraceRuns.FourRatesOrdered`,
`CapacityMonotone.MonotoneInEachCapacity`, `TierShares.RunShares`,
`Simulator.SimulateCacheHitRate`, `RequestGroups.LifetimesMeaning`,
`PrefixCacheRuns.LoadsAreSound`, `DirectScheduler.DumpsAreOneRun`,
`AsyncDump.UCMDirectWorker.GetFinished`, `RankMarks.MarkedIffHistorySays`,
`HybridLookup.LookupExternalHitTokens`, `HybridSteps.RunsLoadOnlyPresent`,
`HybridSteps.DumpedOnce`, `RowPipelines.RunPass`, `SegmentRows.TensorsComeBack`,
`HybridLayout.RowTilesTensor`, `FawaPlan.RanksDumpOneRun`, `FawaPlan.TailsInsideIff`, `FawaPlan.PartIsRight`,
`FawaLayout.GroupBlocksApart` and `CpuList.PrintedListSplits`.

- Block ids of the simulator, request ids, tasks and device blocks are numbers;
  timestamps are reals. Nothing but equality and order is used of them.
- Hashes are free terms: two digests are equal exactly when the same thing was hashed by
  the same rank. A collision is outside the model.
- What the store, the device or the runtime answers (present keys, success, failure,
  not found, handles, task identities) is a parameter, so every statement holds for all
  answers. The node a record is served on is a given sequence, shared by all
  configurations.
- Some specifications count blocks by repeated subtraction (`Arithmetic.BlocksIn`,
  `Arithmetic.LastBoundary`); the methods compute with quotients and are proved equal.

## What the code does not promise

- `DirectScheduler.ResumePairsIffMatched`: when the match of a preempted request returns
  early (too few tokens, or no full block beyond those on the device), the bookkeeping from
  before the preemption stays, with the old block table. A resumed request's dumps then
  pair keys with blocks it no longer owns. The lemma gives the exact condition, the guard of
  the early return, and `EarlyReturnKeepsStaleTable` an instance. The runs of
  `PrefixCacheRuns` take every early return, but no loading step of a request whose
  bookkeeping still has old blocks (`TableIsFresh`).
- `CapacityMonotone.RepeatsBreakMonotonicity`: when a record repeats a block, a larger GPU
  cache can lose hits, for a block found there is not used again in DRAM.
- `HybridSteps.TableFollowsEngine`: new blocks that repeat the end of a table are taken
  for blocks already recorded; `RepeatedNullIsLost` is an instance with null placeholders.
- `FawaPlan.TailsInsideIff`: a window tail with more blocks than the first boundary leaves
  before its end indexes before the table (`LongTailWraps`), or selects too few blocks when
  only the last boundary's tail is asked for (`FinalTailsInsideIff`, `LongFinalTailIsEmpty`).
  Tails of at most one hash block are inside (`ShortTailsAreInside`).
- `HybridLayout.RowTilesTensor`: the component layouts accept a raw size that is not a
  multiple of the block count and then leave its last bytes to no block
  (`OddSizeLeavesAByte`).
- The documentation of the hybrid lookup says that prefetch keys start one boundary after
  the computed tokens (`ucm/integration/vllm/hla_connector.py:294-296`); the code starts at
  the first boundary of the request (lines 374-378), and the model follows the code.

## Model

| member | source | states |
|---|---|---|
| `Lru.LRUCache.Get` | benchmarks/auto_trace_analysis.py:153-157 | a lookup returns the producer stored for the key and moves that slot, and only it, to the newest end; a miss changes nothing |
| `Lru.LRUCache.Put` | benchmarks/auto_trace_analysis.py:159-168 | a write makes the key the newest slot and evicts only the oldest slots beyond the capacity; capacity 0 stores nothing |
| `Lru.InsertIsPush` | benchmarks/auto_trace_analysis.py:159-168 | a cache that shows the newest slots of an LRU stack still does after a write, for every capacity at once |
| `Lru.TouchIsPush` | benchmarks/auto_trace_analysis.py:153-157 | a hit acts on the cache exactly as writing the found slot again acts on the stack |
| `Lru.NewestMonotone` | benchmarks/auto_trace_analysis.py:145-168 | inclusion: a larger cache over the same stack holds every block of a smaller one |
| `Lru.PushAllSplits` | benchmarks/auto_trace_analysis.py:448-452 | after a record's writes the stack is the untouched slots of other blocks followed by the record's own, whatever was there of the latter |
| `Lru.WritesAbsorb` | benchmarks/auto_trace_analysis.py:448-452 | two stacks that differ only in a record's own blocks are equal after its writes |
| `Tiers.WalkPushesOwnBlocks` | benchmarks/auto_trace_analysis.py:420-442 | every effect of a record's lookups and promotions on a tier is a re-use of that record's own blocks |
| `Tiers.WriteSettles` | benchmarks/auto_trace_analysis.py:420-452 | lookup irrelevance: after a record each tier shows the newest slots of the stack of writes to it, independent of what was hit, promoted or evicted in the middle of the record |
| `Tiers.WalkWithin` | benchmarks/auto_trace_analysis.py:420-442 | no lookup hits a block outside the initial contents of the three tiers |
| `Tiers.WalkFindsFs` | benchmarks/auto_trace_analysis.py:434-442 | a prefix held by the FS tier is hit in full in spite of promotions |
| `Tiers.WalkFindsOwn` | benchmarks/auto_trace_analysis.py:420-432 | a prefix held by a node's own two tiers is hit in full, although promotions evict blocks on the way |
| `Tiers.SettledHits` | benchmarks/auto_trace_analysis.py:420-442 | between records the hit prefix lies between what the larger own tier or the FS tier holds and what both hold together |
| `Tiers.SingleStackHits` | benchmarks/auto_trace_analysis.py:407-452 | with one node a record hits exactly the longest prefix inside one LRU cache of the largest of the three capacities |
| `TraceRuns.WeightsAreFair` | benchmarks/auto_trace_analysis.py:350-356 | the block weights of a record add up to its input length and any two differ by at most one |
| `TraceRuns.RecordTokensConserved` | benchmarks/auto_trace_analysis.py:420-442 | the tier hits and the misses of one record add up to its input length, also for records without blocks |
| `TraceRuns.TokensConserved` | benchmarks/auto_trace_analysis.py:407-461 | on every trace GPU, DRAM, FS and missed tokens add up to all tokens |
| `TraceRuns.StackNamesLatestWriter` | benchmarks/auto_trace_analysis.py:448-452 | the stack holds exactly the blocks written so far, each with the latest record that wrote it |
| `TraceRuns.TiersShowNewestWrites` | benchmarks/auto_trace_analysis.py:407-452 | the stack lemma over whole traces: between records every tier of every node is the newest capacity-many blocks of the writes made to it |
| `TraceRuns.HitsFromStacks` | benchmarks/auto_trace_analysis.py:420-442 | a record's hits depend only on what earlier records wrote |
| `TraceRuns.HitsNameEarlierWriters` | benchmarks/auto_trace_analysis.py:420-442 | the hits of a record are a prefix of its blocks, and each names an earlier record that wrote that very block |
| `TraceRuns.MoreHitsMoreTokens` | benchmarks/auto_trace_analysis.py:420-442 | if no record of a trace hits a shorter prefix under other capacities, the total hit tokens are no fewer |
| `TraceRuns.SharedFits` | benchmarks/auto_trace_analysis.py:471-472 | the stack of all writes never outgrows the number of distinct blocks of the trace |
| `TraceRuns.OneNodeIsOneLru` | benchmarks/auto_trace_analysis.py:382-464 | with one node the three tiers hit, token for token, what one LRU cache of the largest capacity hits, on every trace |
| `TraceRuns.OneNodeMonotone` | benchmarks/auto_trace_analysis.py:382-464 | with one node total hit tokens never shrink when the largest capacity grows, and depend on nothing else |
| `TraceRuns.FourRatesOrdered` | benchmarks/auto_trace_analysis.py:531-562 | for every trace, node count and shared node assignment: HBM <= HBM+DRAM <= HBM+DRAM+FS <= theoretical maximum |
| `TierShares.StepHits` | benchmarks/auto_trace_analysis.py:420-442 | one lookup hits in the first tier, from GPU to FS, that holds the block, and misses when none does |
| `TierShares.RecordShares` | benchmarks/auto_trace_analysis.py:420-442 | each hit counter of a record is the weights of exactly the blocks that its tier held when they were looked up, with no tier above holding them and no block before them missed |
| `TierShares.RunShares` | benchmarks/auto_trace_analysis.py:407-461 | the same over every trace: the GPU, DRAM and FS counters are what these tiers provided, record by record |
| `TierShares.EmptyTierGetsNothing` | benchmarks/auto_trace_analysis.py:407-461 | on every trace a tier of capacity 0 is credited with no tokens |
| `CapacityMonotone.HitPushes` | benchmarks/auto_trace_analysis.py:420-442 | a hit re-uses the block in the GPU tier, and in the DRAM tier too unless the GPU tier held it; the FS tier keeps its blocks |
| `CapacityMonotone.MoreRoomMoreHits` | benchmarks/auto_trace_analysis.py:420-442 | between records, larger tiers never hit a shorter prefix of a record, provided that the GPU tiers are equal or the record repeats no block |
| `CapacityMonotone.MonotoneInEachCapacity` | benchmarks/auto_trace_analysis.py:382-464 | for any number of nodes and any assignment, total hit tokens grow with the DRAM and FS capacities on every trace, and with the GPU capacity too on every trace in which no record repeats a block |
| `CapacityMonotone.RepeatsBreakMonotonicity` | benchmarks/auto_trace_analysis.py:382-464 | an instance: on a trace whose last record repeats blocks, two blocks of GPU cache give fewer hits and hit tokens than one |
| `RequestGroups.RequestGroups.Add` | benchmarks/auto_trace_analysis.py:97-102 | a new request becomes a class of its own and changes no other class |
| `RequestGroups.RequestGroups.Find` | benchmarks/auto_trace_analysis.py:104-108 | returns the name of the request's class, terminates, and compresses the path without changing any class |
| `RequestGroups.RequestGroups.UnionRoots` | benchmarks/auto_trace_analysis.py:110-127 | exactly the given classes become one, named by a member class with the earliest start; an empty request is refused |
| `RequestGroups.RequestGroups.RecordHit` | benchmarks/auto_trace_analysis.py:129-134 | the hit is added to the history of hits and changes no class |
| `RequestGroups.RequestGroups.LifetimeList` | benchmarks/auto_trace_analysis.py:136-142 | lists, once for every class that has a hit and in the order of their names, the time of its last hit minus its earliest start |
| `RequestGroups.SameClassIffConnected` | benchmarks/auto_trace_analysis.py:91-142 | two requests are in one class exactly when recorded unions connect them |
| `RequestGroups.PartitionMerge` | benchmarks/auto_trace_analysis.py:110-127 | relabelling the merged classes yields the partition into connected components of the unions with the new one |
| `RequestGroups.EarliestIsRootStart` | benchmarks/auto_trace_analysis.py:114-118 | a root's own start is the earliest start of its class |
| `RequestGroups.LatestHitMerge` | benchmarks/auto_trace_analysis.py:119-126 | merging classes gives the later of their latest hits and leaves other classes alone |
| `RequestGroups.LatestHitIsMaximum` | benchmarks/auto_trace_analysis.py:119-134 | the time kept for a class is that of one of its hits, and none of its hits is later; there is none exactly when the class has no hit |
| `RequestGroups.EarliestStartIsMinimum` | benchmarks/auto_trace_analysis.py:114-118 | the start of a class is that of one of its requests, and none of them starts earlier |
| `RequestGroups.LifetimesMeaning` | benchmarks/auto_trace_analysis.py:136-142 | every lifetime reported is that of one class with a hit, from its first start to its last hit |
| `RequestGroups.LifetimesNonNegative` | benchmarks/auto_trace_analysis.py:136-142 | no lifetime is negative as long as hits do not precede the start of their class |
| `RequestGroups.HeightToRoot` | benchmarks/auto_trace_analysis.py:104-108 | parents lead strictly upward to the class name, so the forest stays acyclic |
| `Simulator.LookUp` | benchmarks/auto_trace_analysis.py:420-442 | one block's lookup over the three cache objects equals the abstract tier step, promotions included |
| `Simulator.WriteThrough` | benchmarks/auto_trace_analysis.py:448-452 | writes every block of a record to all three cache objects in order |
| `Simulator.CountHits` | benchmarks/auto_trace_analysis.py:420-442 | the counters and the collected groups of one record equal those of its abstract walk; `TierShares.RecordShares` says what these counters are |
| `Simulator.GroupRequest` | benchmarks/auto_trace_analysis.py:444-446 | a record that hit is grouped with the producers of its hits and credited with the hit |
| `Simulator.ServeRecord` | benchmarks/auto_trace_analysis.py:407-452 | one record's effect on caches, groups and counters |
| `Simulator.RunRecords` | benchmarks/auto_trace_analysis.py:407-452 | the loop over all records keeps caches and groups equal to their abstract histories |
| `Simulator.RunHitsMeaning` | benchmarks/auto_trace_analysis.py:444-446 | exactly the records that hit are credited with a hit, each at its own time |
| `Simulator.RunUnionsMeaning` | benchmarks/auto_trace_analysis.py:444-446 | exactly the records that hit are grouped, each with the producers of all its hits |
| `Simulator.RateIsShare` | benchmarks/auto_trace_analysis.py:359-360 | the rate times the whole is the part, lies between 0 and 1, and is 0 of nothing |
| `Simulator.SimulateCacheHitRate` | benchmarks/auto_trace_analysis.py:382-464 | refuses bad node counts and capacities; otherwise reports the tokens each tier provided, misses that make up the rest, the rate as their share, and one non-negative lifetime, last hit minus first start, for each group that the hits connect |
| `HashChain.GenerateHash` | ucm/integration/vllm/ucm_connector.py:1108-1126 | the loop hashes exactly the full blocks, each chained to the id before it |
| `HashChain.TokensOfBlockId` | ucm/integration/vllm/ucm_connector.py:1108-1126 | a block id stands for all tokens up to the end of its block |
| `HashChain.SharedIdIffSharedPrefix` | ucm/integration/vllm/ucm_connector.py:1108-1126 | two requests share a block id exactly when index and all tokens up to the end of that block agree |
| `HashChain.RankKeysApart` | ucm/integration/vllm/ucm_connector.py:1541-1545 | two ranks use the same store key exactly for the same id, and only under MLA |
| `DirectScheduler.UCMDirectConnector.GetNumNewMatchedTokens` | ucm/integration/vllm/ucm_connector.py:1272-1374 | records the match of a request and returns the external tokens promised, or leaves the bookkeeping alone on the early returns; `DirectScheduler.MatchIsLongest` says what these are |
| `DirectScheduler.UCMDirectConnector.LookupOnPrefix` | ucm/integration/vllm/ucm_connector.py:1306-1316 | the number of leading keys the store holds |
| `DirectScheduler.UCMDirectConnector.GenerateDispatchMeta` | ucm/integration/vllm/ucm_connector.py:1381-1435 | plans the load and the dump of one step and advances the request's bookkeeping |
| `DirectScheduler.MatchIsLongest` | ucm/integration/vllm/ucm_connector.py:1343-1372 | a match is the longest stored extension of the computed prefix and stops only at a missing key; the promise is the largest that lies on what was hit and leaves the tokens to be recomputed, 0 if there is none |
| `DirectScheduler.DispatchLoadsHit` | ucm/integration/vllm/ucm_connector.py:1399-1430 | a step asked to load pairs every key of the hit with the new block of equal index; new blocks always join the table, and past the last token nothing is dumped |
| `DirectScheduler.DispatchDumpsWindow` | ucm/integration/vllm/ucm_connector.py:1415-1430 | one step dumps exactly the blocks it completes, each with the device block of equal index, also when it overshoots the prompt |
| `DirectScheduler.DumpsAreOneRun` | ucm/integration/vllm/ucm_connector.py:1415-1430 | schedule independence: over any chunking the dumps join to one contiguous run without gap or repetition, each id paired with the block of equal index |
| `DirectScheduler.ResumePairsIffTableFresh` | ucm/integration/vllm/ucm_connector.py:1403-1430 | a resumed request's dumps pair with its new block table, for all tables and steps, exactly when its bookkeeping keeps no old blocks |
| `DirectScheduler.ResumePairsIffMatched` | ucm/integration/vllm/ucm_connector.py:1272-1310 | a preempted request that is matched again has its dumps paired with its new table, for all tables and steps, exactly when the match does not return early: the request reaches the threshold and has a full block beyond those on the device |
| `DirectScheduler.EarlyReturnKeepsStaleTable` | ucm/integration/vllm/ucm_connector.py:1272-1310 | an instance of the early return: five tokens in blocks of two, one processed into block 7 before the preemption, four on the device on resuming; the step for the last token dumps the first block from block 7 |
| `PrefixCacheRuns.LoadGivesOwnPrefix` | ucm/integration/vllm/ucm_connector.py:1407-1413 | a load puts the KV of the request's own prefix into each block it fills |
| `PrefixCacheRuns.ScheduledKeepsInv` | ucm/integration/vllm/ucm_connector.py:1381-1435 | scheduling and loading keep stored pages, valid prefixes and queued dumps right |
| `PrefixCacheRuns.ComputedKeepsInv` | ucm/integration/vllm/ucm_connector.py:1704-1790 | a finished forward pass queues only dumps whose blocks are complete and right |
| `PrefixCacheRuns.RunsKeepInv` | ucm/integration/vllm/ucm_connector.py:1272-1435 | the invariant holds in every state of every run from an empty store, under any interleaving of matching with its early returns, scheduling, computing, dumping, pages from other ranks, eviction and release |
| `PrefixCacheRuns.LoadsAreSound` | ucm/integration/vllm/ucm_connector.py:1381-1435 | prefix-cache soundness on every rank: after every loading step of every run, every token of the hit has the KV computed from that request's own prefix |
| `PrefixCacheRuns.StoreIsSound` | ucm/integration/vllm/ucm_connector.py:1704-1790 | in every run the store holds under each of the rank's keys only the KV that the key's own tokens stand for |
| `PrefixCacheRuns.RanksDumpApart` | ucm/integration/vllm/ucm_connector.py:1718-1750 | no two ranks dump the same key |
| `PrefixCacheRuns.DumpsAll` | ucm/integration/vllm/ucm_connector.py:1718-1750 | a rank dumps all blocks of its plan under keys that stand for the same tokens, or nothing under MLA when it is not rank 0 |
| `RankMarks.RankConsistencyTracker.AddMark` | ucm/integration/vllm/rank_consistency.py:54-61 | adds one mark; only a full set loses one for it |
| `RankMarks.RankConsistencyTracker.MarkMissing` | ucm/integration/vllm/rank_consistency.py:51-69 | all blocks are marked exactly when the cap is not passed; otherwise a full set of old or reported marks is kept |
| `RankMarks.RankConsistencyTracker.ClearDumped` | ucm/integration/vllm/rank_consistency.py:71-74 | removes exactly the given marks and counts those removed |
| `RankMarks.RankConsistencyTracker.ValidPrefix` | ucm/integration/vllm/rank_consistency.py:82-86 | the longest unmarked prefix |
| `RankMarks.UCMWorkerMetadata.Aggregate` | ucm/integration/vllm/ucm_connector.py:914-929 | joins another rank's report: misses by union, dump successes by union for MLA and intersection otherwise |
| `RankMarks.AggregateRanks` | ucm/integration/vllm/ucm_connector.py:914-929 | aggregating any ranks in place yields the fold of their reports |
| `RankMarks.FoldedMeaning` | ucm/integration/vllm/ucm_connector.py:914-929 | after aggregation a block is missing iff some rank missed it, and dumped iff all ranks (any rank for MLA) dumped it |
| `RankMarks.FoldedRequests` | ucm/integration/vllm/ucm_connector.py:914-929 | after aggregation a request counts as load-failed, or as missing, exactly when some rank says so |
| `RankMarks.FoldOrderIrrelevant` | ucm/integration/vllm/ucm_connector.py:914-929 | the order in which ranks are aggregated does not matter to any part of the report: load-failed and missing requests, missing blocks, dumped blocks |
| `RankMarks.MarkedIffHistorySays` | ucm/integration/vllm/rank_consistency.py:248-254 | a block is marked exactly when some step reported it missing on some rank and no later step reported its dump |
| `RankMarks.SchedulerMarks.ApplyWorkerMeta` | ucm/integration/vllm/rank_consistency.py:248-265 | applying a step's report appends it to the history; below the cap the tracker stays equal to the marks of that history |
| `RankMarks.SchedulerMarks.LookupOnPrefix` | ucm/integration/vllm/rank_consistency.py:115-123 | one less than the length of the longest prefix that is stored and unmarked |
| `RankMarks.SchedulerMarks.LookupAll` | ucm/integration/vllm/rank_consistency.py:125-133 | an exact lookup answers true precisely for stored, unmarked keys |
| `RankMarks.PrefixLookup` | ucm/integration/vllm/rank_consistency.py:115-123 | cutting the keys at the first mark before asking the store gives the longest prefix both stored and unmarked |
| `DumpManager.RankConsistencyManager.SubmitLoad` | ucm/integration/vllm/rank_consistency.py:135-159 | remembers an accepted load; a not-found refusal marks all its requests and blocks as missing, any other refusal none |
| `DumpManager.RankConsistencyManager.WaitLoad` | ucm/integration/vllm/rank_consistency.py:161-172 | forgets the task whatever happens, refuses unknown tasks, and marks blocks missing only on not-found |
| `DumpManager.RankConsistencyManager.SubmitDump` | ucm/integration/vllm/rank_consistency.py:174-202 | every submission is one attempt: in flight when accepted, lost when refused |
| `DumpManager.RankConsistencyManager.WaitDump` | ucm/integration/vllm/rank_consistency.py:204-214 | settles exactly the attempt of that task and drops its context; unknown tasks are refused |
| `DumpManager.RankConsistencyManager.FinishDump` | ucm/integration/vllm/rank_consistency.py:216-235 | fails exactly when one of the requests has a dump in flight; otherwise reports exactly the blocks no failed attempt covered and forgets these requests |
| `DumpManager.RankConsistencyManager.UpdateWorkerMeta` | ucm/integration/vllm/rank_consistency.py:237-246 | hands over all collected events once |
| `DumpManager.SettleAttempt` | ucm/integration/vllm/rank_consistency.py:204-214 | settling an attempt changes only whether its own blocks are lost |
| `DumpManager.ReportedMeaning` | ucm/integration/vllm/rank_consistency.py:230-235 | what is collected for a request is what some attempt covered, and what is lost is what some lost attempt covered |
| `DumpManager.ReportedIffNeverLost` | ucm/integration/vllm/rank_consistency.py:216-235 | a block is reported for finished requests exactly when one of them dumped it and none of that request's dumps covering it was lost |
| `AsyncDump.Device.GetEventHandle` | ucm/integration/vllm/device.py:105-115 | a recorded event becomes outstanding; a failed recording leaves nothing |
| `AsyncDump.Device.DestroyEventHandle` | ucm/integration/vllm/device.py:123-124 | releases one event |
| `AsyncDump.UCMDirectWorker.WaitPendingDumpTask` | ucm/integration/vllm/ucm_connector.py:1624-1649 | whatever the outcome, the task's context and its event are released together and everything else in flight stays |
| `AsyncDump.UCMDirectWorker.PollPendingDumpTasks` | ucm/integration/vllm/ucm_connector.py:1651-1672 | afterwards exactly the tasks not reported finished are pending, those whose check raised included, in their order; pending list and contexts stay equal |
| `AsyncDump.UCMDirectWorker.FlushPendingDumpTasks` | ucm/integration/vllm/ucm_connector.py:1674-1690 | afterwards exactly the tasks that share no request with the given ones are pending, in their order, so none of these requests has a dump in flight |
| `AsyncDump.UCMDirectWorker.HandlePreemptions` | ucm/integration/vllm/ucm_connector.py:1692-1702 | a preempted request has no dump in flight afterwards |
| `AsyncDump.UCMDirectWorker.GetDumpEventHandle` | ucm/integration/vllm/ucm_connector.py:1605-1613 | hands out a fresh event, or none when events are off or cannot be had |
| `AsyncDump.UCMDirectWorker.WaitForSave` | ucm/integration/vllm/ucm_connector.py:1704-1790 | polls, and queues one task for the step's dumps when the store accepts it: its requests are those with a real block to dump and its context has exactly their real keys; on every failure the event is released again; requests with dumps are awaited from now on, also those whose blocks are all null |
| `AsyncDump.UCMDirectWorker.GetFinished` | ucm/integration/vllm/ucm_connector.py:1869-1892 | never meets a dump still pending: it always succeeds, returns the finished requests that dumped, and none of the finished requests has a dump in flight |
| `AsyncDump.KeptMeaning` | ucm/integration/vllm/ucm_connector.py:1651-1690 | the kept list has exactly the tasks to keep |
| `AsyncDump.TrackedRemove` | ucm/integration/vllm/ucm_connector.py:1624-1640 | removing a task with its context keeps the pending list and the manager's contexts in agreement |
| `AsyncDump.HeldRemove` | ucm/integration/vllm/ucm_connector.py:1642-1649 | a task's event is outstanding until that moment and is the only one released, so each is released once |
| `AsyncDump.HandedBackIffDelayed` | ucm/integration/vllm/ucm_connector.py:1502-1510 | over any orderly run, in which a step is planned by the scheduler, saved by the worker and collected in separate moves and requests finish at any time, the worker hands back exactly the finished requests whose blocks the scheduler kept back |
| `NullBlocks.DropNullBlocks` | ucm/integration/vllm/ucm_connector.py:94-117 | the loop keeps the pairs of two lists whose block is real, and leaves the lists alone when one is empty |
| `NullBlocks.RealPairsMeaning` | ucm/integration/vllm/ucm_connector.py:94-117 | the kept pairs are exactly the pairs with a real block |
| `HybridLookup.GroupReach` | ucm/integration/vllm/hla_connector.py:307-327 | one group's prefix lookup decides which aligned extensions have all their blocks stored |
| `HybridLookup.FirstStage` | ucm/integration/vllm/hla_connector.py:307-335 | stage 1 finds the extension up to which every full-attention group has all blocks, and beyond which some group lacks one; a failed lookup allows none |
| `HybridLookup.StateHashDefined` | ucm/integration/vllm/hla_connector.py:232-261 | inside the stage 1 extension no state key is ever missing |
| `HybridLookup.BoundaryAnswer` | ucm/integration/vllm/hla_connector.py:349-366 | one lookup of all state keys at a boundary answers whether every state group has its state there |
| `HybridLookup.SecondStage` | ucm/integration/vllm/hla_connector.py:347-370 | the backward scan stops at the latest boundary with all states |
| `HybridLookup.LookupExternalHitTokens` | ucm/integration/vllm/hla_connector.py:263-390 | returns the largest aligned extension with every block of every full-attention group and every state at its end in the store, 0 if there is none; a failing lookup of a full-attention group gives 0 |
| `HybridLookup.PrefetchMeaning` | ucm/integration/vllm/hla_connector.py:372-384 | exactly the state keys of the boundaries up to the end of the hit are prefetched |
| `HybridDispatch.ComputeAllGroupBlockIds` | ucm/integration/vllm/hla_connector.py:207-230 | the ids of every group, hashed with its own seed; state groups get blanks |
| `HybridDispatch.GroupKeysMeaning` | ucm/integration/vllm/hla_connector.py:207-226 | a full-attention key stands for one group, one index and one token prefix |
| `HybridDispatch.StateKeysMeanBoundaries` | ucm/integration/vllm/hla_connector.py:232-261 | a state key stands for one group, one boundary and the tokens up to it |
| `HybridDispatch.CutLookup` | ucm/integration/vllm/hla_connector.py:942-958 | looking up lists cut before the tokens to recompute finds exactly the hits of the full lists that leave those tokens |
| `HybridDispatch.ExternalHit` | ucm/integration/vllm/hla_connector.py:942-970 | the hit in common-multiple blocks is the longest resumable one that leaves the tokens to recompute |
| `HybridDispatch.MatchRequest` | ucm/integration/vllm/hla_connector.py:912-1033 | a request is tracked iff it reaches the persistence threshold; its hit is resumable, the longest such, and leaves the tokens to recompute |
| `HybridSteps.TableFollowsEngine` | ucm/integration/vllm/hla_connector.py:1070-1081 | a full update replaces the table; after the allocation hook an update keeps the engine's table; without it, it appends the new blocks exactly when they do not repeat the end of the table, and is lost otherwise |
| `HybridSteps.RepeatedNullIsLost` | ucm/integration/vllm/hla_connector.py:1077-1081 | a second null placeholder in a row is dropped |
| `HybridSteps.ExtendNonNull` | ucm/integration/vllm/hla_connector.py:103-114 | appends the pairs of two lists in order, without null blocks |
| `HybridSteps.FindRunning` | ucm/integration/vllm/hla_connector.py:1098-1104 | finds the last block that is not null |
| `HybridSteps.AppendState` | ucm/integration/vllm/hla_connector.py:1088-1130 | appends one state with its block, or nothing when block or key is missing |
| `HybridSteps.WindowMeaning` | ucm/integration/vllm/hla_connector.py:1148-1161 | a window has exactly the pairs of equal index whose block is real |
| `HybridSteps.HybridConnector.GetNumNewMatchedTokens` | ucm/integration/vllm/hla_connector.py:912-1033 | stores the match of a request; a request below the threshold keeps what was stored before |
| `HybridSteps.HybridConnector.PlanLoad` | ucm/integration/vllm/hla_connector.py:1137-1161 | the loads of all groups in order |
| `HybridSteps.HybridConnector.PlanDump` | ucm/integration/vllm/hla_connector.py:1163-1197 | the dumps of all groups in order |
| `HybridSteps.HybridConnector.GenerateDispatchMeta` | ucm/integration/vllm/hla_connector.py:1050-1203 | one step's loads and dumps, and the request's new tables and progress |
| `HybridSteps.StepLoadMeaning` | ucm/integration/vllm/hla_connector.py:1132-1161 | a step loads only when asked to and hit, and then what its groups load with the updated tables |
| `HybridSteps.StepDumpMeaning` | ucm/integration/vllm/hla_connector.py:1163-1198 | a step dumps what its groups dump with the updated tables, up to the end of the prompt |
| `HybridSteps.LoadsArePresent` | ucm/integration/vllm/hla_connector.py:1132-1161 | every key a step loads was in the store when looked up, and goes into a real block |
| `HybridSteps.RunsLoadOnlyPresent` | ucm/integration/vllm/hla_connector.py:1132-1161 | the same in every run, whatever steps and table changes came before |
| `HybridSteps.BlocksAreLoaded` | ucm/integration/vllm/hla_connector.py:1148-1161 | every block of the hit is loaded into the real block of its index |
| `HybridSteps.StatesAreLoaded` | ucm/integration/vllm/hla_connector.py:1138-1147 | the state at the end of the hit is loaded into the last real block of its group |
| `HybridSteps.DumpPlanMeaning` | ucm/integration/vllm/hla_connector.py:1171-1198 | a step dumps exactly what its groups dump |
| `HybridSteps.BlocksAreOneRun` | ucm/integration/vllm/hla_connector.py:1163-1198 | over any chunking a full-attention group's dumps are one run of its keys, each with the block of equal index, up to the prompt's end |
| `HybridSteps.StateDumpedAtEnd` | ucm/integration/vllm/hla_connector.py:1182-1197 | a step dumps a state iff it ends on a boundary past its start whose block and key exist, and then the state of that very end |
| `HybridSteps.StatesAreIncreasing` | ucm/integration/vllm/hla_connector.py:1182-1197 | the states a schedule dumps lie at strictly growing boundaries inside the part computed |
| `HybridSteps.DumpedOnce` | ucm/integration/vllm/hla_connector.py:1163-1198 | no schedule dumps a key of a request twice, within one group or across groups |
| `HybridSteps.ScheduleIsItsGroups` | ucm/integration/vllm/hla_connector.py:1163-1198 | over any schedule the steps together dump exactly what the groups dump, each pair as often |
| `HybridSteps.GroupsShareNoKey` | ucm/integration/vllm/hla_connector.py:207-261 | no key belongs to two groups of a request, be it a block or a state |
| `RowPipelines.LoadPipeline.MarkLoadFailed` | ucm/integration/vllm/hla_connector.py:1521-1530 | a failed request is recorded and its blocks are reported invalid |
| `RowPipelines.LoadPipeline.SubmitRow` | ucm/integration/vllm/hla_connector.py:1532-1564 | exactly the requests that had not failed and are not refused get a load for the row; exactly the refused ones are marked failed |
| `RowPipelines.LoadPipeline.SubmitRowOnce` | ucm/integration/vllm/hla_connector.py:1566-1573 | a row submitted before is not submitted again |
| `RowPipelines.LoadPipeline.WaitRow` | ucm/integration/vllm/hla_connector.py:1575-1587 | all loads of the row are waited for and gone; exactly those that fail mark their requests |
| `RowPipelines.LoadPipeline.StartLoad` | ucm/integration/vllm/hla_connector.py:1589-1627 | starts a pass for exactly the requests with something to load, in order, each with row 0 loaded and at most one row more than the prefetch depth in flight |
| `RowPipelines.LoadPipeline.WaitForLayerLoad` | ucm/integration/vllm/hla_connector.py:1629-1653 | the hook of the newest loaded row loads the next one and tops up the prefetch; visited again, or at the last row, it changes nothing |
| `RowPipelines.TracksSubmission` | ucm/integration/vllm/hla_connector.py:1532-1564 | a submission adds one load in flight and never repeats one |
| `RowPipelines.TracksWait` | ucm/integration/vllm/hla_connector.py:1575-1587 | a wait moves one load from in flight to waited, once |
| `RowPipelines.RunPass` | ucm/integration/vllm/hla_connector.py:1589-1653 | a whole pass, for any rows, prefetch depth, failures and in-order visits with repeats: it serves exactly the requests with something to load; before each row's hook every request has that row's load waited for or is marked failed; at most prefetch + 1 rows are ever in flight; no load is submitted or waited for twice; in the end none is in flight, every submitted load was waited for, exactly the requests with a refused or lost load have failed, and their blocks are invalid |
| `RowPipelines.LoadPipeline.RequestsToLoad` | ucm/integration/vllm/hla_connector.py:1601-1620 | the requests that have a block to load, after null blocks are dropped where that is asked for |
| `VectoredCopy.CopySlots` | ucm/shared/trans/stream.h:52-66 | copies the real slots in order to or from their place in the packed host block, ghosts still taking their place; the first refused copy stops it, with exactly the copies before it made |
| `VectoredCopy.CopyVectors` | ucm/shared/trans/stream.h:67-78 | copies every vector with its own host block; a length mismatch is refused with nothing copied, and a refused copy stops everything with exactly the copies before it made |
| `VectoredCopy.RoundTrip` | ucm/shared/trans/stream.h:52-93 | gathering bytes and scattering them by mirrored copies brings every byte back and changes no other |
| `VectoredCopy.VectorTargetsApart` | ucm/shared/trans/stream.h:80-93 | the places of slots in host blocks never overlap |
| `VectoredCopy.VectorsPaired` | ucm/shared/trans/stream.h:52-93 | the copies of both directions serve the same slot of the same block, pair by pair |
| `VectoredCopy.SlotsComeBack` | ucm/shared/trans/stream.h:52-93 | after dump and load every real slot of a target block has the bytes of that slot of its source block |
| `VectoredCopy.PackedInHost` | ucm/shared/trans/stream.h:52-78 | after a dump every real slot lies in its host block behind the sizes of all earlier slots, ghosts included |
| `VectoredCopy.OthersKept` | ucm/shared/trans/stream.h:52-66 | a load changes no device byte outside the real slots |
| `SegmentRows.BuildSegmentRow` | ucm/integration/vllm/ucm_connector.py:533-619 | one layer's row in each of the modes; refused exactly when a plain indexer cannot be cut in two |
| `SegmentRows.PartsInOrder` | ucm/integration/vllm/ucm_connector.py:533-619 | a row has the attention tensors first, then the indexer's data, halved in order where it is split, and its scale last |
| `SegmentRows.BuffersRegisteredOnce` | ucm/integration/vllm/ucm_connector.py:533-619 | every tensor's whole buffer is registered by the segment at its start, and by no other |
| `SegmentRows.ValidateUniform` | ucm/integration/vllm/ucm_connector.py:458-467 | accepts exactly nonempty lists of equal sizes |
| `SegmentRows.ChooseMode` | ucm/integration/vllm/ucm_connector.py:785-831 | the mode follows from which indexers exist, and the slot sizes are those all their tensors share, if they share them |
| `SegmentRows.BuildAscendLayout` | ucm/integration/vllm/ucm_connector.py:739-840 | accepts exactly the tensor lists whose sizes agree, and then yields one row per layer |
| `SegmentRows.LayerKeepsTensors` | ucm/integration/vllm/ucm_connector.py:763-783 | a layer keeps the tensors of its row in order, the first ones as attention tensors |
| `SegmentRows.RowsCopyTheSameSizes` | ucm/integration/vllm/ucm_connector.py:533-619 | all rows of a layout have one slot-size vector, whatever tensors their layers lack |
| `SegmentRows.GhostsStayNull` | ucm/integration/vllm/ucm_connector.py:350-373 | a segment has the null address in a block exactly when it is a ghost, for every block |
| `SegmentRows.PartsCover` | ucm/integration/vllm/ucm_connector.py:533-619 | every byte of a tensor's block lies in some segment, also when a tensor is cut in two |
| `SegmentRows.SegmentsApart` | ucm/integration/vllm/ucm_connector.py:350-373 | real segments of one or of different blocks never overlap |
| `SegmentRows.TensorsComeBack` | ucm/integration/vllm/ucm_connector.py:350-373 | dumping block b and loading into block b' makes block b' of every tensor of the layer equal to block b, for all row shapes and many blocks at once |
| `SegmentRows.OtherBytesKept` | ucm/integration/vllm/ucm_connector.py:350-373 | and changes no other device byte |
| `HybridLayout.ContiguousPages` | ucm/integration/vllm/hla_connector.py:542-561 | one component with a page per block; refused unless the blocks divide the raw size |
| `HybridLayout.ComponentMajor` | ucm/integration/vllm/hla_connector.py:563-618 | three stacked components that hold the state and the attention tensors; accepted exactly when the tail has room, or for whole pages when the blocks divide the size |
| `HybridLayout.AttentionOnly` | ucm/integration/vllm/hla_connector.py:620-656 | padding, K and V stacked so that K starts at the view found; without room for padding the page is kept whole |
| `HybridLayout.BuildRow` | ucm/integration/vllm/hla_connector.py:658-726 | whichever layout is chosen, the row is a stack of components from the start of the raw tensor, whose sizes add up to one page |
| `HybridLayout.LocatedHere` | ucm/integration/vllm/hla_connector.py:482-517 | every byte of the pages has a component, block and offset with that address |
| `HybridLayout.DistanceLocates` | ucm/integration/vllm/hla_connector.py:482-517 | and the address of a component, block and offset leads back to them |
| `HybridLayout.RangesAreDisjoint` | ucm/integration/vllm/hla_connector.py:482-517 | no byte belongs to two blocks or two components |
| `HybridLayout.RowTilesTensor` | ucm/integration/vllm/hla_connector.py:542-656 | all ranges lie inside the raw tensor, which starts where the row does, and fill it exactly when its size is a multiple of the block count |
| `HybridLayout.OddSizeLeavesAByte` | ucm/integration/vllm/hla_connector.py:563-618 | an instance: seven bytes in two blocks are accepted, and their last byte belongs to no block |
| `FawaPlan.LookupExternalHitBlocks` | ucm/integration/vllm/hma_connector.py:836-858 | the longest full-attention prefix ending on a boundary the window store holds, 0 if none |
| `FawaPlan.GetNumNewMatchedTokens` | ucm/integration/vllm/hma_connector.py:863-926 | when a request is tracked, what hit it gets, what is promised, and that hits within the load threshold are not loaded; a fully stored request keeps one token to compute |
| `FawaPlan.PromiseIsLargest` | ucm/integration/vllm/hma_connector.py:897-925 | a hit over the threshold is promised as far as one token is left to compute |
| `FawaPlan.LoadsAreHeld` | ucm/integration/vllm/hma_connector.py:1006-1024 | every key loaded is in the full-attention store and the boundary of the load is in the window store |
| `FawaPlan.DumpsAreOneRun` | ucm/integration/vllm/hma_connector.py:1026-1051 | over any chunking the dumped keys are those after the hit up to the last whole block computed, each once and in order |
| `FawaPlan.RowsOfKeySlice` | ucm/integration/vllm/hma_connector.py:1356-1415 | a slice of a group's block rows, scaled by its tail, is exactly the rows of the same slice of keys |
| `FawaPlan.TailsInsideIff` | ucm/integration/vllm/hma_connector.py:950-961 | for all tables that cover their boundaries, a window's row holds the blocks that end at its boundary, exactly when the tail has no more blocks than the first boundary leaves before its end |
| `FawaPlan.ShortTailsAreInside` | ucm/integration/vllm/hma_connector.py:950-961 | a tail of at most one hash block meets that condition |
| `FawaPlan.LongTailWraps` | ucm/integration/vllm/hma_connector.py:950-961 | an instance of a longer tail: it reaches before the table and takes a block from its end |
| `FawaPlan.FinalTailsInsideIff` | ucm/integration/vllm/hma_connector.py:963-968 | for all tables that cover their boundaries, the last boundary's tail is the blocks that end there, exactly under the same condition |
| `FawaPlan.LongFinalTailIsEmpty` | ucm/integration/vllm/hma_connector.py:963-968 | an instance of a longer tail for which nothing at all is selected |
| `FawaPlan.FinalTailIsTailRow` | ucm/integration/vllm/hma_connector.py:963-968 | selecting only the last boundary's tail finds the same blocks as its row, wherever the tail does not reach before the table |
| `FawaPlan.FawaScheduler.GenerateDispatchMeta` | ucm/integration/vllm/hma_connector.py:975-1062 | one step's load and dump, the request's new tables and progress; in both, the entry of a key in a full-attention group is the block its last token is in, and a window's entries are the blocks that end there; a wrong number of groups is refused |
| `FawaPlan.PartIsRight` | ucm/integration/vllm/hma_connector.py:936-973 | every group of a part refers to the blocks its keys are in: for full attention block b of the table for key i iff b * T <= i * h + h - 1 < (b + 1) * T, for windows the tail that ends in that block, at every key or at the last one |
| `FawaPlan.ShareBounds` | ucm/integration/vllm/hma_connector.py:1364-1366 | the shares of ranks lie in order inside the keys and differ in length by at most one |
| `FawaPlan.ShareIsSlice` | ucm/integration/vllm/hma_connector.py:1364-1367 | the share of a rank is the slice of the keys between the two floor divisions |
| `FawaPlan.RankDumpsSubrange` | ucm/integration/vllm/hma_connector.py:1365-1415 | a rank dumps what a single rank would dump for that sub-range: same keys, same blocks, same hash indices |
| `FawaPlan.RanksDumpEveryKeyOnce` | ucm/integration/vllm/hma_connector.py:1364-1367 | the shares of all ranks, one after the other, are the whole key list |
| `FawaPlan.RanksDumpOneRun` | ucm/integration/vllm/hma_connector.py:1026-1051 | over any schedule and any number of ranks, all ranks together dump exactly the keys after the hit, each once |
| `FawaPlan.WaitForSave` | ucm/integration/vllm/hma_connector.py:1348-1460 | the keys one rank dumps for a batch of requests, in both window modes |
| `FawaPlan.RanksDumpBatchOnce` | ucm/integration/vllm/hma_connector.py:1356-1415 | for a batch of requests all ranks together dump every key exactly once to the full-attention store, and block by block to the window store |
| `FawaPlan.RanksDumpLastBoundariesOnce` | ucm/integration/vllm/hma_connector.py:1416-1427 | in the other mode the last boundary of each dumping request is dumped by exactly one rank |
| `FawaPlan.LastBoundariesInTurn` | ucm/integration/vllm/hma_connector.py:1416-1427 | and the last boundaries of the dumping requests go to the ranks in turn |
| `FawaLayout.RowsAreQuotients` | ucm/integration/vllm/hma_connector.py:236-246 | the rows before a token, counted by repeated subtraction, are the floor division of the source |
| `FawaLayout.RowsAdd` | ucm/integration/vllm/hma_connector.py:236-246 | rounding down never makes a segment end after the next one starts |
| `FawaLayout.SegmentInBlock` | ucm/integration/vllm/hma_connector.py:258-268 | a segment lies inside its physical block |
| `FawaLayout.HashBlockInside` | ucm/integration/vllm/hma_connector.py:970-973 | the block that contains the end of a hash block contains all of it, and its offset there is a multiple of the hash block |
| `FawaLayout.EntryHoldsTokens` | ucm/integration/vllm/hma_connector.py:970-973 | so the entry of a key in a full-attention row is the block of each of its tokens, which follow one another there |
| `FawaLayout.RequestBlocksApart` | ucm/integration/vllm/hma_connector.py:1193-1216 | two hash blocks of a request never share a byte of a view, in one physical block or in two, floor divisions included |
| `FawaLayout.GroupBlocksApart` | ucm/integration/vllm/hma_connector.py:1193-1216 | no two segments of a request in the views of a group share a byte, be they of one view or of two, as long as the blocks of different views do not overlap |
| `FawaLayout.RowsAreWhole` | ucm/integration/vllm/hma_connector.py:236-246 | consecutive hash blocks leave no row unused exactly when a hash block has a whole number of rows |
| `FawaLayout.ShortTailInBlock` | ucm/integration/vllm/hma_connector.py:1230-1238 | a short tail at the end of a larger block lies inside it |
| `CpuList.SortUniqueSorts` | ucm/integration/vllm/device.py:496-496 | sorting gives the same set in strictly increasing order |
| `CpuList.Compress` | ucm/integration/vllm/device.py:497-506 | the ranges are maximal and expand to exactly the sorted cores |
| `CpuList.ToCpuList` | ucm/integration/vllm/device.py:492-507 | prints nothing for no cores, and otherwise the maximal ranges of the sorted set |
| `CpuList.PrintedListIsRead` | ucm/integration/vllm/device.py:66-77 | reading a printed list, character by character, gives back its ranges and so its cores in order |
| `CpuList.ReversedIsRead` | ucm/integration/vllm/device.py:70-76 | a range given from high to low is read too |
| `CpuList.SignedIsRead` | ucm/integration/vllm/device.py:71-77 | a sign before a numeral counts |
| `CpuList.DashFirstIsUnreadable` | ucm/integration/vllm/device.py:70-71 | a part that starts with a dash is unreadable |
| `CpuList.UnderscoreIsSkipped` | ucm/integration/vllm/device.py:71-77 | a single underscore between digits changes nothing |
| `CpuList.ListIsReadIff` | ucm/integration/vllm/device.py:66-93 | a list is unreadable exactly when one of its parts that is not blank is |
| `CpuList.SplitCores` | ucm/integration/vllm/device.py:54-93 | every segment is split in two; a part that is no integer or range, signs and underscores included, gives nothing; an empty list falls back to the allowed cores |
| `CpuList.SplitIsPermutation` | ucm/integration/vllm/device.py:79-81 | worker and store together have every core of the list exactly once |
| `CpuList.PrintedListSplits` | ucm/integration/vllm/device.py:54-87 | for a printed set worker and store are disjoint, cover the set, and the worker has a core |
| `CpuList.PrintedRangesAreHalved` | ucm/integration/vllm/device.py:79-81 | and of every range the worker has the first half, at least one core |
| `CpuList.SliceForRank` | ucm/integration/vllm/device.py:525-534 | a rank's slice of the allowed cores; none for a rank that does not exist or has no core |
| `CpuList.SlicesShareAll` | ucm/integration/vllm/device.py:525-528 | the slices of all ranks make up the whole list, differ in length by at most one, and the longer ones come first |
| `CpuList.NumaNodes` | ucm/integration/vllm/device.py:447-459 | every known device gets the one memory node whose even share of the device list it is in |

## Left out

- HybridLookup.LookupExternalHitTokens: the common multiple is any common multiple of the block sizes; that it is the least one is not used.
- HybridLookup.LookupExternalHitTokens: which keys of other ranks are prefetched for heat is not modelled; the keys of the own rank are.
- PrefixCacheRuns.LoadsAreSound: covers runs whose loads complete; a failed load is not withheld from the same step's dump by the code, so no such claim holds there.
- PrefixCacheRuns.LoadsAreSound: assumes of the engine that tables have no block twice and that a block is written only while no live prefix or running dump claims it.
- PrefixCacheRuns.RunsKeepInv: leaves out loading steps of a request whose bookkeeping still has the blocks from before a preemption (`TableIsFresh`), for which it is false.
- RankMarks.RankConsistencyTracker.MarkMissing: which mark is evicted at the cap is arbitrary, so only the size and the origin of the marks are stated there.
- AsyncDump.UCMDirectWorker.WaitForSave: computing device addresses is one outcome (`addressed`), not a computation.
- RowPipelines.LoadPipeline.StartLoad: device addresses are left out; rows are numbered from 0 without gaps, as the code indexes them.
- VectoredCopy.CopyVectors: a copy is made when it is submitted; reordering on an asynchronous stream before synchronisation is not modelled.
- SegmentRows.BuildAscendLayout: the CUDA builder, which feeds the same rows in plain mode, is not modelled.
- HybridLayout.BuildRow: the pointers of views are given; how the engine places views inside a raw tensor is not modelled.
- CpuList.SplitCores: digits and blanks outside ASCII, which the interpreter would accept, count as unreadable.
- CapacityMonotone.MonotoneInEachCapacity: for a larger GPU cache it asks that no record repeats a block, without which it is false (`RepeatsBreakMonotonicity`); which repeats do harm is not characterised further.
- FawaLayout.GroupBlocksApart: that the blocks of different views do not overlap is a hypothesis; the engine's allocation of the tensors is not modelled.
- DirectScheduler.UCMDirectConnector.GenerateDispatchMeta: context parallelism is off (`cp_world_size` is 1), as for the connectors modelled.
- Request bookkeeping is a value in a map; sharing of one mutable record between callers is not modelled.
- Percentiles and averages of lifetimes, hit rates as floating-point numbers and all text output: only integer token counts and the list of lifetimes are modelled.
- Log and metrics parsing, argument handling, Prometheus export: input and output.
- Save and load hooks per layer of the non-hybrid layerwise connector, and deferred dumps of draft layers: the same pattern as the parts modelled.
- Cache blend, the C++ stores, other engine adapters, configuration and factories: outside the modelled core.
- Topology queries behind CPU affinity: their answers are parameters.
