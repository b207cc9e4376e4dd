# Feilong FCP store, allocators and SMT helpers: a Dafny model

This project models the hardest logic of the z/VM management SDK and proves what it promises.

The main part is the Fibre Channel (FCP) device store, `FCPDbOperator`: four SQL tables (devices,
multipath templates, provider defaults, template-to-device mapping), the operations that change them, and
two allocators that pick one free device per path.

- `FcpTables`, `AllocationSpec`: the tables as maps, and what an allocation is supposed to be: feasible
  (a free PCHID on each chosen path, within every PCHID's capacity) and optimal (most paths, then the greatest
  weight, then the most distinct PCHIDs).
- `Combinatorics`, `Allocator`: `get_fcp_devices`, the search over path subsets and PCHID products.
- `SameIndex`, `SameIndexLimits`, `Comparison`: `get_fcp_devices_with_same_index`, prefix-sum indexing into one sorted
  list, the exact limits of what it promises, and how the two allocators relate.
- `StoreSpec`, `Columns`, `FcpStore`, `StoreRuns`: the operations on the tables as an imperative class with rollback,
  proved against table functions and against relations written in the columns themselves, and the invariants of every
  run.
- `FcpTransactions`, `Blocks`, `ConcurrentStore`, `VolumeBlocks`: the re-entrant lock and transaction rule of
  `get_fcp_conn`, for any number of threads, blocks put together from statements and nested blocks, the store under the
  protocol, and the volume manager's blocks that make several store calls.
- `InUseGroups`: the grouping of devices in use by slices of a sorted list.

Four further parts stand on their own: `CommandParser` (`parseCmdline`), `DiskPool` (sizes printed, re-read
and rounded), `Metering` (the monitor cache) and `FcpRecords` (`extract_fcp_data`).

## How the code is modelled

- Every `random.choice`, and every iteration order Python or SQL leaves open, is a nondeterministic pick, so results
  hold for all of them. `ORDER BY` results are given by their order and contents.
- Ids, PCHIDs and states are case-normalised: the SQL columns are NOCASE while the Python comparisons are not.
- Weights are real numbers. The Python floats are quotients of small integers, on which the comparisons agree.
- Error paths are modelled. A PCHID missing from `pchid_info` (KeyError), a stored minimum below one (the `min()` of
  no weights), and a same-index lookup past the list (IndexError) are outcomes of their own. An edit can store a
  minimum of 0, because the truth test at `zvmsdk/database.py:1656` skips the validation (`StoreRuns.ZeroMinimum`).
- A call that raises leaves the tables as they were; the methods restore the saved tables where the code rolls back.
- `expand_fcp_list` is represented by its result: the devices of each path, in path order. The number of non-empty
  text segments an edit counts is taken to be the number of those paths.
- The same-index allocator counts mapped devices without joining table `fcp` and indexes a joined list. A mapped device
  may have no row there (`zvmsdk/database.py:1824-1829`). Every lookup lands on its rank if and only if the devices
  without a row are on the last path, at ranks that not all paths have (`SameIndex.LandsExactly`). Outside that
  condition it can return two devices of one path or raise IndexError (`SameIndexLimits.TwoOnOnePath`,
  `SameIndexLimits.IndexErrorRaised`).
- Its docstring promises non-empty WWPNs, but the code applies that filter only when it counts free devices per path
  (`zvmsdk/database.py:983-995`). `SameIndexLimits.WwpnMissing` gives tables on which the promise fails, and
  `SameIndexLimits.WwpnPromise` says for all tables exactly when it holds: when every column the search can choose has
  its WWPNs. Where missing rows are harmless this can be read off ranks (`SameIndexLimits.RankPromise`); elsewhere it
  cannot (`SameIndexLimits.RanksDoNotTell`).
- `Reserve` may be called directly with any template. It keeps the invariant if and only if `ReserveAllowed`
  holds (`StoreRuns.ReserveKeeps`); runs take reservations that meet it.
- If a caller catches the exception of a nested block and carries on, the writes of the failed block are committed with
  the outer one (`FcpTransactions.SwallowedFailureCommits`). `FcpTransactions.AllOrNothing` is the exact condition.
  `FcpTransactions.FailedWritesStayOut` is the finer one: failed nested blocks leave nothing behind if and only if they
  wrote nothing. The volume manager swallows such exceptions when it disconnects devices, where it is harmless
  (`VolumeBlocks.DisconnectBlock`), and when it synchronises after a release, where the batches done so far are kept
  (`VolumeBlocks.ReleaseBlock`).
- A COMMIT or ROLLBACK that raises releases the lock with the transaction still open. From then on no block ever ends it
  (`FcpTransactions.StuckForever`), and the next outermost block skips its commit (`FcpTransactions.SkipsExactly`).
- What z/VM reports is a parameter; the query that fetches it is not modelled.
- The cache methods of the monitor are atomic because of their lock, and read the clock under it; the calls of
  different threads interleave freely between them.
- Python's `int()`, clock readings, power states and backend replies are parameters.
- Disk sizes are exact: byte counts stay below 2^53, and `"%.1f"` rounds ties to even.

## Model

| member | source | states |
|---|---|---|
| Lists.KeepOnly | zvmsdk/database.py:1264-1268 | removing elements while iterating over a copy equals filtering, also with equal elements in the list |
| Combinatorics.CombinationsExact | zvmsdk/database.py:1437-1438 | the enumerated path choices are exactly the ascending lists of that many free paths |
| Combinatorics.ProductExact | zvmsdk/database.py:1470 | the product holds exactly the lists that take one PCHID from each path's list |
| AllocationSpec.WeightFits | zvmsdk/database.py:1240-1268 | a weight of at least one means exactly that every PCHID has the capacity the assignment needs |
| AllocationSpec.RatioExact | zvmsdk/database.py:1240-1252 | the weight of a PCHID times the number of devices on it is its free capacity |
| AllocationSpec.DropTo | zvmsdk/database.py:1423-1427 | from a feasible assignment one of every smaller path count can be made |
| Allocator.FreePchidsByPath | zvmsdk/database.py:2064-2100 | lists for each path exactly the PCHIDs with a device passing the full free filter, and no other path |
| Allocator.Enumerate | zvmsdk/database.py:1437-1481 | every assignment of a free PCHID to that many free paths is enumerated, and nothing else |
| Allocator.WeighOne | zvmsdk/database.py:1236-1255 | the weight is attained by one of the PCHIDs and is least over all, and is missing exactly when a PCHID has no statistics |
| Allocator.WeighAll | zvmsdk/database.py:1211-1258 | every candidate gets its weight; otherwise an unknown PCHID or an empty candidate is the reason |
| Allocator.SelectMaxWeight | zvmsdk/database.py:1274-1282 | keeps exactly the candidates of greatest weight |
| Allocator.SelectMostDistributed | zvmsdk/database.py:1288-1300 | keeps exactly the candidates with the most distinct PCHIDs |
| Allocator.SelectBest | zvmsdk/database.py:1513-1530 | the three filters in sequence leave exactly the lexicographically best valid candidates |
| Allocator.PickDevices | zvmsdk/database.py:1306-1365 | there is always a device to choose on each path, and the list has one free device per path in path order |
| Allocator.GetFcpDevices | zvmsdk/database.py:1184-1556 | the answer is optimal, empty, or one of the three errors, each under its exact condition; in columns: every device returned is free with both WWPNs, each PCHID stays within its maximum with what is allocated already, the stored minimum of paths is met, and a choice of free devices that meets all this forces an answer at least as large |
| Allocator.Soundness | zvmsdk/database.py:1306-1365 | returned devices are distinct, on distinct paths, free members of the template, and within each PCHID's capacity |
| Allocator.Completeness | zvmsdk/database.py:1380-1556 | the result is empty if and only if no choice of the minimum number of paths is feasible |
| Allocator.Optimality | zvmsdk/database.py:1427-1542 | no feasible assignment has more paths, or as many and a greater weight, or the same weight and more PCHIDs, than the returned devices |
| Allocator.FeasibleAnswered | zvmsdk/database.py:1423-1542 | any feasible assignment reaching the minimum forces an answer with at least as many paths |
| SameIndex.Follow | zvmsdk/database.py:1061-1075 | a rank is kept exactly when the rows its prefix sums address are all unused, and the lookup fails exactly when it gets past the list |
| SameIndex.CollectGroups | zvmsdk/database.py:1050-1079 | the map holds exactly the ranks that are unused on all paths, with their rows; IndexError exactly when some rank leads past the list |
| SameIndex.LandsExactly | zvmsdk/database.py:1061-1075 | every prefix-sum index is in range and lands on the device of its rank on its own path, if and only if the devices without a row are on the last path at ranks that not all paths have |
| Lists.PositionIsRank | zvmsdk/database.py:1032-1040 | in the sorted row list a position is the number of smaller rows |
| Lists.StringLeqExact | zvmsdk/database.py:1040 | the device order is lexicographic |
| SameIndex.WeightOkFits | zvmsdk/database.py:1108-1139 | the weight filter keeps exactly the groups within every PCHID's capacity |
| SameIndex.Choose | zvmsdk/database.py:1092-1181 | an unknown PCHID in any group is an error, otherwise the pick is a group within capacity if there is one |
| SameIndex.ComputesAnswers | zvmsdk/database.py:1050-1181 | where missing rows are harmless, the possible results are exactly the answers owed about ranks, for every random choice |
| SameIndex.GetSameIndex | zvmsdk/database.py:914-1182 | for all tables the result is what the search on the two query results allows, of idle devices, and each PCHID stays within its maximum with what is allocated already; where missing rows are harmless it is one unused device per path, all of one rank, and a group of one rank within the maxima forces a result |
| SameIndexLimits.PossibleGroups | zvmsdk/database.py:1050-1181 | for all tables, a non-empty list is a possible result if and only if it lists a complete column within capacity while no lookup fails and all PCHIDs are known |
| SameIndexLimits.WwpnPromise | zvmsdk/database.py:914-1070 | for all tables, all results have the documented WWPNs if and only if every column that can be chosen has them |
| SameIndexLimits.RankPromise | zvmsdk/database.py:914-1070 | the answers owed have them if and only if every group of unused devices of one rank within capacity has them, and so do the results where missing rows are harmless |
| SameIndexLimits.RanksDoNotTell | zvmsdk/database.py:965-1075 | tables with a device row missing on which no group of one rank exists, yet every result holds a device without WWPN |
| SameIndexLimits.OneRankPromise | zvmsdk/database.py:914-1182 | for all tables, every group returned has one device of one rank on each path, if and only if every column that can be chosen does |
| SameIndexLimits.WwpnMissing | zvmsdk/database.py:983-1070 | tables on which every result holds a device without WWPN |
| SameIndexLimits.TwoOnOnePath | zvmsdk/database.py:965-1075 | tables outside the condition on missing rows on which every result has two devices of one path and none of the other |
| SameIndexLimits.IndexErrorRaised | zvmsdk/database.py:1061-1067 | tables outside the condition on missing rows on which the only result is the lookup going past the list |
| Comparison.SameIndexImpliesEveryPath | zvmsdk/database.py:914-1556 | on all tables, when the same-index allocator returns a group with known WWPNs that covers the paths, or any such group where missing rows are harmless, the general one returns a group covering every path |
| Comparison.UncoveredFails | zvmsdk/database.py:914-1556 | tables on which every same-index group has known WWPNs but misses a path, and the general allocator returns nothing |
| FcpStore.FcpDbOperator.UnreserveFcps | zvmsdk/database.py:404-412 | each listed row gets reserved 0 and an empty template and keeps its other columns; every other row and table is as before |
| Columns.ReleasedGrantable | zvmsdk/database.py:404-412 | a released device that is idle and free can be handed out again |
| FcpStore.FcpDbOperator.ReserveFcps | zvmsdk/database.py:414-422 | each listed row gets reserved 1, the user and the template and keeps its other columns; every other row and table is as before |
| FcpStore.FcpDbOperator.InsertDevices | zvmsdk/database.py:424-440 | all rows are inserted with the reported columns and no use, or none if and only if an id is taken or repeated |
| FcpStore.FcpDbOperator.DeleteDevices | zvmsdk/database.py:442-450 | exactly the listed rows are deleted |
| FcpStore.FcpDbOperator.UpdateDevices | zvmsdk/database.py:452-479 | each existing row has the six z/VM columns of the last record about it and its old usage columns; rows without a record are as before |
| StoreRuns.LastRecordWins | zvmsdk/database.py:470-479 | of several records about a device the last one counts |
| FcpStore.FcpDbOperator.SyncWithZvm | zvmsdk/volumeop.py:932-1048 | a device is in the table if and only if it is reported or was in use; reported columns are taken over, except WWPNs a device in use is known under; new rows are unused; an unreported row in use is only marked; this equals the difference steps |
| FcpStore.SyncedByDifference | zvmsdk/volumeop.py:938-1046 | the four difference steps give exactly the replaced table |
| StoreRuns.SyncIdempotent | zvmsdk/volumeop.py:932-1048 | synchronising twice is synchronising once |
| StoreRuns.SyncKeepsInUse | zvmsdk/volumeop.py:953-1027 | a device in use survives with its usage columns and the WWPNs it is known under |
| FcpStore.FcpDbOperator.ResetFcpsOfAssigner | zvmsdk/database.py:493-500 | each row of the user loses assigner, reservation, connections and template and keeps its z/VM columns; every other row is as before |
| FcpStore.FcpDbOperator.IncreaseFcpConnections | zvmsdk/volumeop.py:551-566 | if all devices are the user's, each gets one connection for every time it is listed, otherwise nothing changes; the counts reported are those stored |
| FcpStore.FcpDbOperator.DecreaseFcpConnections | zvmsdk/volumeop.py:568-585 | each device loses one connection for every time it is listed, down to zero, failures being skipped; the counts reported are those stored |
| FcpStore.FcpDbOperator.IncreaseConnections | zvmsdk/database.py:568-594 | one more on the counter of a device of the user and no other column changed, otherwise an error and nothing changed |
| FcpStore.FcpDbOperator.DecreaseConnections | zvmsdk/database.py:596-634 | one less on the counter and no other column changed; an error for a missing device or a counter at zero |
| StoreRuns.ConnectTrip | zvmsdk/database.py:568-634 | connecting and disconnecting undo each other on the whole tables, and each fails exactly for a foreign or missing device, respectively at zero |
| StoreRuns.CounterStep | zvmsdk/database.py:568-634 | over all operations, only connect and disconnect move the counter of a device, by one |
| FcpStore.FcpDbOperator.BulkDeleteFromTemplate | zvmsdk/database.py:2239-2251 | a mapping row is gone if and only if it is one of the template for a listed device that is neither connected nor reserved |
| StoreRuns.DeletedTemplate | zvmsdk/database.py:2253-2281 | a template is deleted exactly when it exists and nothing is allocated from it; then no table mentions it and every other row is as before |
| FcpStore.FcpDbOperator.DeleteFcpTemplate | zvmsdk/database.py:2253-2281 | refused exactly for a missing template or one with an allocated device; otherwise no table mentions it and every other row is as before |
| StoreRuns.CreateThenDelete | zvmsdk/database.py:2253-2281 | deleting a template undoes its creation if and only if the creation overrode no provider or host default |
| FcpStore.FcpDbOperator.CreateFcpTemplate | zvmsdk/database.py:1558-1645 | refused exactly when the template exists, a device is on two paths or mapped already, or a new provider is repeated; otherwise the row, the mapping rows and the providers hold exactly the given values and only default flags of other templates change |
| FcpStore.FcpDbOperator.EditMapping | zvmsdk/database.py:1789-1889 | deleting, inserting and moving by difference equals replacing the template's rows, and no insert collides |
| FcpStore.DifferenceIsReplacement | zvmsdk/database.py:1816-1889 | the three difference steps give exactly the replaced mapping |
| FcpStore.FcpDbOperator.SetSpDefaults | zvmsdk/database.py:814-849 | exactly the listed providers end up with the template, or a repeated name is refused |
| FcpStore.FcpDbOperator.EditFcpTemplate | zvmsdk/database.py:1694-1904 | Conflict exactly when the minimum would exceed the paths, the path count changes while devices are allocated, or a device in use would be lost; otherwise each column has the given value where given and the old one elsewhere, and mapping and providers are exactly those given |
| FcpStore.FcpDbOperator.AllocateFcpDevices | zvmsdk/volumeop.py:713-784 | devices the user holds are reused if their WWPNs are known; otherwise the table is synchronised and free devices within every PCHID's maximum are reserved for the user, as many as some choice allows; a failure changes nothing |
| FcpStore.FailsExactly | zvmsdk/volumeop.py:713-784 | a request fails if and only if held devices lack WWPNs, PCHID statistics are missing, or the allocator raises, whatever is chosen otherwise |
| StoreRuns.ReserveKeeps | zvmsdk/database.py:414-422 | a direct reservation keeps the invariant if and only if its template is non-empty, exists and maps the devices |
| StoreRuns.EditDevicesKeeps | zvmsdk/database.py:1828-1855 | an accepted edit never drops the mapping of a device in use from the template |
| StoreRuns.EveryRun | zvmsdk/database.py:404-634 | in every state of every run: reserved iff allocated from a template, which exists and maps the device; references exist; at most one host default; no negative counter |
| StoreRuns.EditTemplateKeeps | zvmsdk/database.py:776-797 | an edit keeps at most one host default, also when it rewrites the stored flag without clearing the others, and touches other templates only to clear their flag |
| StoreRuns.ZeroMinimum | zvmsdk/database.py:1651-1660 | an edit to a minimum of 0 is accepted and stored; the general allocator then fails exactly when there are free paths and nothing fits |
| StoreRuns.NothingToWeighExactly | zvmsdk/database.py:1255 | the `min()` of no weights is reached if and only if there are free paths, the stored minimum is at or below zero, and nothing fits |
| StoreRuns.NoRoomNothingFits | zvmsdk/database.py:1240-1268 | nothing fits when no PCHID has room for a device, which a caller can see from the statistics |
| StoreRuns.CreateDefault | zvmsdk/database.py:1616-1632 | creating a template keeps at most one host default |
| StoreRuns.EditReplaces | zvmsdk/database.py:1789-1889 | after an edit the template maps exactly the given devices, other templates are untouched, and no device in use is lost |
| StoreRuns.LastPathWins | zvmsdk/database.py:1804-1807 | a device listed on several paths is put on the last of them |
| StoreRuns.EditSetsProviders | zvmsdk/database.py:814-849 | the providers defaulting to the template are exactly the list, and unlisted providers of other templates keep theirs |
| StoreRuns.CreateSetsProviders | zvmsdk/database.py:1599-1645 | creating a template overrides exactly the listed providers |
| StoreRuns.Ledger | zvmsdk/database.py:568-634 | since its last reset a device has exactly its connects minus its disconnects, never negative |
| StoreRuns.ExclusiveOwnership | zvmsdk/volumeop.py:713-784 | in every run a device handed out is not handed out again before it was given back, and then without connections |
| FcpTransactions.Serialisable | zvmsdk/database.py:102-141 | while no COMMIT or ROLLBACK has raised, whenever the lock is free the run is a series of complete single-thread blocks, isolated from each other, and the tables are what running them one after another gives |
| FcpTransactions.SkipsOnlyNested | zvmsdk/database.py:113-117 | while no COMMIT or ROLLBACK has raised, the commit is skipped exactly by blocks nested in the same thread's open transaction |
| FcpTransactions.SkipsExactly | zvmsdk/database.py:113-141 | throughout a run exactly the nested blocks skip the commit, if and only if no block begins after an exit whose COMMIT or ROLLBACK raised |
| FcpTransactions.StuckForever | zvmsdk/database.py:119-141 | after such an exit the transaction stays open and no later block of any thread commits or rolls back |
| FcpTransactions.StuckRun | zvmsdk/database.py:113-141 | a run in which an outermost block skips its commit after such an exit |
| FcpTransactions.AllOrNothing | zvmsdk/database.py:119-139 | an exception anywhere in an outermost block keeps all its writes out, if and only if the block does not both swallow an exception and commit |
| FcpTransactions.FailedWritesStayOut | zvmsdk/database.py:119-139 | at every point of a block the tables are what the statements outside failed nested blocks make, if and only if the failed nested blocks wrote nothing |
| FcpTransactions.SwallowingHarmless | zvmsdk/volumeop.py:578-584 | where failed nested blocks wrote nothing, a block that swallows their exceptions commits exactly its other statements |
| FcpTransactions.SwallowedFailureCommits | zvmsdk/database.py:119-139 | a run in which a failed nested block's writes are committed because its exception was caught |
| ConcurrentStore.ConcurrentRefines | zvmsdk/database.py:102-141 | for any number of threads whose committed blocks each make a list of store calls, the tables are those of one sequential run of these calls in commit order |
| ConcurrentStore.EveryConcurrentRun | zvmsdk/database.py:102-141 | the store invariant holds in such runs whenever the lock is free |
| ConcurrentStore.ConcurrentLedger | zvmsdk/database.py:568-634 | a device's connections are the connects minus the disconnects of all threads' committed blocks since it was last cleared |
| ConcurrentStore.ConcurrentOwnership | zvmsdk/volumeop.py:713-784 | between two hand-outs of a device, by whichever threads, it was given back, and it is handed out without connections |
| Blocks.BlockRuns | zvmsdk/database.py:102-141 | a thread can run a block made of statements and nested blocks from every state with a free lock, after which the lock is free and the tables are what the pieces make |
| Blocks.NestedPiece | zvmsdk/database.py:113-141 | a nested block can be run inside any open block and has the effect of its body however it ends |
| VolumeBlocks.ConnectBlock | zvmsdk/volumeop.py:560-566 | the connect block over a device list can be run whenever the lock is free and does what the connects do in order |
| VolumeBlocks.DisconnectBlock | zvmsdk/volumeop.py:575-585 | so can the disconnect block; the calls whose exceptions it swallows wrote nothing |
| VolumeBlocks.AllocateBlock | zvmsdk/volumeop.py:2610-2626 | the connector block that allocates, with its nested synchronisation and reservation, can be run and does what one allocation does |
| VolumeBlocks.ReleaseBlock | zvmsdk/volumeop.py:2610-2636 | the connector block that releases can be run; if its synchronisation breaks off after some batches, the block commits the release and exactly these batches |
| VolumeBlocks.SyncPrefixes | zvmsdk/volumeop.py:932-1048 | a synchronisation broken off after any batch has made store steps only, and carried through it is the synchronisation |
| InUseGroups.SliceIsGroup | zvmsdk/database.py:2006-2008 | in a list sorted by PCHID the slice from first index by count is exactly the entries of that PCHID |
| InUseGroups.InUseByPchid | zvmsdk/database.py:1970-2014 | every device in use is in exactly one group, its own PCHID's, once |
| CommandParser.RequestHandle.ParseCmdline | smtLayer/generalUtils.py:189-339 | the in-place parser computes the table-driven specification, does nothing after an earlier error, and ends |
| CommandParser.PositionalMessages | smtLayer/generalUtils.py:219-253 | message 1 exactly when a token does not convert, message 2 exactly when all convert and a required operand is missing, otherwise the tokens read as values |
| CommandParser.RequestHandle.ReadValues | smtLayer/generalUtils.py:295-324 | the values of a keyword are stored up to the first that does not convert |
| CommandParser.RequestHandle.ParseKeywords | smtLayer/generalUtils.py:256-335 | keywords are consumed until the end or the first error; message 5 cannot be reported |
| CommandParser.RoundTrip | smtLayer/generalUtils.py:189-339 | parsing the canonical text of an operand assignment consumes every token and returns exactly that assignment |
| CommandParser.AcceptedExactly | smtLayer/generalUtils.py:189-339 | a command line is accepted if and only if it reads as some operand assignment |
| CommandParser.ReadingAccepted | smtLayer/generalUtils.py:189-339 | a command line that reads as an assignment is accepted with exactly that assignment |
| CommandParser.PhasesSkipped | smtLayer/generalUtils.py:219-258 | a subfunction missing from a table skips that phase |
| CommandParser.KeywordMessages | smtLayer/generalUtils.py:256-335 | each of messages 3, 4 and 6 is reported exactly when the tokens read as keyword operands up to its cause |
| CommandParser.KeywordCodes | smtLayer/generalUtils.py:256-335 | only messages 3, 4 and 6 occur for keywords, and without one every token was consumed |
| DiskPool.TextTrip | zvmsdk/hostops.py:170-194 | reading back a printed size, with stripping and upper-casing, gives exactly the rounded figure of its unit |
| DiskPool.RoundedExact | zvmsdk/hostops.py:174-186 | a figure is read as the nearest number of GB, a half rounded up |
| DiskPool.RoundedNear | smtLayer/generalUtils.py:140-166 | every printed and re-read figure is within 0.55 GB of the exact size |
| DiskPool.RoundingBound | smtLayer/getHost.py:369-376 | the GB figures of a pool satisfy total minus used minus free within one, for every mix of magnitudes |
| DiskPool.BoundIsReached | zvmsdk/hostops.py:170-194 | both deviations of one GB occur |
| DiskPool.AccumulatedSum | smtLayer/getHost.py:346-354 | accumulating lines gives each pool the sum of its own lines |
| DiskPool.DiskSizeExact | smtLayer/getHost.py:248-265 | the bytes per unit for each device type, and the guess for another type |
| DiskPool.LineExact | smtLayer/getHost.py:347-354 | which columns of a line are type, size and pool |
| DiskPool.MagnitudeExact | smtLayer/generalUtils.py:140-166 | above 5 GB the figure is in G, otherwise in M, rounded to the nearest tenth |
| DiskPool.HalfEvenExact | smtLayer/generalUtils.py:157-163 | a printed figure is the nearest tenth, the even one of two |
| DiskPool.GetDiskPoolSpaceUsage | smtLayer/getHost.py:332-376 | totals per pool are the sums of both queries, and each error outcome has its exact condition |
| DiskPool.DiskpoolGetInfo | zvmsdk/hostops.py:170-194 | every figure, stripped and upper-cased, is rewritten, or the whole call fails on a text of another form |
| Metering.MeteringCache.Refresh | zvmsdk/monitor.py:226-233 | the type then holds exactly the new data, expiring one interval later |
| Metering.MeteringCache.Get | zvmsdk/monitor.py:204-210 | a value is returned if and only if the key is there and the expiration has not passed, and it is the stored one |
| Metering.Inspect | zvmsdk/monitor.py:96-115 | whatever the cache answers to each lookup at its time, the loop stops at the first powered-on miss and queries, else returns exactly the hits |
| Metering.GetInspectData | zvmsdk/monitor.py:96-143 | the answer is the backend reply if any powered-on guest missed the cache, else exactly the cache hits |
| Metering.EntryHistory | zvmsdk/monitor.py:168-233 | in every interleaving of cache calls a cache entry is what the latest refresh of its type stored |
| Metering.BoundedStaleness | zvmsdk/monitor.py:168-233 | each value got from the cache, by any thread, equals the latest refresh's data, at most one interval old |
| Metering.CallStaleness | zvmsdk/monitor.py:96-143 | however threads interleave, every value of a call that did not query was stored by a refresh at most one interval before it was looked up |
| Metering.InvalidSkipped | zvmsdk/monitor.py:99-101 | an invalid id before a valid one is not looked up, and such a call is covered by these results |
| Metering.CachingOff | zvmsdk/monitor.py:93-143 | with the interval at or below zero the cache stays empty and a call about a powered-on guest is answered by its own query |
| FcpRecords.ExtractFcpData | smtLayer/getVM.py:595-646 | the lines of the output are those of exactly the complete six-line records whose status line has the status, in order |
| FcpRecords.MatchesExactly | smtLayer/getVM.py:640-643 | a line matches if and only if all are asked for, or what stands behind its last colon, or the whole line without one, is the status up to whitespace around it and case |
| FcpRecords.OutputSelects | smtLayer/getVM.py:625-646 | gives the numbers of the records in the output |
| FcpRecords.CleanLinesExact | smtLayer/getVM.py:597-620 | the lines kept are the trimmed ones other than the empty line and a lone #, in order |
| FcpRecords.TrimExact | smtLayer/getVM.py:600 | cleaning removes exactly the spaces around a line |
| FcpRecords.ExtractedRecords | smtLayer/getVM.py:625-646 | the output reads back as the in-order matching six-line records, a partial record dropped |
| FcpRecords.ExtractionFuses | smtLayer/getVM.py:595-646 | extracting everything and then a status equals extracting the status |

## Left out

- `update_usage_of_fcp`: a manual overwrite of the usage columns that can break every invariant; runs exclude it.
- The reply of `edit_fcp_template` with PCHID differences, template listing queries, and default-template resolution in `allocate_fcp_devices`: lookups.
- `expand_fcp_list` and `shrink_fcp_list`: text forms of device lists; their results are inputs here.
- First connection setup in `get_fcp_conn`, failure of `BEGIN` itself, and transactions SQLite rolls back on its own, also when a COMMIT or ROLLBACK raises.
- FcpTransactions.Serialisable: covers safety of the lock protocol, not fairness or that a waiting thread ever gets the lock.
- `_update_nic_data` and `_update_cpumem_data`: how the backend reply is assembled; the reply is an input of the cache model.
- `MeteringCache.clear('all')`: it calls `_reset` without its argument and is not used by the monitor.
- Negative sizes in a disk pool response: size columns are digit strings.
- DiskPool.DiskpoolGetInfo: `int()` is modelled on digit strings; signs, underscores and inner blanks count as another form.
- Non-ASCII case folding and whitespace: lower- and upper-casing and stripping are modelled for ASCII.
- Fetching device data from z/VM, and WWPN checks outside the allocation.
- VolumeBlocks.AllocateBlock: consecutive queries of the block stand as one, since they change nothing; the same holds for VolumeBlocks.ReleaseBlock.
- `release_fcp_devices`: an unreserve of the idle devices of a user, which is an operation of the runs.
- Subprocess calls, IUCV, network clients, the REST layer, image, network and guest databases, logging and message texts.
