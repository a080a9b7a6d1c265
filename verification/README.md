# Polygon ETL: a model of its algorithms and protocols

Polygon ETL exports blocks, transactions, logs and traces of a chain and keeps the derived tables in a
warehouse up to date. This Dafny project models the parts of it that are hard to get right and proves
what they are for. `dafny verify dfyconfig.toml` checks everything.

Objects that the program updates in place are classes (`GraphOperations`, `EthService`, `EthTrace`,
`Bucket`, `ParseStateManager`); loops are methods proved against specification functions; code that
several threads or processes run at once is a step system, and what is proved about it holds for every
run, however the steps interleave.

**Search over a growing chain** (`GraphSearch`, `BlockRange`). The search for the two blocks around a
timestamp probes a remote graph and keeps every probed point. The graph may grow at every access, within
a query or between two. From every cache that earlier queries can leave, a query returns what a linear
scan of the graph as it was at one moment of the query returns, for every way of estimating where to
probe; the search also ends for every estimate, because each round shrinks the interval. On top of it,
the range of blocks of a time window takes two such lookups. It is not always right: if the start of the
window is beyond the chain when it is looked up, and the chain has reached the end of the window when
that is looked up, the code returns the whole chain before the window as well
(`GrowthReturnsTheWholeChain` has the smallest such case). `GetBlockRangeForTimestamps` states what is
returned in every case, and that it is the range of the window if and only if the chain has not
overtaken it like this; ranges of consecutive windows tile their union if and only if none of them was
overtaken.

**Batch work executor** (`Batches`, `BatchExecutor`, `ExecutorProgress`, `ExecutorTermination`,
`ExecutorOutcomes`, `RetryLoss`). One producer cuts the input into batches whose size racing workers
change; a semaphore bounds the pool; a list of futures makes it fail fast; failed batches are retried
item by item. Proved over all interleavings: nothing is lost, nothing is handed over too often, permits
are conserved, the batch size stays in range, the last assertion holds, no run deadlocks or goes on for
ever, errors stop the executor within a batch, and the size follows them. One expectation is false of
the code: with `max_retries` 0, a failed batch is dropped and `execute` and `shutdown` still return
normally. `RetryLoss` builds that run for every input and proves that the promise holds if and only if
at least one retry is allowed.

**Call trees** (`CallTrees`, `TraceStatus`, `TraceIds`, `ExtractTraces`, with `Decimal`, `StableSort`,
`Grouping`). Nested calls become addressed rows; failure is pushed down with only a sort by depth and a
dictionary keyed by text; rows get identifiers. Proved: the rows are the tree in pre-order and the tree
can be read back from them, the flat algorithm computes failure along the path from the root, no error
can stop it, and the order of the rows does not matter. Identifiers are unique if and only if no trace
type in use is another one extended by an underscore and the front of a place (`Extends`).

**Table definitions and parse state** (`TopologicalSort`, `TableStates`, `ParseState`, `ParseRun`).
Kahn's levels with the exact error data, the one-pass dirty flag against reachability, one run over a
dataset folder with the exact case of every error, and the optimistic lock between processes. Three
exact conditions: without a cycle, the assertion that dependencies have a state fails if and only if
some definition refers to itself (the sort ignores self-references, the assertion does not). No update
can be lost if and only if the versions that the file has at first and gets by the clock are different,
but for the last one (assuming that the day in the first file, if it has one, is a date): two uploads
within one clock tick get the same version, after which a process that read the first can overwrite the
second. A second run on unchanged files refreshes nothing if and only if a table named like one of the
manager's two own keys happens to have the hash that the manager puts there.

**Join and enrichment** (`HashJoin`, `Enrichment`, `EnrichOperations`, `TraceEnrichment`). The grouped
join is the nested-loop join up to order. The length check is not exact for every input: for each shape,
it accepts exactly the left sides in which every row has a partner if and only if no two right rows have
the same key. For traces, which take two joins, the condition is that a transaction whose block is there
is the only one with its numbers, and the block the only one with its number.

**Header line** (`CsvHeader`). Double-checked locking: in every interleaving of any number of calls the
file is one header and then rows in exactly its columns.

Assumptions: the clock, upload failures, what other processes write during the sleep and during a run,
which tables fail and how a handler call ends are arbitrary. Content hashes and references of a
definition file are given. Persisting the parse state is one step (the source checks the version and
then uploads). Writing one CSV line is one step, and what raises while a header or a row is being made
raises before a line is written. Block numbers, transaction indices and address parts are non-negative.

## Model

| member | source | states |
|---|---|---|
| GraphSearch.GraphOperations.GetBoundsForYCoordinate | cli/polygonetl/service/graph_operations.py:33-41 | from any valid cache, and though the graph may grow at every access, the result, errors included, is that of a linear scan of the graph at one moment of the query; the cache only grows and stays valid |
| GraphSearch.GraphOperations.BoundsRecursive | cli/polygonetl/service/graph_operations.py:43-87 | terminates for every estimate because the interval shrinks; raises out-of-bounds exactly outside the two points, and none of the other three errors |
| GraphSearch.GraphOperations.Probe | cli/polygonetl/service/graph_operations.py:68-78 | a clamped estimate is strictly inside the interval, is a point of the graph, and finds there what was there all the time |
| GraphSearch.GraphOperations.GetPoint | cli/polygonetl/service/graph_operations.py:89-92 | a probe returns the point of the graph and appends it to the cache; asking beyond the graph is excluded by the callers |
| GraphSearch.GraphOperations.GetFirstPoint | cli/polygonetl/service/graph_operations.py:94-97 | the first point, appended to the cache |
| GraphSearch.GraphOperations.GetLastPoint | cli/polygonetl/service/graph_operations.py:99-102 | the last point of the graph as it is at that access, appended to the cache |
| GraphSearch.GraphOperations.constructor | cli/polygonetl/service/graph_operations.py:28-31 | a new search has an empty, hence valid, cache |
| GraphSearch.Graph.PointsStay | cli/polygonetl/service/eth_service.py:70-82 | what was a point of the chain is one, with the same timestamp, whatever the chain has grown to |
| GraphSearch.GraphOperations.CacheStays | cli/polygonetl/service/graph_operations.py:28-38 | points cached before the graph grew are still points of the graph |
| GraphSearch.Session | cli/polygonetl/service/graph_operations.py:27-41 | in every session of queries each query is answered by the linear scan of the graph at a moment of that query, whatever the graph did before and meanwhile |
| GraphSearch.ScanIsTight | cli/polygonetl/service/graph_operations.py:33-35 | the scan finds the point with that y, or adjacent points that strictly bound it |
| GraphSearch.TightIsScan | cli/polygonetl/service/graph_operations.py:33-52 | tight bounds exist exactly inside the graph and are unique: being tight and being the scan's answer are the same |
| GraphSearch.FindBestBounds | cli/polygonetl/service/graph_operations.py:105-110 | returns a pair that brackets y with no given point strictly between; none exactly if there are fewer than two points or all lie on one side of y |
| GraphSearch.Bound | cli/polygonetl/service/graph_operations.py:122-131 | of the places strictly inside the interval, in whichever order its ends are given, the one nearest to the estimate |
| BlockRange.EthService.GetBlockRangeForTimestamps | cli/polygonetl/service/eth_service.py:41-67 | with the chain growing between the lookups: the range is exactly the blocks whose timestamps lie in the window, plus genesis iff block 1 is among them, and each error is raised exactly in its case, iff the chain has not overtaken the window; if it has, the answer is all blocks until the end of the window |
| BlockRange.AnswerIsRangeIffNotOvertaken | cli/polygonetl/service/eth_service.py:47-58 | an answer is the range of its window iff the chain did not pass from before the start of the window to beyond its end between the two lookups |
| BlockRange.GrowthReturnsTheWholeChain | cli/polygonetl/service/eth_service.py:47-61 | for every chain, one block arriving between the lookups makes the code return the whole chain for a window in which no block lies |
| BlockRange.BoundsAnswer | cli/polygonetl/service/eth_service.py:57-67 | what is made of the two bounds, the start found in an older chain and the end in a newer one |
| BlockRange.EthService.GetBlockRangeForDate | cli/polygonetl/service/eth_service.py:36-39 | the same for the 86400 seconds of a date, one second into the next day before the epoch because of the truncation |
| BlockRange.TruncateDropsFraction | cli/polygonetl/service/eth_service.py:42-43 | a timestamp loses its fraction, toward zero |
| BlockRange.EthService.constructor | cli/polygonetl/service/eth_service.py:31-34 | the service starts with an empty cache on a graph that begins with block 1 |
| BlockRange.RangeIsDetermined | cli/polygonetl/service/eth_service.py:41-67 | a window has only one answer that meets the characterisation |
| BlockRange.WindowBetweenBounds | cli/polygonetl/service/eth_service.py:57-65 | the blocks of the window lie from the right start bound to the left end bound, and the window is not empty |
| BlockRange.RangeIsStable | cli/polygonetl/service/eth_service.py:41-67 | an answer other than not-covered stays the answer when the chain grows |
| BlockRange.AdjacentRangesMeet | cli/polygonetl/service/eth_service.py:60-67 | ranges of adjacent windows meet without gap or overlap, genesis included, and together are the range of the union |
| BlockRange.ConsecutiveRangesTileIff | cli/polygonetl/service/eth_service.py:36-67 | for any successful calls for consecutive windows, whenever they are made and whatever the chain does: the ranges meet and together are the range of the union iff none of them was overtaken |
| BlockRange.RangesTile | cli/polygonetl/service/eth_service.py:36-67 | consecutive windows of one chain that all succeed tile their union, without gap or overlap |
| BlockRange.HourlyRangesTileDayIff | airflow/dags/polygonetl_airflow/build_export_dag.py:131-151 | 24 successful hourly exports follow each other and together give exactly the blocks of the day iff none of them was overtaken |
| Batches.DynamicBatchIterator | cli/polygonetl/utils.py:110-120 | whatever sizes are read, the batches concatenate to the input and each has the length its reading asks for, at least one item |
| Batches.BatchLength | cli/polygonetl/utils.py:112-119 | a batch is never longer than the size read (one item if that is less than one), and shorter only if the input ends |
| Batches.ExecuteWithRetries | cli/polygonetl/executors/batch_work_executor.py:102-114 | how many calls are made, which of them failed, how the function ends for every ending of the calls, that it sleeps between calls, first a second and each time twice as long as before, and that it calls nothing iff no attempt is allowed |
| BatchExecutor.NextKeeps | cli/polygonetl/executors/batch_work_executor.py:57-95 | every step of the producer, of any worker and of any callback keeps the invariant |
| BatchExecutor.RunKeeps | cli/polygonetl/executors/batch_work_executor.py:57-98 | the invariant holds at every moment of every run |
| BatchExecutor.WorkerKeepsOwnItem | cli/polygonetl/executors/batch_work_executor.py:62-74 | how often an item was handed over and whether it was handled follows the position of its worker in the retry loop |
| BatchExecutor.WorkerKeepsSizes | cli/polygonetl/executors/batch_work_executor.py:77-95 | every racing write to the batch size, after stale reads, stays in range |
| BatchExecutor.CheckKeepsFutures | cli/polygonetl/executors/fail_safe_executor.py:42-48 | walking over the futures removes only ones that succeeded and leaves at most as many as were not done at the start |
| BatchExecutor.ReleaseKeeps | cli/polygonetl/executors/bounded_executor.py:48-49 | a done callback always finds a permit missing, and gives it back once |
| BatchExecutor.CompletedRunHandlesAll | cli/polygonetl/executors/batch_work_executor.py:57-98 | if execute and shutdown return normally, every future succeeded, all items were submitted and, with a retry allowed, every item was in a handler call that returned normally |
| BatchExecutor.HandoversAreBounded | cli/polygonetl/executors/batch_work_executor.py:62-74 | no item is handed over more than 1 + max_retries times |
| BatchExecutor.SubmittedBatchesAreThePrefix | cli/polygonetl/executors/batch_work_executor.py:57-60 | at every moment the submitted batches are non-empty and concatenate to a prefix of the input, in the end to all of it |
| BatchExecutor.PermitsAreConserved | cli/polygonetl/executors/bounded_executor.py:35-49 | free plus held permits equal bound + max_workers, no release over-releases (also when the pool refuses), futures not done stay within that number and the list within one more |
| BatchExecutor.BatchSizeStaysInRange | cli/polygonetl/executors/batch_work_executor.py:77-95 | 1 <= batch_size <= starting size in every interleaving, and no change before the first decrease |
| BatchExecutor.ShutdownAssertionHolds | cli/polygonetl/executors/fail_safe_executor.py:37-40 | the assertion at the end of shutdown is reached only with an empty list |
| ExecutorOutcomes.FatalErrorIsRaised | cli/polygonetl/executors/batch_work_executor.py:62-72 | an error that is not to be retried fails its future at once, and execute and shutdown do not both return normally in any continuation |
| ExecutorOutcomes.FailsFast | cli/polygonetl/executors/fail_safe_executor.py:30-48 | once a batch has failed, at most one more is submitted in any continuation, and none if the producer has yet to look at the futures |
| ExecutorOutcomes.RetriesUntilTheLast | cli/polygonetl/executors/batch_work_executor.py:102-114 | a call for one item that fails to be retried fails the future iff it was the last of max_retries, and otherwise the same item comes again |
| ExecutorOutcomes.FailedBatchIsRetried | cli/polygonetl/executors/batch_work_executor.py:66-72 | a batch that fails to be retried was handed over whole, and its future is not failed by it |
| ExecutorOutcomes.HandledItemsAreNotRepeated | cli/polygonetl/executors/batch_work_executor.py:62-72 | in every run, what was in a call that returned normally is never handed over again |
| ExecutorOutcomes.FailedBatchHalvesSize | cli/polygonetl/executors/batch_work_executor.py:77-83 | a failed batch of n items, n the batch size and more than 1, halves it, rounding down; any other leaves it alone, as long as nobody else writes |
| ExecutorOutcomes.SizeIsHalvedOrDoubled | cli/polygonetl/executors/batch_work_executor.py:77-95 | every change of the batch size in any run is to half or to twice the size of some batch |
| ExecutorOutcomes.GrowthWaitsForCooldown | cli/polygonetl/executors/batch_work_executor.py:85-95 | a returned batch of n raises the size to 2 n only up to the starting size and more than 120 seconds after the last change, and notes the time |
| ExecutorOutcomes.GrowthIsPossible | cli/polygonetl/executors/batch_work_executor.py:85-95 | when these conditions hold it can |
| ExecutorOutcomes.BatchIsAsLongAsRead | cli/polygonetl/utils.py:110-120 | in every run, the batch submitted after the size was read starts where the last one ended and is as long as that size asks for, whatever the size has become since |
| ExecutorOutcomes.WorkersAreBounded | cli/polygonetl/executors/bounded_executor.py:35-37 | no more calls are at work at once than there are workers |
| ExecutorProgress.NeverStuck | cli/polygonetl/executors/bounded_executor.py:35-53 | with a worker in the pool, some step is possible in every reachable state until execute and shutdown have returned or raised, also when the producer waits for a permit or for the pool |
| ExecutorProgress.HeldPermitComesBack | cli/polygonetl/executors/bounded_executor.py:48-49 | a future that holds a permit can give it back now, or it is not done and a worker of the pool has a step |
| ExecutorTermination.NextDescends | cli/polygonetl/executors/batch_work_executor.py:57-114 | with every step of any thread, the number that bounds the remaining steps falls |
| ExecutorTermination.RunsAreBounded | cli/polygonetl/executors/batch_work_executor.py:57-114 | no run is longer than a number that depends on the configuration alone |
| ExecutorTermination.EveryRunEnds | cli/polygonetl/executors/batch_work_executor.py:57-98 | every run can be continued to one in which execute and shutdown have returned or raised |
| ExecutorTermination.MaximalRunHasEnded | cli/polygonetl/executors/batch_work_executor.py:57-98 | a run that cannot be continued has ended like that |
| RetryLoss.BatchIsLost | cli/polygonetl/executors/batch_work_executor.py:66-74 | with max_retries 0 a batch that fails once is dropped and its future succeeds |
| RetryLoss.ReachCompletion | cli/polygonetl/executors/batch_work_executor.py:57-114 | with max_retries 0 every input can be dropped entirely by a run that returns normally |
| RetryLoss.PromiseHoldsIffRetriesAllowed | cli/polygonetl/executors/batch_work_executor.py:44-53 | a normal return means that every item was handled if and only if max_retries is at least 1 |
| CallTrees.IterateTransactionTrace | cli/polygonetl/mappers/trace_mapper.py:127-170 | the new traces carry the rows of the call and of everything below it |
| CallTrees.TypesOfRows | cli/polygonetl/mappers/trace_mapper.py:145-153 | no type has upper case; selfdestruct in any case is "suicide"; the four kinds of call in any case are "call" with the kind as call type, and nothing else has one; any other type is the kind up to case |
| CallTrees.CaseDoesNotMatter | cli/polygonetl/mappers/trace_mapper.py:145-146 | kinds that differ in case only give the same row |
| CallTrees.GethTraceToTraces | cli/polygonetl/mappers/trace_mapper.py:82-95 | the rows of a block are those of its transactions, one after the other |
| CallTrees.FlattenIsTree | cli/polygonetl/mappers/trace_mapper.py:155-170 | a row is in the flat list iff its address is a path of the tree and it is the row of the call there |
| CallTrees.PrefixesExist | cli/polygonetl/mappers/trace_mapper.py:162-168 | every prefix of an address is an address |
| CallTrees.FlattenIsPreOrdered | cli/polygonetl/mappers/trace_mapper.py:155-170 | rows come out in strict pre-order of their addresses |
| CallTrees.AddressesAreUnique | cli/polygonetl/mappers/trace_mapper.py:160-168 | no two rows of a transaction have the same address |
| CallTrees.SubtracesCountChildren | cli/polygonetl/mappers/trace_mapper.py:157-160 | subtraces is the number of rows exactly one step below |
| CallTrees.RebuildFlatten | cli/polygonetl/mappers/trace_mapper.py:127-170 | reading order and subtraces alone gives the tree back, with types and errors, and leaves the following rows untouched |
| TraceStatus.CalculateTraceStatuses | cli/polygonetl/service/trace_status_calculator.py:26-46 | raises iff a trace of a transaction lacks an address or a parent, with the error of such a trace and so never for a parent in another block; otherwise every status is 0 iff the trace or a trace above it has a non-empty error |
| TraceStatus.CalculateForSingleTransaction | cli/polygonetl/service/trace_status_calculator.py:49-71 | for any list of traces, also of several transactions or blocks: raises iff a trace has no address, no parent or a parent in another block, with the error of the first such trace by depth; otherwise a status is 0 iff the trace or one above it has an error |
| TraceStatus.BuildIndex | cli/polygonetl/service/trace_status_calculator.py:52-52 | the dictionary holds, for every key, the last trace with that key |
| TraceStatus.Inspect | cli/polygonetl/service/trace_status_calculator.py:57-71 | when earlier traces are final, the parent found decides whether the trace fails, and which of the three errors is raised, if any, is exact |
| TraceStatus.Visit | cli/polygonetl/service/trace_status_calculator.py:56-71 | one turn makes one more trace final and disturbs none |
| TraceStatus.LookupAt | cli/polygonetl/service/trace_status_calculator.py:51-61 | the text lookup finds exactly the last trace one step above, and it stands earlier in the order by depth |
| TraceStatus.AboveIsParent | cli/polygonetl/service/trace_status_calculator.py:58-68 | among the traces of one transaction the one above is the parent, and its block is the same |
| TraceStatus.AddressKeyInjective | cli/polygonetl/service/trace_status_calculator.py:74-78 | comma-joined addresses are different for different addresses |
| TraceStatus.TxKeyInjective | cli/polygonetl/service/trace_status_calculator.py:36-40 | block_transaction keys are different for different transactions |
| TraceStatus.GroupRows | cli/polygonetl/service/trace_status_calculator.py:34-44 | a group holds traces of one transaction only |
| TraceStatus.FailedInTransaction | cli/polygonetl/service/trace_status_calculator.py:42-44 | failure within the group is failure within the whole list |
| TraceStatus.OrderDoesNotMatter | cli/polygonetl/service/trace_status_calculator.py:49-71 | failure depends on which traces there are, not on their order |
| StableSort.SortByCorrect | cli/polygonetl/service/trace_status_calculator.py:51-51 | the sort is an ascending, stable permutation |
| StableSort.LastWhereSorted | cli/polygonetl/service/trace_status_calculator.py:51-52 | a dictionary built after sorting by depth resolves equal addresses as one built before it |
| Grouping.GroupBy | cli/polygonetl/service/trace_status_calculator.py:35-40 | every key maps to its elements in order, and the keys are those that occur, in order of first occurrence |
| TraceIds.CalculateTraceIds | cli/polygonetl/service/trace_id_calculator.py:26-41 | every trace gets the identifier of its row |
| TraceIds.IdIsPieces | cli/polygonetl/service/trace_id_calculator.py:39-52 | an identifier is its type, block, transaction and address parts joined in one go |
| TraceIds.IdReadsBack | cli/polygonetl/service/trace_id_calculator.py:39-52 | split at the underscores, an identifier gives back type, block, transaction and address, in this order |
| TraceIds.TraceIdInjective | cli/polygonetl/service/trace_id_calculator.py:39-52 | with types without underscore, equal identifiers mean equal type, block, transaction and address |
| TraceIds.IdsAreUniqueIffNoTypeExtendsAnother | cli/polygonetl/service/trace_id_calculator.py:39-52 | for every set of types: identifiers tell apart all rows of these types iff no type is another one, an underscore and the front of a place (a block, then perhaps an index or None, then numbers) |
| TraceIds.ExtendsMeansSameId | cli/polygonetl/service/trace_id_calculator.py:51-52 | for every such pair of types there are two different rows with the same identifier |
| Decimal.StrRoundTrip | cli/polygonetl/service/trace_id_calculator.py:48-52 | a decimal reads back as its number and holds digits only |
| Decimal.StrOfAllDigits | cli/polygonetl/service/trace_id_calculator.py:48-52 | the digits are the ten decimal ones, highest place first |
| Decimal.JoinInjective | cli/polygonetl/service/trace_id_calculator.py:44-52 | joining with a separator that occurs in no part is injective |
| ExtractTraces.ExtractGethTraces | cli/polygonetl/jobs/extract_geth_traces_job.py:49-61 | one exported row for each call, in order; for distinct blocks status 0 iff the call or one above it in the tree has an error, identifiers are distinct if no type extends another, and nothing is raised |
| ExtractTraces.FailedIsPathFails | cli/polygonetl/jobs/extract_geth_traces_job.py:57-57 | failure computed on the flat list is failure on the path from the root of the tree |
| ExtractTraces.FlattenedIsSound | cli/polygonetl/jobs/extract_geth_traces_job.py:50-57 | in flattened blocks every trace has its parent, so neither error can be raised |
| ExtractTraces.OrderOfRowsDoesNotMatter | cli/polygonetl/jobs/extract_geth_traces_job.py:50-58 | in any other order of the rows there is still no error, and the statuses are the same |
| ExtractTraces.AllPlaces | cli/polygonetl/jobs/extract_geth_traces_job.py:50-55 | no two rows of distinct blocks have the same block, transaction and address |
| TopologicalSort.Toposort | airflow/dags/polygonetl_airflow/parse/toposort.py:55-84 | terminates; each level holds exactly the items all of whose dependencies are on lower levels; the error data are the unemitted items with what they still wait for |
| TopologicalSort.LevelIsOneAboveDeps | airflow/dags/polygonetl_airflow/parse/toposort.py:57-61 | an item is emitted once, one level above the highest of its non-self dependencies |
| TopologicalSort.StuckIffDependsOnCycle | airflow/dags/polygonetl_airflow/parse/toposort.py:83-84 | the error data are exactly the items that depend on a cycle, the levels exactly the others |
| TopologicalSort.RaisesIffCycle | airflow/dags/polygonetl_airflow/parse/toposort.py:75-84 | the error is raised iff there is a cycle |
| TopologicalSort.CycleHasTwoItems | airflow/dags/polygonetl_airflow/parse/toposort.py:67-69 | as self-dependencies are dropped, a cycle has at least two items |
| TopologicalSort.ToposortFlatten | airflow/dags/polygonetl_airflow/parse/toposort.py:87-96 | fails iff there is a cycle, with the items that depend on one; otherwise lists the levels one after the other, each sorted if asked for and in any order if not |
| TopologicalSort.FlatteningMembers | airflow/dags/polygonetl_airflow/parse/toposort.py:93-96 | whatever lists the levels one after the other, sorted or not, lists every item once and after its dependencies |
| TopologicalSort.ListSorted | airflow/dags/polygonetl_airflow/parse/toposort.py:95-95 | the elements of a set, each once, each the least of those left |
| TopologicalSort.LeqMeans | airflow/dags/polygonetl_airflow/parse/toposort.py:95-95 | names are sorted by their first different character, and a name before those that it begins |
| TopologicalSort.ListAny | airflow/dags/polygonetl_airflow/parse/toposort.py:95-95 | the elements of a set, each once, in some order |
| TopologicalSort.ResultIsDetermined | airflow/dags/polygonetl_airflow/parse/toposort.py:87-96 | levels and sorted result are determined by the graph alone |
| TableStates.ReadTableDefinitions | airflow/dags/polygonetl_airflow/parse/table_definition_reader.py:14-40 | raises for a duplicate name, else for a reference to no table, else returns all definitions |
| TableStates.SortTopologically | airflow/dags/polygonetl_airflow/parse/table_definition_reader.py:98-109 | the same definitions, each after those it refers to; fails iff some are on a cycle |
| TableStates.FlagNext | airflow/dags/polygonetl_airflow/parse/table_definition_reader.py:51-60 | given right flags of the dependencies, the flag is right; the assertion fails iff the definition refers to itself |
| TableStates.ToposortAndReadStates | airflow/dags/polygonetl_airflow/parse/table_definition_reader.py:43-62 | a table is flagged iff its own hash or that of a table it reaches changed; the circularity error and the failed assertion each happen exactly in their case |
| TableStates.DirtyStep | airflow/dags/polygonetl_airflow/parse/table_definition_reader.py:52-58 | reachability of a change unfolds as: changed itself, or a direct dependency is dirty |
| TableStates.NewTableIsChanged | airflow/dags/polygonetl_airflow/parse/table_definition_reader.py:52-54 | a table without a stored hash has changed, unless its hash is empty |
| ParseState.ParseStateManager.SyncStateFile | airflow/dags/polygonetl_airflow/parse/parse_state_manager.py:25-33 | memory holds what the file holds, or nothing |
| ParseState.ParseStateManager.PersistState | airflow/dags/polygonetl_airflow/parse/parse_state_manager.py:64-133 | a rejected persist changes nothing; otherwise the state with its new version is in memory and, if the upload goes through, in the file. It is accepted iff the file is missing or has no version, or the versions are equal and, if the file has a day, both days are dates and the day stays or moves on by one; each error has its own case |
| ParseState.CheckDecides | airflow/dags/polygonetl_airflow/parse/parse_state_manager.py:88-127 | the check takes the right one of these decisions, for every file and every state |
| ParseState.DecisionIsUnique | airflow/dags/polygonetl_airflow/parse/parse_state_manager.py:88-127 | the cases exclude each other |
| ParseState.EveryDayCanBeStored | airflow/dags/polygonetl_airflow/parse/parse_state_manager.py:64-127 | for any number of consecutive days there is a run in which one process stores them all, one after the other |
| ParseState.PersistIsBasedOnCurrent | airflow/dags/polygonetl_airflow/parse/parse_state_manager.py:88-106 | a state that passes the check has seen every upload so far |
| ParseState.RunKeeps | airflow/dags/polygonetl_airflow/parse/parse_state_manager.py:25-133 | as long as the versions so far are distinct, they identify contents in every run of any number of processes |
| ParseState.NoLostUpdate | airflow/dags/polygonetl_airflow/parse/parse_state_manager.py:64-106 | if all versions but the last are distinct, each upload of any run is based on the one just before it |
| ParseState.RepeatedVersionLosesUpdate | airflow/dags/polygonetl_airflow/parse/parse_state_manager.py:88-106 | for any stamps in which a version comes back before the last, there is a run that overwrites an upload unseen |
| ParseState.NoUpdateIsLostIffStampsDiffer | airflow/dags/polygonetl_airflow/parse/parse_state_manager.py:64-133 | for every list of stamps and every first content whose day, if it has one, is a date: no run loses an update iff the first version and all stamps but the last are distinct |
| ParseState.NoUpdateIsLostFromEmptyBucket | airflow/dags/polygonetl_airflow/parse/parse_state_manager.py:64-133 | from an empty bucket, no run loses an update iff all stamps but the last are distinct |
| ParseState.NoDaySkipped | airflow/dags/polygonetl_airflow/parse/parse_state_manager.py:108-127 | in every run consecutive contents of the file have the same day or the next one |
| ParseRun.ProcessTables | airflow/dags/polygonetl_airflow/parse/parse_dataset_folder_logic.py:77-122 | processes exactly what is due, each table once and after its dependencies; at a failure, everything before it succeeded, and what the failed table depends on was processed or not due |
| ParseRun.AllUpdatedCountsDirty | airflow/dags/polygonetl_airflow/parse/parse_dataset_folder_logic.py:64-75 | the limit on updates counts the dirty tables |
| ParseRun.CommitHashes | airflow/dags/polygonetl_airflow/parse/parse_dataset_folder_logic.py:124-132 | the state becomes the old one with the hashes of the dirty tables, and nothing else changes |
| ParseRun.HashedIsUpToDate | airflow/dags/polygonetl_airflow/parse/parse_dataset_folder_logic.py:124-132 | then the stored hash of every table, refreshed or not, is the current one |
| ParseRun.ParseDatasetFolder | airflow/dags/polygonetl_airflow/parse/parse_dataset_folder_logic.py:37-135 | which way the run ends, each error and the normal return with its exact condition, the day included; a run that raises writes nothing; one that returns has processed all that was due, in order, and stored the hashes, the day and the version |
| ParseRun.EndIsDetermined | airflow/dags/polygonetl_airflow/parse/parse_dataset_folder_logic.py:37-135 | these conditions exclude each other, and the run returns iff a day is available, the definitions are usable, at most 50 tables are dirty, no table that is due fails, the version check passes and the upload goes through |
| ParseRun.DayForMeans | airflow/dags/polygonetl_airflow/parse/parse_dataset_folder_logic.py:37-51 | a given day is used; else a dataset uses its own stored day, and one without a state that of the common dataset |
| ParseRun.FiftyAreAllowed | airflow/dags/polygonetl_airflow/parse/parse_dataset_folder_logic.py:70-75 | a run with usable definitions starts iff at most 50 tables are dirty |
| ParseRun.CommittedAfter | airflow/dags/polygonetl_airflow/parse/parse_dataset_folder_logic.py:124-135 | what is stored has the day, the version and the current hash of every table not named like one of these two keys, and is otherwise unchanged |
| ParseRun.SecondRunRefreshesNothingIff | airflow/dags/polygonetl_airflow/parse/parse_dataset_folder_logic.py:64-68 | after a run that returned, no table of unchanged files is dirty iff a table named `_last_ds` has the day as its hash, and one named `_version` the version |
| HashJoin.Join | cli/polygonetl/streaming/enrich.py:43-57 | the result goes through the left keys in order of first occurrence and is, as a multiset, the nested-loop join |
| HashJoin.ByKeysIsNestedLoop | cli/polygonetl/streaming/enrich.py:49-50 | going group by group reorders the rows of the nested loop and does nothing else |
| HashJoin.NestedLoopIsAllPairs | cli/polygonetl/streaming/enrich.py:49-57 | the nested-loop join has one row for every pair of positions with equal keys, and no other |
| HashJoin.LeftOrderDoesNotMatter | cli/polygonetl/streaming/enrich.py:172-175 | joining the result of a join depends on its rows, not on their order |
| HashJoin.JoinOfMapped | cli/polygonetl/streaming/enrich.py:172-178 | joining rows to which a key was added is joining on that key computed on the fly |
| HashJoin.LengthCheckIsExact | cli/polygonetl/streaming/enrich.py:88-91 | with unique right keys there are as many rows as left rows iff each has a match, and then row i is made of left row i |
| HashJoin.CountIsExactIffNoDoubles | cli/polygonetl/streaming/enrich.py:88-91 | counting rows tells whether every left row makes one, for all left sides, iff no left row makes two |
| Enrichment.CombineKeepsFields | cli/polygonetl/streaming/enrich.py:31-55 | every listed field arrives under its new name, a missing one as None, and no other field does |
| Enrichment.FieldDictOfPlain | cli/polygonetl/streaming/enrich.py:31-38 | listing an unrenamed field twice changes nothing |
| Enrichment.JoinItems | cli/polygonetl/streaming/enrich.py:43-57 | raises iff a row of either side lacks its join field; otherwise the join in the source's order, which is the nested-loop join up to order |
| Enrichment.Enrich | cli/polygonetl/streaming/enrich.py:60-93 | a key error, a length error and success happen exactly in their cases, and success returns the join in the source's order |
| Enrichment.EnrichedIffAllMatch | cli/polygonetl/streaming/enrich.py:60-93 | with unique right keys the length check passes iff every row has a partner, and then each row appears once with both sides' fields |
| Enrichment.CheckIsExactIffKeysDistinct | cli/polygonetl/streaming/enrich.py:88-91 | for every shape and right side: the length check accepts exactly the left sides in which every row has a partner iff no two right rows have the same key |
| Enrichment.TransactionsWellFormed | cli/polygonetl/streaming/enrich.py:60-86 | no field of enriched transactions is written twice |
| EnrichOperations.EnrichTransactions | cli/polygonetl/streaming/enrich.py:60-93 | with the fields written out: every row has the sixteen fields of a transaction, six of the receipt with its hash under their receipt names, and nothing else; the key error is exact; with distinct hashes it succeeds iff every transaction has a receipt, and then each has a row |
| EnrichOperations.EnrichLogs | cli/polygonetl/streaming/enrich.py:96-117 | with the fields written out: every row has the eight fields of a log, block_timestamp and block_hash from the time and hash of its block, and nothing else; the key error is exact; with distinct blocks it succeeds iff every log has its block, and then each has a row |
| EnrichOperations.EnrichTokenTransfers | cli/polygonetl/streaming/enrich.py:120-141 | likewise for the eight fields of a token transfer |
| EnrichOperations.EnrichContracts | cli/polygonetl/streaming/enrich.py:212-232 | likewise for the seven fields of a contract |
| EnrichOperations.EnrichTokens | cli/polygonetl/streaming/enrich.py:235-256 | likewise for the seven fields of a token |
| Enrichment.CombineTakes | cli/polygonetl/streaming/enrich.py:50-55 | a row takes each field from the item that has it, None if it has not, under the name given for it |
| TraceEnrichment.KeyTextInjective | cli/polygonetl/streaming/enrich.py:172-175 | two text keys are equal iff block number and transaction index are, for all integers and None |
| TraceEnrichment.KeyTextReadsBack | cli/polygonetl/streaming/enrich.py:172-175 | split at the dash, a key gives back the block number and then the transaction index |
| TraceEnrichment.KeyedReadsBack | cli/polygonetl/streaming/enrich.py:172-175 | the key is stored under its name, made of the item's two fields, and the item keeps everything else |
| TraceEnrichment.AddKeys | cli/polygonetl/streaming/enrich.py:172-175 | adds the key to every row, or raises iff a row lacks one of the two fields |
| TraceEnrichment.EnrichTraces | cli/polygonetl/streaming/enrich.py:144-209 | each error exactly in its case; otherwise the two joins in the source's order, which are the two nested-loop joins up to order |
| TraceEnrichment.SameKeyIffTransactionOf | cli/polygonetl/streaming/enrich.py:172-178 | the second join meets exactly the transactions with the trace's block number and index |
| TraceEnrichment.TracesAreEnrichedIffAllMatch | cli/polygonetl/streaming/enrich.py:144-209 | with unique blocks and transactions the check passes iff every trace has both, and then there is one row for each, with the eighteen fields of the trace and the times and hashes of the transaction, written out, and nothing else |
| TraceEnrichment.RowsAreBlocksTimesTransactions | cli/polygonetl/streaming/enrich.py:145-204 | a trace makes as many rows as it has blocks times as it has transactions |
| TraceEnrichment.TraceCheckIsExactIffNoDoubles | cli/polygonetl/streaming/enrich.py:206-207 | for all blocks and transactions: the length check accepts exactly the traces that all have both iff a transaction whose block is there is alone with its numbers and the block with its number |
| CsvHeader.OneHeaderThenRows | cli/polygonetl/exporters.py:128-139 | with headers enabled, in every interleaving the file is one header and then rows; each row has, column by column, the item's value of the header's name or nothing if it has none; the file has its header before any call returns |
| CsvHeader.HeaderNames | cli/polygonetl/exporters.py:148-158 | the header is the configured list or, if that is missing or empty, the field names of one of the items |
| CsvHeader.OnlyRowsWithoutHeader | cli/polygonetl/exporters.py:71-95 | with headers disabled there are only rows, holding column by column the item's values, in the configured columns or the item's own |
| CsvHeader.EveryItemOnce | cli/polygonetl/exporters.py:128-139 | a call that returned wrote one row, every other call none |
| CsvHeader.NeverStuck | cli/polygonetl/exporters.py:130-134 | the lock is never left behind: until all calls have ended one can go on, also after a failed header |
| CsvHeader.WithHeaderKept | cli/polygonetl/exporters.py:128-158 | what ties flag, lock, fields and file together is kept by every step |

## Left out

- BatchExecutor.NextKeeps: the executors are a step system over values, not classes, because threads interleave between single field accesses; a handler call is one step.
- GraphSearch.GraphOperations.GetBoundsForYCoordinate: the estimate is an arbitrary integer, so the float arithmetic of `interpolate` and the number of probes are not modelled; the chain only grows at its end and is never reorganised.
- ParseState.ParseStateManager.PersistState: the gap between the version check and the upload is not modelled, nor is JSON that does not parse.
- ParseRun.ParseDatasetFolder: what others write during the sleep before a first run, and until the run persists, are arguments; how a table or view is made is a predicate that says which ones fail.
- TraceEnrichment.EnrichTraces: transactions get their key in place in the source; here the rows are values and the changed ones are returned, and what an error leaves half done is not modelled.
- Enrichment.Enrich: values are None, integers and texts, so equality across Python's other types is not modelled; block numbers and transaction indices are integers or None.
- CsvHeader.OneHeaderThenRows: CSV quoting, encodings and joining of multi-valued fields; items are dictionaries or classes alike, with their field names in order.
- CallTrees.IterateTransactionTrace: copied fields (addresses, value, gas, input, output) and lower-casing beyond ASCII.
- Parity, genesis and DAO fork traces: record copying, and the last two have no unique identifiers.
- `split_to_batches`, JSON lines and in-memory exporters, field-by-field mappers, domain classes.
- Reading and hashing definition files and matching references in them: names, hashes and references are given.
- web3 providers, BigQuery, GCS, Pub/Sub, Airflow operators, Beam pipelines and the streamer: input and output through libraries.
- Contract and token services: they depend on a disassembler and on contract calls.
