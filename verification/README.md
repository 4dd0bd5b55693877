# cbcopy, modelled and proved

cbcopy copies tables between two Greenplum or Cloudberry clusters. A coordinator replays the
definitions of the source database on the destination, with several statements in flight, and
hands every table that exists to copy workers; helper processes on the segments then stream the
rows of a table as CSV over sockets, where many streams can end in one output. This project
models the parts of that machinery where order, interleaving and agreement between separate
programs matter, and proves what they guarantee for every input and every run.

Verify with `dafny verify dfyconfig.toml`.

## What is modelled

**Streaming rows.** `CsvScan` is the quote/escape automaton, `RecordReader` says which bytes each
read of the buffered reader returns for any way a stream can arrive, and `CsvReader` is the
reader itself (a class over an array that is slid, refilled and rescanned), proved to compute
exactly that. Bytes are conserved always. Chunks end at record terminators for every arrival if
and only if the stream is *restartable*: the code starts its automaton afresh after every full
buffer, so a quoted field longer than the buffer that contains a line feed is cut inside the
field (`OverlongQuotedFieldIsCut`). Records that fit in the buffer make a stream restartable.
`MergeHandlers` and `MergeServer` are the connection handlers, the accept loop and the waiting
main goroutine (and the concurrent client) as a machine whose runs are arbitrary lists of
actions; a nil result means that the merged output parses into an interleaving of the streams.
`ServerProgress` shows that the helper comes to return, and that its result is nil if and only if
nothing failed. `CutText` and `CutMerge` prove that the condition for merging is exact: a stream can
be merged if and only if it is complete and restartable.

**Restoring definitions.** `DependencyGraph`, `TopologicalSort` and `Dependencies` order the
objects; `Toc` is the metadata file with its byte ranges; `RestorePhases` splits the table of
contents into phases and joins ordering, printing and scheduling into one statement about
execution; `Scheduler` is the parallel scheduler, parametric in ids and dependency map, as a
machine over its locked and channel steps. Statements read back from the table of contents carry
zero ids (meta/builtin/toc/toc.go:141-142), and the dependency map the scheduler consults is the
global of meta/builtin/variables.go:51, which a local of the same name hides in
meta/builtin/extract_helper.go:464, so in practice the run is serial: that is proved too.

**Handing over tables.** `TableMap` encodes and decodes the map of tables to copy, `TableHandoff`
is the machine of workers, cleanup and copiers that empties it, `HandoffRelease` says which table is
released by which statement, and `HandoffProgress` shows that it comes to its end. `SerialHandover`
joins it with the scheduler, as the worker loop does, and `PhaseRun` with the entries of the table
of contents.

**Matching segments.** `PortList` and `SegmentMatching` make the address lists and client counts;
`Connections` follows them through the command lines to the helpers that pick their part of them by
segment id, and joins both sides: who listens, who dials, and how often.

**Planning.** `Destination`, `SkipExisting`, `PairFilter` and `SkipRecords` are the
--skip-existing filters on definitions and on data, and the list of what was skipped;
`IndexOrder` is the parents-first order of partition indexes; `DollarQuote` is the quoting of
literals against the lexer of section 4.1.2.4 of the PostgreSQL documentation.

Where the code falls short of what one would state first, the exact condition is proved:
chunk boundaries (restartable streams), merging (complete and restartable streams), the table
map's round trip (names without dots) and completeness (no destination name twice),
all-or-nothing partition trees (no member more than 16 steps below a root that exists), index
order (no index is its own ancestor), dollar quoting (literals without `$_XXXXXX`).

The comment on FilterTablesByDestExisting says that a tree whose root exists is skipped as a
whole; the walk to the root is bounded, and the model follows the code.

## Model

| member | source | states |
|---|---|---|
| CsvScan.QuoteParity | internal/reader/csv_reader.go:37-62 | with equal quote and escape bytes the automaton is inside quotes exactly after an odd number of quotes |
| CsvScan.HelperTerminators | internal/reader/csv_reader.go:37-62 | as the helper configures it, a record ends exactly at a line feed after an even number of quotes |
| CsvScan.TerminatorBytes | internal/reader/csv_reader.go:37-92 | in every format a record ends exactly at its end-of-line bytes outside quotes |
| CsvScan.RestartAtBoundary | internal/reader/csv_reader.go:37-92 | a scan begun at a true record boundary sees the same terminators from there on as a scan of the whole stream |
| CsvScan.CountSplit | internal/reader/csv_reader.go:37-92 | counts of two parts cut at a boundary add up |
| CsvReader.Source.Read | internal/reader/reader.go:43-71 | any io.Reader: delivers the next bytes of the stream, in any portions, with any error allowed |
| CsvReader.CsvReader.Fill | internal/reader/reader.go:43-71 | slides and refills the buffer without ever overfilling it, gives up after 100 empty reads; buffered bytes stay the undelivered part of the stream |
| RecordReader.GivesUpAfterHundred | internal/reader/reader.go:43-71 | a hundred reads in a row that bring nothing end in an error and lose nothing; what the hundredth brings is still taken |
| CsvReader.CsvReader.ParseNlOrCr | internal/reader/csv_reader.go:37-62 | finds the last terminator of a buffer and counts all of them, as the one-pass automaton defines them |
| CsvReader.CsvReader.ParseCrNl | internal/reader/csv_reader.go:64-92 | the same for two-byte terminators |
| CsvReader.CsvReader.ReadRecord | internal/reader/reader.go:82-115 | terminates; returns exactly the bytes after those returned before, ending as the position model says |
| CsvReader.CsvReader.Read | internal/reader/reader.go:117-130 | returned chunks always concatenate to the stream; joined over full buffers |
| RecordReader.ReadRecordSound | internal/reader/reader.go:82-115 | where each kind of outcome leaves the stream: a record ends at a terminator of a scan begun where the buffer began, a full buffer holds none |
| RecordReader.ReadSpans | internal/reader/reader.go:117-130 | all a Read without an error does: it passes over full buffers without a terminator and ends at one a scan of the next buffer sees |
| RecordReader.ChunksEndAtTerminatorsIff | internal/reader/reader.go:82-130 | for every stream and buffer size: all chunks end at true terminators however the bytes arrive, if and only if the stream is restartable |
| RecordReader.FittingIsRestartable | internal/reader/reader.go:102-107 | records that fit in the buffer make the stream restartable |
| RecordReader.FittingNeverOverflows | internal/reader/reader.go:102-107 | and then no pass from a boundary reports a full buffer |
| RecordReader.OverlongQuotedFieldIsCut | internal/reader/reader.go:102-107 | the family of streams, one for every buffer size, that shows the restart failing: arriving byte by byte, the first Read returns a chunk that ends at a line feed inside quotes |
| RecordReader.CountIsExact | internal/reader/reader.go:117-134 | when records fit, Count is the number of terminators returned and a chunk without error ends at a boundary |
| RecordReader.EofMeansAll | internal/reader/reader.go:117-130 | end of file is reported only when every byte was returned |
| CsvRecords.RecordsConcat | helper/concurrent_server.go:26-32 | whole records written one after another parse as the concatenation of their records |
| CsvRecords.InterleavingIsUnion | helper/concurrent_server.go:26-77 | an interleaving holds each record as often as all streams together |
| MergeHandlers.StepKeepsInv | helper/concurrent_server.go:26-77 | every handler step keeps: what a connection sent is a prefix of its stream, a fault is recorded before its finish, finishes are counted once |
| MergeHandlers.StepKeepsWhole | helper/concurrent_server.go:38-77 | for complete restartable streams, all chunks written without a fault consist of whole records |
| MergeHandlers.AllFinishedMeansDrained | helper/concurrent_server.go:38-77 | all counted finished and no error means every stream was written in full |
| MergeHandlers.DrainedOutputInterleaves | helper/concurrent_server.go:26-77 | then the output parses into an interleaving of the streams' records |
| MergeServer.CountersOrdered | helper/server.go:122-168 | in every run finished <= accepted <= expected |
| MergeServer.ErrorSticks | helper/server.go:93-101 | an error once set is never cleared |
| MergeServer.NilMeansDrained | helper/helper.go:63-81 | whenever listening ends with nil, all connections were accepted, read to the end and written in full |
| MergeServer.NilMeansMerged | helper/concurrent_server.go:26-77 | and for complete restartable streams the output is an interleaving of their records, each connection's in order |
| MergeServer.FittingStreamsMerge | helper/concurrent_server.go:26-77 | complete streams whose records fit in the buffer satisfy that condition |
| MergeServer.ClientNilMeansMerged | helper/concurrent_client.go:30-86 | the same for the concurrent client's goroutines |
| ServerProgress.PollingEnds | helper/server.go:104-120 | in every run: once an error is set, or all connections are counted, polling alone makes the helper return within four steps, and it returns what the error field holds |
| ServerProgress.SettledIsDecided | helper/server.go:104-168 | where no accept and no handler step is possible any more, there is an error or a full count: the wait cannot last forever |
| ServerProgress.ServerComesToAnEnd | helper/helper.go:63-81 | a run has boundedly many actions besides polling, and where only polling is left the helper comes to return the error field |
| ServerProgress.NilIffNothingFailed | helper/helper.go:63-81 | in every run that returns, the result is nil if and only if nothing failed: not the start, the announcement or an accept, nor the set-up, a read or a write of a handler |
| ServerProgress.ErrorIsLatest | helper/server.go:97-101 | the error field holds the latest report, a later one replacing an earlier one, and nothing exactly when there was none |
| ServerProgress.ClientCanAct | helper/concurrent_client.go:30-86 | until it has returned, the dialling helper can act, and once all its goroutines are finished it can return the error field |
| ServerProgress.ClientNilIffNothingFailed | helper/concurrent_client.go:30-86 | its result is nil if and only if nothing failed |
| CutText.CompanionIsLost | helper/concurrent_server.go:26-32 | a record written where another stream stands inside a record is not a record of the output |
| CutMerge.ServerMergesIff | helper/concurrent_server.go:26-77 | exactly which streams the listening helper merges: every nil run with complete, restartable companions is a full merge if and only if the stream is complete and restartable itself |
| CutMerge.ClientMergesIff | helper/concurrent_client.go:30-86 | the same if-and-only-if for the dialling helper |
| CutMerge.OverlongRecordSpoilsMerge | internal/reader/reader.go:102-107 | the concrete input: for every buffer size a stream of one record that neither helper merges safely |
| DependencyGraph.OrderedIsAcyclic | meta/builtin/dependencies.go:90-139 | a list with dependencies first has no cycle |
| DependencyGraph.StuckIsCyclic | meta/builtin/dependencies.go:90-139 | objects that all wait for one another contain a cycle |
| TopologicalSort.Sort | meta/builtin/dependencies.go:90-139 | ends on every input; for distinct ids it succeeds exactly when dependencies are listed and acyclic, and returns a permutation with dependencies first |
| Dependencies.BuildDependencyMap | meta/builtin/dependencies.go:236-262 | y is a dependency of x exactly when a row says so and x and y are different listed objects, of whatever catalogs |
| Dependencies.BreakCircularDependencies | meta/builtin/dependencies.go:267-281 | the same result for every order of iteration over the map |
| Dependencies.BreakingRemovesExactly | meta/builtin/dependencies.go:267-281 | exactly the function-to-type edges whose reverse exists are removed, none is added |
| Dependencies.NoMutualLeft | meta/builtin/dependencies.go:267-281 | no type and function depend on each other afterwards, and the type keeps its edge |
| Dependencies.BreakingKeepsAcyclic | meta/builtin/dependencies.go:267-281 | breaking introduces no cycle |
| Dependencies.OrderDependentObjects | meta/builtin/extract_helper.go:463-469 | from catalog rows to an ordered list; fails only for a cycle that breaking left |
| Scheduler.ExecInv | meta/builtin/parallel_depend.go:167-258 | every run keeps: registered statements stay in the running table until executed, and a cleared statement has nothing left to wait for |
| Scheduler.StartsInListOrder | meta/builtin/parallel_depend.go:190-207 | statements start in list order, each at most once |
| Scheduler.SendNeverBlocks | meta/builtin/parallel_depend.go:190-207 | the channel always has room for the statement the loop has registered |
| Scheduler.FlightLimit | meta/builtin/parallel_depend.go:167-188 | at most numTasks are in flight |
| Scheduler.IndependentRunTogether | meta/builtin/parallel_depend.go:167-207 | and as many can be: independent statements, up to the limit and the connections, can all be executing at once |
| Scheduler.NoEarlyStart | meta/builtin/parallel_depend.go:154-207 | if listed dependencies first, nothing starts before its listed dependencies and earlier statements of the same id have finished |
| Scheduler.SameIdsRunSerially | meta/builtin/parallel_depend.go:167-188 | with one id for all, executions alternate start and finish in list order on any number of connections |
| Scheduler.SerialMeansOrdered | meta/builtin/parallel_depend.go:167-207 | then each starts after all earlier ones have finished |
| Scheduler.NoDeadlock | meta/builtin/parallel_depend.go:190-233 | in every reachable state that is not done some step changes the state |
| Scheduler.RunsEnd | meta/builtin/parallel_depend.go:190-233 | every run ends: at most six state changes for each statement and one to close the channel |
| Scheduler.DoneMeansExecuted | meta/builtin/parallel_depend.go:209-233 | a finished run has executed every statement |
| TableMap.RoundTripIff | copy/copy_query_wrapper.go:289-301 | an encoded source table decodes to itself, with any int64 count, exactly when its names have no dots |
| TableMap.KeyRoundTripIff | meta/builtin/parallel_depend.go:260-284 | the same for the destination name cleanup reads from a key |
| TableMap.ValueIsRead | meta/builtin/parallel_depend.go:90-123 | what any map value says, by its parts between dots: fewer than three cannot be read, and only a fourth part "true" makes the table replicated |
| Strings.ParseClamps | meta/builtin/parallel_depend.go:98-106 | a tuple count of 64 bits is read as written and a larger one as the nearest, the error being ignored |
| Strings.ParseBad | meta/builtin/parallel_depend.go:98-106 | and a text that is no number as 0 |
| Strings.ParsePlus | meta/builtin/parallel_depend.go:98-106 | a plus sign in front of digits makes no difference |
| TableMap.QualifyInjective | copy/copy_query_wrapper.go:289-301 | the key of names without dots is the key of no other names |
| TableMap.FormUserTableMap | copy/copy_query_wrapper.go:289-301 | one entry per destination name, the last table winning; as many entries as tables if and only if no name is repeated |
| TableHandoff.ExecConserves | meta/builtin/parallel_depend.go:33-152 | in every run, what was sent, is held by a worker or is left in the map adds up to the initial map |
| TableHandoff.SentExactlyOnce | meta/builtin/parallel_depend.go:90-152 | when the channel is closed every entry has been sent exactly once, and nothing else |
| TableHandoff.SentAfterAttempt | meta/builtin/parallel_depend.go:33-152 | a worker sends a pair only after a TABLE statement that releases it was attempted: with declarative partitions the statement of exactly that table, otherwise that or the statement of a root it is listed under |
| TableHandoff.TargetsAreReleased | meta/builtin/parallel_depend.go:33-88 | the tables looked up for a statement are exactly those: the table itself, or the leaves listed for an old-style root by the first two parts of their names |
| HandoffRelease.ReleasedTablesAreTaken | meta/builtin/parallel_depend.go:33-123 | conversely, once the worker of a TABLE statement is done, nothing the statement releases is left in the map |
| HandoffRelease.CleanupSendsTheRest | meta/builtin/parallel_depend.go:260-284 | so what cleanup sends is released by no TABLE statement |
| TableHandoff.WorkerNeverBlocks | meta/builtin/parallel_depend.go:125-152 | with a channel as large as the map no worker's send blocks |
| TableHandoff.CleanupNeverBlocks | meta/builtin/parallel_depend.go:260-284 | nor does cleanup's |
| TableHandoff.WithinCapacity | copy/copy_metadata.go:66 | in every run the channel holds no more pairs than it was made for |
| TableMap.EncodedCanBeRead | meta/builtin/parallel_depend.go:90-104 | whatever dots the names hold, a map entry has the parts that its readers index |
| HandoffProgress.PlannedSendsNeverBlock | copy/copy_metadata.go:66 | the channel made for the destination tables is that large: no send blocks, neither a worker's nor cleanup's |
| HandoffProgress.SomebodyCanAct | meta/builtin/builtin.go:408-444 | until the channel is closed somebody can act, even if no copier ever receives |
| HandoffProgress.RunsEnd | meta/builtin/builtin.go:408-444 | and only boundedly often, so every run comes to close the channel |
| HandoffProgress.PlannedTablesAreDelivered | copy/copy_query_wrapper.go:289-301 | from planner to closed channel: where a run of a planned map can go no further the channel is closed and every entry was sent once |
| SerialHandover.Projects | meta/builtin/parallel_depend.go:125-152 | scheduler and hand-off joined as the worker loop joins them: every joint run is a run of each |
| SerialHandover.ExecutedIsLast | meta/builtin/parallel_depend.go:167-258 | with one id for all, nothing has started beyond the statement whose worker has not removed it |
| SerialHandover.SentWhileQuiet | meta/builtin/parallel_depend.go:141-150 | when a worker sends a pair, its statement and all before it were executed and no later one has started |
| SerialHandover.ExecutionNeverHeldUp | meta/builtin/parallel_depend.go:125-152 | the hand-off does not keep a statement from being completed |
| SerialHandover.PhaseCanGoOn | meta/builtin/parallel_depend.go:125-152 | until the channel is closed somebody can make a move that changes the joint state, even if no copier receives: scheduler and hand-off never wait for each other |
| SerialHandover.PhaseEnds | meta/builtin/parallel_depend.go:125-233 | and the number of moves of a run is bounded beforehand, so phase and cleanup come to their end |
| SerialHandover.CleanupComesLast | meta/builtin/builtin.go:408-444 | cleanup begins only when every statement is executed, the channel of statements is closed and all workers are idle |
| SerialHandover.DoneMeansHandedOver | meta/builtin/parallel_depend.go:209-258 | when all statements are executed nothing is pending and no worker holds a table |
| PhaseRun.SeenIsEntry | meta/builtin/toc/toc.go:131-146 | statement i of the phase has schema and name of entry i, and is a TABLE statement exactly if the entry's type is TABLE |
| PhaseRun.SentForItsEntry | meta/builtin/parallel_depend.go:125-152 | from recorded entry to copier: a pair is sent for a TABLE entry with its name (or its root's), whose statement and all earlier ones were executed while no later one has started |
| TableHandoff.SentPairIsRight | meta/builtin/parallel_depend.go:90-123 | whoever sends it, the pair for a destination is its source table |
| TableHandoff.EveryTableSentOnce | meta/builtin/builtin.go:408-444 | planner to copiers: each planned table is sent once, and every pair sent is a planned one |
| PortList.ProcessPortList | copy/copy_port_helper.go:89-115 | one row per content, in increasing order of content, each port one that was reported |
| PortList.OrderAndRepetitionIgnored | copy/copy_port_helper.go:89-115 | order and repetition of the rows do not matter |
| PortList.FullListIsAligned | copy/copy_port_helper.go:89-115 | a list as long as the number of contents has content i at position i |
| SegmentMatching.CreateCopyStrategy | copy/copy_command.go:554-597 | replicated and small tables, and no others, go through the coordinators; segments are paired for equal versions and sizes only, and always then; every strategy suits the cluster sizes |
| Connections.AwaitsAllListeners | copy/copy_command.go:494-499 | for every strategy and mode the count that ends the wait is the number of helpers started with --listen |
| SegmentMatching.FormAllSegsHelperAddress | copy/copy_command.go:49-71 | the texts of the list whose entry i is the port and host of listener i, in either mode |
| SegmentMatching.FormDestSegsHelperAddress | copy/copy_command.go:73-92 | the texts of the list that gives source i destination i mod D |
| SegmentMatching.FormSrcSegsHelperAddress | copy/copy_command.go:94-106 | the texts of the list whose entry i is the port and host of source i |
| SegmentMatching.FormClientNumbers | copy/copy_command.go:374-408 | entry d is the number of sources assigned to destination d |
| SegmentMatching.ClientNumbersSum | copy/copy_command.go:374-408 | the counts sum to the number of sources |
| SegmentMatching.NumberListRoundTrip | helper/server.go:174-188 | the list of counts survives the command line |
| SegmentMatching.ExpectsWhatIsWritten | helper/server.go:174-188 | a listener expects the count written for its segment, reduced to 32 bits, and one connection where the count is missing or not above one |
| SegmentMatching.ConcurrentTargets | helper/concurrent_client.go:30-40 | the strided loop visits d, d+D, d+2D, ... below S |
| SegmentMatching.StridesPartitionSources | helper/concurrent_client.go:30-40 | when S > D, destination d dials source s exactly when s mod D is d, and takes the concurrent branch |
| SegmentMatching.DialsItsEntry | helper/one_time_client.go:24-37 | otherwise a helper dials the entry of its id, the coordinator's helper the first, and nothing where there is none |
| Connections.ListIsAligned | copy/copy_command.go:265-267 | once the wait has ended, entry l of the port list is a port that listener l reported |
| Connections.WhoTakesPart | copy/copy_command.go:108-451 | which helpers are started: the coordinators' for small tables, else those of the source segments, and of the destination segments that have something to receive |
| Connections.ListSurvives | helper/config.go:207-212 | lists of ports and hosts arrive at the helper as they were written |
| Connections.DialsListeners | copy/copy_command.go:213-313 | in every strategy and mode the ports and hosts a dialling helper picks by its id are the reported ports and the hosts of listeners |
| Connections.AwaitsItsSources | copy/copy_command.go:436-451 | a listener reads from its command line the number of sources assigned to it |
| Connections.EveryListenerReached | copy/copy_command.go:410-451 | from port reports to connections: the dialling helpers together connect to each listener's host and reported port exactly as often as it waits for |
| Connections.OnlyListenersReached | helper/one_time_client.go:24-50 | and to nothing else |
| Connections.DirectionsMatch | copy/copy_command.go:136-451 | helpers of the source cluster send and those of the destination receive, and one side listens exactly when the other dials |
| IndexOrder.SortIndexes | meta/builtin/queries_postdata.go:217-255 | ends for any parent references; each oid once, as its row says, with the qualified name of its parent; parents first if and only if no index is its own ancestor |
| IndexOrder.Climb | meta/builtin/queries_postdata.go:224-240 | the search visits new indexes only, along a chain of parents that stops where there is no parent or a visited one |
| IndexOrder.PoppedParentsFirst | meta/builtin/queries_postdata.go:242-251 | emptying the stack keeps parents first in a forest |
| IndexOrder.ParentsFirstMeansForest | meta/builtin/queries_postdata.go:213-255 | a cycle of parents cannot be listed parents first |
| SkipExisting.FilterTables | meta/builtin/skip_existing.go:269-378 | the two passes keep and record exactly what the decision for each table says, in order |
| SkipExisting.WalkToRoot | meta/builtin/skip_existing.go:386-405 | the bounded walk up the inheritance chain |
| SkipExisting.DropsIff | meta/builtin/skip_existing.go:269-405 | for every list: a table is dropped exactly when a chain within the limit leads to a root on the destination, or its external leaf is there under its suffix |
| SkipExisting.FilterDropsIff | meta/builtin/skip_existing.go:269-405 | by names: a table with a root is dropped exactly when the root, at most 16 steps up, is there under the schema the root's schema is mapped to, or an external leaf under its suffix |
| SkipExisting.FilterDropsTopIff | option/option.go:485-511 | a table without a parent is dropped exactly when its name is there under the mapped schema, or under its own schema if that is not mapped or mapped to the empty name |
| SkipExisting.MemberFate | meta/builtin/skip_existing.go:305-370 | a table with a complete chain survives exactly when its root is absent or too far away (and no suffixed copy exists) |
| SkipExisting.TreesStayWholeIff | meta/builtin/skip_existing.go:260-268 | partition trees are all or nothing exactly when no member lies too deep below a root on the destination |
| SkipExisting.DeepTreeSplits | meta/builtin/skip_existing.go:386-405 | the tree that comes apart: its leaf is one step below the limit |
| SkipExisting.RecordsAccountForAll | meta/builtin/skip_existing.go:305-370 | one record per dropped table; all others are warnings about half-built leaves |
| SkipExisting.RecordsSay | meta/builtin/skip_existing.go:305-370 | what each record says: the table on both sides, under the mapped schema, and which of the four reasons applies |
| SkipRecords.Dedup | meta/builtin/skip_existing.go:118-149 | one entry per destination table, at its first record, with the best reason recorded |
| SkipRecords.ReportedOnce | meta/builtin/skip_existing.go:118-149 | every recorded destination table is reported, and none twice |
| SkipRecords.ReportedReason | meta/builtin/skip_existing.go:111-149 | a half-built leaf is reported as such, else an existing root, else an existing table |
| SkipRecords.BestIgnoresOrder | meta/builtin/skip_existing.go:111-117 | the reason reported does not depend on which filter recorded first |
| PairFilter.InvertPairing | copy/copy_metadata.go:140-145 | for any order of iteration each leaf is sent to a root that lists it |
| PairFilter.FilterPairs | copy/copy_metadata.go:133-179 | both lists lose the same positions, those the inverted map says, and each loss is recorded |
| PairFilter.RootExistingIff | copy/copy_metadata.go:147-153 | cutting the root at its first dot and joining it again loses nothing |
| PairFilter.StayingIff | copy/copy_metadata.go:155-178 | exactly the pairs not skipped stay, once each and in order |
| PairFilter.SkipsIff | copy/copy_metadata.go:147-178 | by names: a pair is skipped exactly when its table, or the root its leaf is listed under, is there |
| PairFilter.PairRecordsSay | copy/copy_metadata.go:155-178 | the records name exactly the skipped pairs, source and destination |
| PairFilter.PairStaysIff | copy/copy_metadata.go:115-132 | with a truthful partition map a pair stays exactly when neither its table nor its root is on the destination |
| PairFilter.NoPairWithoutTable | copy/copy_metadata.go:115-132 | no pair survives for a table whose definition is dropped because of its root |
| PairFilter.WhereFiltersDiffer | meta/builtin/skip_existing.go:305-370 | at any depth: when a definition is kept and its pair skipped, and when it is the other way round |
| FilterSets.NewChoice | meta/builtin/toc/toc.go:148-166 | the set lets through what is on the include list or, without one, what is not on the exclude list |
| FilterSets.NewSet | utils/set.go:25-32 | matches exactly the listed names |
| Toc.MetadataFile.MustPrint | utils/io.go:133-137 | appends, and the byte count stays the length of the file |
| Toc.TableOfContents.AddMetadataEntry | meta/builtin/toc/toc.go:282-286 | appends the entry with its range to its section, and changes no other section |
| Toc.TableOfContents.GetStatements | meta/builtin/toc/toc.go:131-146 | the selected entries in order, each with its schema, name, type, reference, the text of its range and zero ids; fatal exactly when the range of a selected entry cannot be read |
| Toc.PrintStatements | meta/builtin/predata_acl.go:70-94 | every statement becomes an entry, marked as metadata in postdata, whose range brackets it; ranges that bracketed writes still do |
| Toc.StatementReadsBack | meta/builtin/predata_acl.go:70-94 | whatever is printed later: the entry of each statement has the object's names, its type (marked as metadata in postdata) and reference, and its range reads back that statement between line feeds |
| Toc.RangeReadsBack | utils/io.go:121-137 | a range between two byte counts holds what was printed in between, whatever follows |
| Toc.EntryReadsBack | meta/builtin/toc/toc.go:131-146 | for every history with bracketing ranges each entry reads back the text printed for it |
| Toc.BracketedInFile | meta/builtin/toc/toc.go:137-140 | and selecting is never fatal |
| Toc.OnlyTypeDecides | meta/builtin/toc/toc.go:168-189 | without schema and relation filters only the object type decides |
| Toc.ShouldIncludeIff | meta/builtin/toc/toc.go:168-189 | the four alternatives in terms of the lists; with an exclude list an entry that refers to a relation is selected by that relation alone |
| RestorePhases.LeftOutAreOwned | meta/builtin/restore_helper.go:214-221 | the dependent-objects phase leaves out exactly the types that have a phase of their own |
| RestorePhases.ExactlyOnePhase | meta/builtin/builtin.go:408-444 | every predata entry is selected by exactly one phase, whatever it refers to |
| RestorePhases.PhasesPartition | meta/builtin/builtin.go:408-444 | each entry is restored as often as it was recorded: in its phase and in no other |
| RestorePhases.EarlyPhases | meta/builtin/builtin.go:419-424 | by type: schemas, extensions, collations, types, operator families and sequences have the phases before the dependent objects, in this order |
| RestorePhases.LatePhases | meta/builtin/builtin.go:432-437 | languages, exchanged partitions, sequence owners, conversions and constraints those after them, in this order |
| RestorePhases.TablesAreDependent | meta/builtin/restore_helper.go:214-221 | tables, views, functions, domains and aggregates are dependent objects |
| RestorePhases.RestoredIsAll | meta/builtin/builtin.go:408-444 | the phases together execute every recorded entry as often as it was recorded |
| RestorePhases.RestoredInOrder | meta/builtin/builtin.go:408-444 | and never an entry of a later phase before one of an earlier phase |
| RestorePhases.StatementsOfObject | meta/builtin/dependencies.go:284-340 | the statements printed for an object are a contiguous part of its phase, in the order of the objects |
| RestorePhases.CreatedAfterDependencies | meta/builtin/parallel_depend.go:167-207 | end to end: in every run a statement of an object starts only after all statements of its dependencies in the phase have finished |
| DollarQuote.DollarQuoteString | utils/util.go:61-73 | the literal between two copies of the first tag whose opening it does not contain |
| DollarQuote.TagExistsIff | utils/util.go:61-73 | there is such a tag exactly when the literal does not contain `$_XXXXXX` |
| DollarQuote.ClosesAtTheEnd | utils/util.go:61-73 | the tag does not occur again before the end, not even across the border of literal and tag |
| DollarQuote.RoundTripIff | utils/util.go:61-73 | whatever SQL follows, the lexer recovers the literal and the rest exactly when the literal does not contain `$_XXXXXX` |
| DollarQuote.Unquotable | utils/util.go:61-73 | a literal that contains it is not quoted at all |
| DollarQuote.UnquotableExample | utils/util.go:61-73 | `$_XXXXXX` itself is such a literal, and the lexer does not recover it |

## Left out

- Sharing of memory by the slices a reader returns: records are values, so overwriting of the buffer by a later read is not visible.
- Readers that return negative counts or more bytes than asked for; the text and custom-delimiter readers, which are not used for this transfer.
- The quit path of the accept loop and Stop, one-time servers in the claim that nil means drained (a failed compression setup there sets no error), and the CopyOperation cancel path.
- Memory ordering: goroutine steps interleave, each step is atomic, and reads of the error and the counters see the latest value.
- Sockets, dialling retries, compression, signals, progress bars, logging, flags.
- The strategy override read from the environment. Host names are taken to hold no commas, and no two helpers on one host to listen on the same port.
- MergeHandlers.StepKeepsWhole: speaks of the CSV reader only, because the merge is only used with it.
- SQL queries and the DDL printers: rows and statement texts are inputs. Rewriting of statements by regular expressions and redirection of schemas changes texts, not order or ids.
- AddProtocolDependenciesForGPDB4, which adds edges for one old version before sorting.
- Dependencies.BuildDependencyMap: takes catalog rows as given; the query that finds them is not part of this model.
- IndexOrder.SortIndexes: takes the rows with a definition on versions that attach partition indexes; filtering of dropped indexes and the older versions' unsorted result are not modelled.
- Dependencies between objects of different phases: the phases run in a fixed order by type (RestorePhases.RestoredInOrder), and only inside the dependent-objects phase is the sorted order kept.
- SkipExisting.FilterTables: the suffixed name of an external leaf is a parameter, because its length handling is not the point here; the names of the databases only travel into the records.
- PairFilter.PairStaysIff: speaks of leaves and of tables without a parent; partitions in between hold no rows and have no pair.
- Filling of the inventories by MarkDestTables and of the schema map by GetSchemaMap; Toc.MetadataFile.MustPrint: the byte count does not wrap at 64 bits.
- copy_validator.go, version comparison, ACL printing and table batching: they decide single cases and keep no state that other parts rely on.
