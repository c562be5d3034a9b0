# Verified models of the simulation tools

Four self-contained algorithms of the repository, modelled in Dafny and proved correct for all inputs.
`dafny verify dfyconfig.toml` checks everything.

- **Configuration paths** (`LabelledGraph`, `TypeRegistry`, `StaticInformation`, `ConfigPaths`,
  `ConfigEdges`, `UniqueRecords`). `print-introspected-doxygen` searches the graph of registered types depth first, with
  two explicit stacks, and records a path at every visit. The graph part knows nothing about types: it
  defines walks, simple paths and their enumeration. The class `StaticInformation` keeps the fields of the
  original and is proved against that enumeration.
- **UE traces** (`UeTraces`, `UeTraceLoader`, `Replay`, `Traffic`, `Scenario`). The rows of a trace file are
  grouped by UE and stably sorted, replayed through the simulator's event list up to its stop event, and
  compiled into traffic intervals. All three are compared with one step function of time: the sample in
  force at t is the last one with time at most t. `Scenario.RunScenario` joins them.
- **The worker pool of the test runner** (`WorkerPool`, `WorkerPoolProgress`, `WorkerPoolResults`,
  `WorkerPoolInterrupt`, `TestResults`, `TestReport`). Dispatcher, workers, interrupt and collector are steps of a state machine that may be
  interleaved in any order. A worker's job loop is split where another thread can act: taking a job, looking
  at the interrupt flag, the return of the process, putting the job back. What a job's process would return
  is a parameter; a launched process is assumed to return.
- **The scheduler benchmark** (`Bench`, `Welford`). The event population under an arbitrary choice of the
  next event and arbitrary delays, the suite around it, and the running mean and second moment over reals.

`Wrappers` holds the shared option and result types, `Positions` what is said of lists of positions.

Where the code and its own comments disagree, the model follows the code:

- `Uniquefy` is documented as working in place (`print-introspected-doxygen.cc:408-429`) but takes its
  argument by value, so `Gather` keeps repeated records; `ns3::Icmpv4L4Protocol` is even registered on
  `ns3::Node` twice (lines 565 and 567). `UniqueRecords.RecordsUniqueIff` says, over all roots, when there are none.
- `BenchSuite` is documented as setting the scheduler for the priming run and the data runs
  (`bench-scheduler.cc:182-195`). `Bench::Run` ends with `Simulator::Destroy`, and the next use of the
  simulator creates one with the default scheduler (`src/core/model/simulator.cc:103-161`).
  `Bench.RunSuite` states what follows.
- A negative limit on the worker threads is accepted and starts none (`test.py:1601-1615`);
  `WorkerPoolProgress.HangsExactlyForNegativeLimit` states what follows.

## Model

| member | source | states |
|---|---|---|
| StaticInformationModel.StaticInformation.DoGather | mmwave-LENA-oran/utils/print-introspected-doxygen.cc:448-531 | entered only with stacks of equal length whose duplicate-free ancestors spell the current path; restores both stacks and appends exactly the records of the simple paths below the type, in the order of attributes, registered children, aggregations |
| ConfigEdges.OneStepRecords | mmwave-LENA-oran/utils/print-introspected-doxygen.cc:456-530 | the records one step from a type, from the registry alone: a pointer, but not to a bare Object, under its name, an object vector under its name and "/[i]", each strict descendant and each aggregation on either side under "$" and the type name; each once, in that order, and no others |
| StaticInformationModel.StaticInformation.Follow | mmwave-LENA-oran/utils/print-introspected-doxygen.cc:476-480 | push, search below one edge, pop: the stacks come back and the records of that edge follow those of the earlier edges |
| StaticInformationModel.StaticInformation.Gather | mmwave-LENA-oran/utils/print-introspected-doxygen.cc:440-445 | from empty stacks to empty stacks, appending the records of one root; nothing is removed, because the list is passed by value to Uniquefy |
| StaticInformationModel.StaticInformation.GatherRoots | mmwave-LENA-oran/utils/print-introspected-doxygen.cc:589-593 | gathering several roots appends their records one after the other |
| StaticInformationModel.StaticInformation.Get | mmwave-LENA-oran/utils/print-introspected-doxygen.cc:394-406 | the texts of the records of a type, one for each such record, in their order |
| StaticInformationModel.StaticInformation.RecordOutput | mmwave-LENA-oran/utils/print-introspected-doxygen.cc:361-377 | the recorded text is every entry of the path stack, each preceded by a slash |
| StaticInformationModel.StaticInformation.RecordAggregationInfo | mmwave-LENA-oran/utils/print-introspected-doxygen.cc:329-348 | records the pair only if both names are known; of two unknown names only the first is remembered |
| TypeRegistry.IsChildOf | mmwave-LENA-oran/src/core/model/type-id.cc:972-981 | the climb to the root terminates and is true exactly for strict ancestors at any height |
| LabelledGraph.SimplePathsEnumerate | mmwave-LENA-oran/utils/print-introspected-doxygen.cc:447-531 | the search order lists each walk that visits no type twice exactly once, in depth-first preorder, and no other walk |
| ConfigPaths.GatherRecordsExactlyTheSimplePaths | mmwave-LENA-oran/utils/print-introspected-doxygen.cc:372-377 | the records of one gathering are in one-to-one correspondence with the simple paths from the root: endpoint and slash-joined names, none missed, none added |
| ConfigPaths.PreorderListUnique | mmwave-LENA-oran/utils/print-introspected-doxygen.cc:455-530 | that list is determined by the graph alone: any preorder list of the simple paths is the same list |
| LabelledGraph.LoopErasure | mmwave-LENA-oran/utils/print-introspected-doxygen.cc:451-454 | any walk can be cut down to a simple path with the same end through vertices of the walk |
| ConfigPaths.GetNonEmptyIffReachable | mmwave-LENA-oran/utils/print-introspected-doxygen.cc:393-406 | after all roots are gathered a type has a path exactly when some root reaches it over the followed edges |
| LabelledGraph.UnvisitedShrinks | mmwave-LENA-oran/utils/print-introspected-doxygen.cc:451-454 | each push leaves strictly fewer unvisited types, on cyclic graphs too: the termination measure of DoGather |
| ConfigPaths.TypicalPaths | mmwave-LENA-oran/utils/print-introspected-doxygen.cc:541-597 | records the named aggregations, gathers from all roots and looks a type up: one text for each simple path that leads from a root to the type over the graph of the known aggregations, root after root and in preorder; so there are any exactly when some root reaches the type |
| ConfigPaths.SearchDepth | mmwave-LENA-oran/utils/print-introspected-doxygen.cc:476-480 | the stack never holds more entries than there are types |
| ConfigEdges.RepeatedAggregationIsRecordedTwice | mmwave-LENA-oran/utils/print-introspected-doxygen.cc:425-445 | an aggregation registered twice yields two equal records, so records are not unique |
| UniqueRecords.RecordsUniqueIff | mmwave-LENA-oran/utils/print-introspected-doxygen.cc:589-593 | with unambiguous names the records accumulated over all roots are all different if and only if no root forks in parallel and no two roots meet: are the same, or lead under the same names, without touching on the way, to the same type |
| UniqueRecords.RootRecordsUniqueIff | mmwave-LENA-oran/utils/print-introspected-doxygen.cc:440-445 | with unambiguous names one root's records are all different if and only if no walk from it leads to two parallel edges to a type the walk has not passed |
| UniqueRecords.SameRootRepeats | mmwave-LENA-oran/utils/print-introspected-doxygen.cc:425-445 | a root gathered twice yields repeated records in every graph |
| UniqueRecords.NamesFromText | mmwave-LENA-oran/utils/print-introspected-doxygen.cc:361-370 | two paths with the same text have the same names, the index of an object vector included |
| UniqueRecords.ConfigGraphWellNamed | mmwave-LENA-oran/utils/print-introspected-doxygen.cc:456-530 | distinct slash-free type names and distinct plain attribute names make the names of the edges unambiguous |
| UeTraceLoader.LoadUeTrace | mmwave-LENA-oran/scratch/scenario-zero-sionna-kyunghee.cc:93-157 | accepts exactly the files without a faulty line and with a row, reports the first fault otherwise, and returns one trace per identifier in order of first appearance, at most maxUes, each the stable sort of the rows bearing the identifier |
| UeTraceLoader.IdsInOrder | mmwave-LENA-oran/scratch/scenario-zero-sionna-kyunghee.cc:131-137 | the identifiers are those of the rows, in the order of their first rows |
| UeTraceLoader.RowsInOrder | mmwave-LENA-oran/scratch/scenario-zero-sionna-kyunghee.cc:139-142 | the samples grouped under an identifier are those of its rows, each once, in file order |
| UeTraceLoader.EveryRowKept | mmwave-LENA-oran/scratch/scenario-zero-sionna-kyunghee.cc:127-142 | the traces together hold one sample per row of the file |
| UeTraceLoader.NoEmptyTrace | mmwave-LENA-oran/scratch/scenario-zero-sionna-kyunghee.cc:131-142 | no trace of an accepted file is empty |
| UeTraces.StableSortCorrect | mmwave-LENA-oran/scratch/scenario-zero-sionna-kyunghee.cc:151-155 | sorted by time, equal times in file order, a permutation, and the only list of that kind |
| UeTraces.LatestMeaning | mmwave-LENA-oran/scratch/scenario-zero-sionna-kyunghee.cc:205-218 | the sample in force at a time is the one no other admissible sample follows in time or, on ties, in the list |
| UeTraces.LatestOfStableSort | mmwave-LENA-oran/scratch/scenario-zero-sionna-kyunghee.cc:151-155 | sorting does not change which sample is in force at any time |
| UeTraces.InitialActive | mmwave-LENA-oran/scratch/scenario-zero-sionna-kyunghee.cc:205-218 | the scan that stops at the first positive time returns the flag in force at time zero, false if there is none |
| UeTraces.InitialPosition | mmwave-LENA-oran/scratch/scenario-zero-sionna-kyunghee.cc:220-233 | the same for the position, the first sample being the default |
| Replay.Simulation.Insert | mmwave-LENA-oran/src/core/model/list-scheduler.cc:61-74 | the loop puts an event in front of the first one with a larger key |
| Replay.InsertEventAppends | mmwave-LENA-oran/scratch/scenario-zero-sionna-kyunghee.cc:489-505 | an event scheduled later goes behind the events of the same UE that are not later: first in, first out on ties |
| Replay.Simulation.ScheduleTrace | mmwave-LENA-oran/scratch/scenario-zero-sionna-kyunghee.cc:489-506 | the list then holds for that UE exactly the samples within [0, simTime] in trace order, and for every other UE what it held before |
| Replay.Simulation.ScheduleStop | mmwave-LENA-oran/src/core/model/default-simulator-impl.cc:212-217 | the stop scheduled for the end of the simulation goes behind every sample, so that none is cut off |
| Replay.Simulation.Run | mmwave-LENA-oran/src/core/model/default-simulator-impl.cc:186-203 | executes events until none is left or one has stopped the simulation; every UE ends in the state of its last sample in front of the first stop, or unchanged |
| Replay.Simulation.RunUntil | mmwave-LENA-oran/src/core/model/default-simulator-impl.cc:186-203 | the same loop as far as time t: executes exactly the events due by t in front of a stop, the stop included, so every UE is in the state of its last such sample, or unchanged |
| Replay.ReplayIsFaithful | mmwave-LENA-oran/scratch/scenario-zero-sionna-kyunghee.cc:479-508 | initial scans plus scheduled samples give at every time of the simulation the state the whole trace prescribes, negative times and ties included |
| Traffic.TrafficIntervals | mmwave-LENA-oran/scratch/scenario-zero-sionna-kyunghee.cc:579-607 | the installed intervals are non-empty, ordered, disjoint, inside the traffic window, and cover exactly the times at which the UE is active; there is one for each whole active period, clipped to the window, so none ends but with an inactive sample or the simulation |
| Traffic.ProgressAtZero | mmwave-LENA-oran/scratch/scenario-zero-sionna-kyunghee.cc:579-590 | after the samples up to time zero the loop's flag is the one the initial scan returns, an open period counts from zero, and nothing is installed |
| Traffic.InstallClientCovers | mmwave-LENA-oran/scratch/scenario-zero-sionna-kyunghee.cc:557-571 | clipping adds exactly the part of the period inside the traffic window, and nothing if that is empty |
| Scenario.RunScenario | mmwave-LENA-oran/scratch/scenario-zero-sionna-kyunghee.cc:282-608 | rejects exactly the inputs the checks reject, with the same reason, for a trace file its first fault or the lack of any row; otherwise for every UE and time the replayed state is the one the rows prescribe, within the traffic window a UE is active exactly when it has traffic, and it has one client for each active period |
| Scenario.FinalStates | mmwave-LENA-oran/scratch/scenario-zero-sionna-kyunghee.cc:610-662 | the simulation ended by its stop event leaves every UE in the state its trace prescribes for the end, samples at that very time included |
| WorkerPool.EachJobInOnePlace | mmwave-LENA-oran/test.py:1069-1159 | in every reachable state each dispatched job is in exactly one place, and no break job of the dispatcher is ever sent back |
| WorkerPool.InvStep | mmwave-LENA-oran/test.py:1075-1159 | every step of every thread keeps the input queue a contiguous piece of the dispatch order, the jobs conserved, and every job sent back untouched, run once, or marked after an interrupt |
| WorkerPool.OutputFirstInFirstOut | mmwave-LENA-oran/test.py:1949-1950 | jobs are collected in the order in which they were put into the output queue |
| WorkerPoolProgress.EveryRunEnds | mmwave-LENA-oran/test.py:1926-1950 | with a worker or nothing to do, every interleaving takes at most six steps per job and seven per worker, and can only stop when all jobs are collected and all threads joined |
| WorkerPoolProgress.FinalState | mmwave-LENA-oran/test.py:2103-2109 | at the end both queues are empty, every worker has returned, each on a break job of its own, and each job was collected exactly once |
| WorkerPoolProgress.CanHangIff | mmwave-LENA-oran/test.py:1612-1615 | some interleaving hangs if and only if there are jobs and no worker |
| WorkerPoolProgress.HangsExactlyForNegativeLimit | mmwave-LENA-oran/test.py:1601-1612 | with a processor on line that is so exactly for a negative limit on the worker threads |
| WorkerPoolProgress.PoolSize | mmwave-LENA-oran/test.py:1601-1615 | with a processor on line there are as many workers as a positive limit says, or as processors for no limit or a larger one; no more jobs than a positive limit ever run at once |
| WorkerPoolResults.PoolRefinesSequentialRun | mmwave-LENA-oran/test.py:1069-1159 | without an interrupt every complete run collects, up to order, what running the jobs one by one would give, skips untouched and the others with their code, with the same counters |
| WorkerPoolInterrupt.InterruptStopsLaunching | mmwave-LENA-oran/test.py:1084-1092 | once the flag is set it stays set and no job is launched: those running or completed stay the same collection, so at most one per worker still completes; every job then undispatched, queued or just taken, a skip included, comes back marked |
| WorkerPoolInterrupt.InterruptedRunResults | mmwave-LENA-oran/test.py:2218-2221 | the state in which the flag is set decides the results in every interleaving: a permutation of them is collected, and the status is zero exactly when no job was waiting any more and every job is a skip or returned zero |
| WorkerPoolResults.FinalStatus | mmwave-LENA-oran/test.py:2218-2221 | the counters of a complete run make the status zero exactly when no job was interrupted and every job is a skip or returned zero |
| TestResults.Summary.CollectAll | mmwave-LENA-oran/test.py:1941-1985 | each counter and name list reflects exactly the jobs of its outcome in order of collection; the status compares passed plus skipped with the total |
| TestResults.Reported | mmwave-LENA-oran/test.py:1949-1985 | breaks are not counted, skips come first, then code zero or none passes, one fails, two is a valgrind error, any other a crash; each list holds the names of exactly those jobs in order of collection, skips with their reason |
| TestReport.UninterruptedReport | mmwave-LENA-oran/test.py:1941-1985 | after a complete run without an interrupt every counter is the number of dispatched jobs with that flag or return code, and each name is listed as often as such jobs bear it |
| TestReport.InterruptedReport | mmwave-LENA-oran/test.py:1941-1985 | after an interrupt the same report covers exactly the jobs that were not waiting when the flag was set |
| TestResults.OutcomesPartition | mmwave-LENA-oran/test.py:1949-1985 | the six outcomes account for every collected job once |
| TestResults.StatusMeaning | mmwave-LENA-oran/test.py:2218-2221 | passed plus skipped reaches the total exactly when every collected job passed or was skipped |
| TestResults.SelectPermuted | mmwave-LENA-oran/test.py:1949-1985 | the counters do not depend on the order in which jobs come back |
| Bench.RunOutcome | mmwave-LENA-oran/utils/bench-scheduler.cc:133-176 | whatever the scheduler picks and the delays are, a run is at most total + 1 callbacks long; when it cannot go on it has executed exactly that many and counted total events, none if the population is zero |
| Bench.StepRenews | mmwave-LENA-oran/utils/bench-scheduler.cc:163-176 | a callback below the total puts its event back later by exactly the delay drawn and counts one; at the total it puts nothing back and stops |
| Bench.TimeMovesForward | mmwave-LENA-oran/src/core/model/default-simulator-impl.cc:130-141 | with a scheduler that always picks the earliest event the times of execution never go back |
| Bench.PopulationKept | mmwave-LENA-oran/utils/bench-scheduler.cc:163-176 | before every callback exactly the initial population is pending and the count has not passed the total |
| Bench.Benchmark.Run | mmwave-LENA-oran/utils/bench-scheduler.cc:133-161 | is such a run, reports its count whatever the previous count was, and leaves no simulator behind |
| Bench.RunSuite | mmwave-LENA-oran/utils/bench-scheduler.cc:267-309 | the requested scheduler serves the priming run only and every data run gets the default one; so all data runs use the requested scheduler if and only if there are none or it is the default |
| Welford.Log | mmwave-LENA-oran/utils/bench-scheduler.cc:332-381 | each reported average is the exact mean and each standard deviation the given square root of the mean squared distance to it, which is never negative; no report for fewer than two runs |
| Welford.Accumulate | mmwave-LENA-oran/utils/bench-scheduler.cc:358-362 | one macro call takes the exact mean and second moment of the samples so far to those with the new sample |
| Welford.MomentIdentity | mmwave-LENA-oran/utils/bench-scheduler.cc:342-346 | the second moment times the number of samples equals that number times the sum of squares minus the squared sum |
| Welford.MeanIsNearest | mmwave-LENA-oran/utils/bench-scheduler.cc:342-362 | the mean is the one point with the least sum of squared distances |
| Welford.OrderDoesNotMatter | mmwave-LENA-oran/utils/bench-scheduler.cc:351-372 | mean and second moment are the same for any order of the runs |

## Left out

- Times are real numbers: floating point, NaN and the rounding of event times to nanoseconds are not modelled.
- Tokenising and converting CSV fields: a line arrives as ignored, of wrong width, or as a row whose conversion may have failed.
- The scenario without a trace file (one client for the whole window), gNB positions, and all network set-up.
- Replay.Simulation: the event list of `ListScheduler` is modelled; that the other schedulers keep the same key order is not.
- Replay.Simulation: the only events are samples and the stop; those of the simulated network are left out.
- UniqueRecords.RecordsUniqueIff: is about registries whose names are unambiguous, because with slashes inside names different paths may share a text.
- The registry of TypeIds itself: parents are assumed to form a forest and attribute targets to be registered, as the registration macros arrange.
- `GetNoTypeIds`, and all printing of documentation.
- Running a test as a subprocess, its captured output, result files, and the list of failed jobs kept for verbose output.
- WorkerPool: a job is a value that moves; that worker and collector share one mutable object is not modelled, nor is an exception in a worker.
- Wall-clock times, rates, random streams and table formatting of the benchmark; a default scheduler changed through the global value `SchedulerType`.
- Welford.Log: the square root function is a parameter, and its rounding is not modelled.
- The graphical, HTTP and database scripts, and the other scenario programs.
