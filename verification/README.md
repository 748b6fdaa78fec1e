# Lunaship: verified models

This project models the parts of the lunaship service kit whose correctness is hardest to see by reading, and proves what
they promise. `dafny verify dfyconfig.toml` checks everything.

* **Module sorter and bootstrap** (`Modules`, `DependencyGraph`, `NodeTable`, `ReadyQueue`, `ModuleSort`, `SortProperties`,
  `ModuleExec`, `Bootstrap`, `BootOrder`, `Instances`). `module.Sort` is verified as the imperative algorithm it is: nodes with mutable in-degrees and
  dependents, a name table, a ready queue re-sorted by registration index, and the cycle report. Its one postcondition,
  `SortOutcome`, is stated on the registration list alone (validity, topological orders compared lexicographically,
  reachability of cycles) and leaves no freedom. What callers rely on is derived from it, up to the order, the safety and
  the outcome of the nine bootstrap modules of `service.Run`.
* **Lua executor** (`LuaProtocol`, `LuaProperties`, `LuaCauses`, `LuaSettling`, `LuaExecutor`). Any number of calls and repairs interleave on
  the cached SHA under the RWMutex, while the server drops or learns scripts, requests fail, `respFn` rejects replies or
  panics, and the application prepares the script again. `LuaExecutor` is the object itself for
  calls that do not overlap; each of its methods is proved to be a run of the protocol.
* **Dynamic pprof** (`PprofProtocol`, `PprofProperties`, `PprofTruth`, `PprofSolo`, `PprofOrphans`, `PprofManager`). Start and
  Stop interleave on the state word, the mutex, the four session fields and the CPU profiler. `PprofManager` is the object for serialised calls, with
  every operation of the outside free to fail and the files and failure counts they leave; its calls are runs of the
  protocol.
* **Local RPC counter** (`RpcCounter`, `LocalCounter`). Load, LoadOrStore and Add without a lock, over any threads and keys,
  with reporting passes beside them; and the object for increments that do not overlap, again as runs of the protocol.
* **Log core** (`Utf8`, `LogText`, `LogCore`, `LogContext`). Truncation of arbitrary bytes by runes (section 4 of RFC 3629),
  key aliases, derived loggers, default injection, and the fields a context carries into a record.
* **Kafka headers, broker lists, Redis addresses** (`HeaderMap`, `KafkaHeaders`, `Brokers`, `HostPort`, `RedisAddress`).
  Header lists as maps up to case, round trips of broker lists, and the round trip of the bootstrap's Redis address.

`Text`, `NameOrder`, `Sums` and `Wrappers` are shared.

Concurrency is modelled by step systems: a state, a list of steps with their guards, and runs of any length. One step is one
access to shared state. `IsRun` and `Final` define a run and the state it leads to; a property of every interleaving is a
lemma about `Final(steps)` for every `steps` that is a run. Failures of the outside are part of the step (or a parameter of
the method), so every combination is covered.

## Findings

Where the code does not do what one might expect of it, the model follows the code, and the exact condition is proved.

* The cycle report of `Sort` names every module from which a cycle can be reached, so also modules that merely depend on a
  cyclic one (`ReadyQueue.PositiveIffBlocked`).
* Registering the counter of pprof dump failures panics when the registry rejects it for another reason than its being there
  already, so with dynamic pprof enabled a metric of that name registered before `service.Run` keeps the service from coming
  up (`Bootstrap.RejectedCollectorPanics`, `Bootstrap.NameTakenPanics`). No other default closure panics
  (`Bootstrap.DefaultsAreSafe`).
* A `respFn` that panics on the fast path leaves the read lock held, because the unlock after `fastPath` is not deferred; with
  the panic recovered further up, as the kit's own recovery handler does, the process goes on. The next NOSCRIPT then waits for
  the write lock for good, and keeps every later call out (`LuaSettling.PanicDeadlocks`, `LuaSettling.NobodyGetsIn`). A run
  can still come to rest exactly if no `respFn` has panicked there or no call has been told NOSCRIPT and waits for the write
  lock (`LuaSettling.SettlesIff`).
* A Lua executor with a `respFn` never starts a repair: after a NOSCRIPT the SHA stays empty, and every call takes the slow
  path, until the application calls `PrepareLuaScript` itself (`LuaProperties.RespFnNeverRepairs`). That method stores the SHA
  without taking the lock, which is a data race when calls are under way. A `respFn` that rejects the fast reply, and a
  request that fails after the script has run, make the script run twice for one call (`LuaProperties.ExecutionsPerCall`).
  Without a `respFn` the SHA can be left empty too, but only by a failed EVAL or SCRIPT LOAD with no successful load after it
  (`LuaProperties.RestoredUnlessExcused`); the repair uses the context of the call that started it, so a cancelled call is
  one way for that to happen.
* The state word of the pprof manager can say "stopped" for good while a session is live. Once all calls have returned it
  tells the truth exactly when no session is live, or no call has written "stopped" since the Start of the live session won
  its swap (`PprofTruth.TruthfulIffNotOverruled`). Two ways for it to lie are shown as runs: a Stop that wins the mutex
  between a Start's swap and its lock (`PprofOrphans.OvertakingLeavesOrphan`), and a Stop that waits out a failing Start and
  writes "stopped" after the next Start has won its swap (`PprofOrphans.FailedStartLeavesOrphan`). It is enough that no Stop
  wins its swap while a Start is unfinished (`PprofProperties.WordTellsTheTruth`), but not necessary
  (`PprofOrphans.WaitingStopIsHarmless`). With such an orphan every later Start fails and every Stop does nothing, as the
  contracts in `PprofManager` say. The temporary file of a failed Start stays if removing it fails as well, because that
  error is ignored.
* A Redis host written as one pair of brackets around bracket-free text is read back without its brackets
  (`RedisAddress.BracketedHostLosesBrackets`); `RedisAddress.RoundTripIff` says exactly which endpoints come back.

## Model

| member | source | states |
|---|---|---|
| Modules.NormalizeDependencies | module/api.go:162-182 | the loop returns the trimmed, non-blank names, first occurrences only |
| Modules.NormalizedIsTheSetOfNames | module/api.go:162-182 | exactly the names mentioned up to white space, each once, none blank |
| Modules.NormalizedPrefix | module/api.go:162-182 | a name keeps the place of its first mention |
| Modules.NormalizedIdempotent | module/api.go:32-46 | normalising in the wrapper and again in Sort is the same as once |
| Modules.GraphOf | module/api.go:88-102 | the vertices of the dependency graph are the enabled modules, and every prerequisite is one of them |
| NodeTable.Node.constructor | module/api.go:78-83 | a node starts without dependents and with in-degree zero |
| NodeTable.Link | module/api.go:88-102 | either the first self or unknown dependency in order is reported, or every node counts its distinct dependencies and is listed once under each of them |
| NodeTable.BookEdge | module/api.go:99-100 | recording one edge keeps counts and lists in agreement with the edges recorded so far |
| ReadyQueue.SortByIndexOrders | module/api.go:110-112 | re-sorting the queue puts nodes with different indices in index order |
| ReadyQueue.ZeroInDegree | module/api.go:104-109 | the first queue has exactly the nodes with in-degree zero, each once |
| ReadyQueue.CountingStarts | module/api.go:99-114 | before the loop each in-degree is the number of distinct unplaced prerequisites |
| ReadyQueue.HeadIsLeastReady | module/api.go:116-118 | the head of the queue is the least of all ready modules, not only of those in the queue |
| ReadyQueue.DependentWaits | module/api.go:120-123 | a dependent of the placed node is still waiting, its count is positive, and it becomes ready with this node exactly when the count is one |
| ReadyQueue.ReleaseStep | module/api.go:120-129 | releasing the next dependent never makes a count negative and never enqueues a node twice |
| ReadyQueue.ReleaseDependents | module/api.go:120-129 | after the inner loop counts are again the unplaced prerequisites and the queue again exactly the ready nodes in index order |
| ReadyQueue.Drain | module/api.go:114-130 | the loop ends, after at most one round per node, with a run of least ready vertices that cannot be continued |
| ReadyQueue.PositiveIffBlocked | module/api.go:132-138 | when the loop is over an in-degree is positive exactly for modules from which a dependency cycle can be reached |
| ModuleSort.Register | module/api.go:62-86 | nil and disabled modules are skipped; the first empty or repeated name is reported; otherwise there is one node for each enabled module, found by its name |
| ModuleSort.PositiveInDegree | module/api.go:133-138 | the names collected for the report are those of the nodes with positive in-degree, each once |
| Text.SpaceIsWhiteSpace | module/api.go:67-67 | what TrimSpace trims is the White_Space table of the Unicode Character Database |
| Text.LessIffFirstDifference | module/api.go:139-139 | names are compared by their first difference, and a proper prefix comes first |
| NameOrder.LessIsByteOrder | module/api.go:139-139 | on UTF-8 that is the byte order in which Go sorts strings |
| ModuleSort.Sort | module/api.go:52-144 | SortOutcome: names are checked first, then dependencies, each error being the first in order; if all are valid the result is the lexicographically least topological order by registration index, or the sorted names of all modules that reach a cycle |
| DependencyGraph.CompleteRunIsLeast | module/api.go:104-130 | taking the least ready vertex each time gives the least of all topological orders |
| DependencyGraph.LeastTopologicalOrderUnique | module/api.go:104-130 | there is only one least topological order |
| DependencyGraph.LongWalkRepeats | module/api.go:132-141 | pigeonhole: a walk longer than the number of modules visits one twice |
| DependencyGraph.BlockedIffReachesCycle | module/api.go:114-141 | the modules left unplaced are exactly those from which a cycle can be reached |
| DependencyGraph.CompleteIffAcyclic | module/api.go:114-143 | all modules are placed exactly when there is no cycle |
| DependencyGraph.AcyclicIffOrderExists | module/api.go:114-143 | a topological order exists exactly when there is no cycle |
| DependencyGraph.OrderedPrefixComesFirst | module/api.go:104-130 | vertices that depend only on smaller ones are placed first, in place |
| SortProperties.OutcomeUnique | module/api.go:52-144 | SortOutcome admits one result for each registration list |
| SortProperties.OutcomeKind | module/api.go:64-97 | name errors are reported exactly for invalid names, dependency errors exactly for valid names and invalid dependencies |
| SortProperties.SucceedsIffAcyclic | module/api.go:114-143 | names and dependencies valid, Sort succeeds exactly when the graph is acyclic |
| SortProperties.DependenciesComeFirst | module/api.go:114-143 | every dependency of a sorted module names a module sorted before it |
| SortProperties.TransitiveDependencyComesFirst | module/api.go:114-143 | so does everything it depends on through others |
| SortProperties.SortedOnceEach | module/api.go:62-143 | the result has exactly the enabled modules, each once |
| SortProperties.OrderedPrefixStays | module/api.go:104-130 | a prefix already in dependency order is sorted first and unchanged, whatever follows |
| SortProperties.SortOfOrderedList | module/api.go:104-143 | Sort is the identity on a list in dependency order |
| SortProperties.SortIdempotent | module/api.go:52-144 | sorting the result again returns it |
| ModuleExec.Execute | module/api.go:146-160 | exactly a prefix of the sorted order runs, each Init after the ones before it succeeded; the first that fails is reported and nothing runs after it |
| ModuleExec.ExecuteDeterministic | module/api.go:146-160 | the list, the Init functions and the initial state determine result and final state |
| ModuleExec.DependenciesSucceededFirst | module/api.go:152-157 | when an Init starts, all transitive dependencies have run and succeeded |
| ModuleExec.CompletedIffNoneFails | module/api.go:152-159 | nil is returned exactly when no Init fails; otherwise the reported one is the first that does, and the state is the one it left |
| Bootstrap.Run | service/setup.go:105-108 | Run executes the nine defaults followed by the caller's modules from a fresh state |
| Bootstrap.DefaultsInOrder | service/setup.go:120-223 | the default list is in dependency order |
| Bootstrap.DefaultsComeFirst | service/setup.go:105-223 | for every list of added modules that sorts, the nine defaults run first, in declaration order, and only added ones after them |
| Bootstrap.DefaultsUnderTheirNames | service/setup.go:61-71 | the names under which added modules can depend on the defaults |
| Bootstrap.BootedAfter | service/setup.go:120-223 | the bootstrap state after any number of successful modules |
| Bootstrap.DefaultsSort | service/setup.go:120-223 | the nine defaults on their own always sort |
| Bootstrap.DefaultsAreSafe | service/setup.go:120-223 | no module after config starts without the loaded configuration, none after log without a ready logger, and a default closure panics exactly when it is dynamic pprof and the registry rejects its counter |
| Bootstrap.PanicOrigin | service/setup.go:105-108 | a panic out of Execute comes, with everything before it done, from pprof rejected in that way or from a closure the caller added |
| Bootstrap.RejectedCollectorPanics | infra/pprof.go:366-374 | if nothing before pprof fails and the registry rejects the counter, Execute panics there and no added module runs |
| Bootstrap.RunResult | service/setup.go:372-451 | once the configuration has loaded: an ambiguous choice or failed dial of Redis is what Run reports, of MySQL once Redis has passed, and a rejected counter panics once both have, each before any added module runs; otherwise only an added module can keep it from completing |
| Bootstrap.AddedModuleRuns | module/api.go:152-157 | an added module runs on the outside as it finds it and changes nothing else of the bootstrap; what it returns is its outcome |
| Bootstrap.BareServiceComesUpIff | service/setup.go:105-108 | a service without modules of its own comes up exactly when the configuration loads, Redis and MySQL pass, and the counter is not rejected |
| Bootstrap.DynamicIff | service/setup.go:354-369 | pprof is static exactly when the mode is the word server, in any mix of cases and with any white space around it |
| BootOrder.DependenciesSuffice | service/setup.go:120-223 | registered in any other order, among any other modules, the defaults would still find what they need: the dependencies they declare are enough |
| Instances.SelectInstance | service/setup.go:469-498 | the instance called default, else the only one; none is no error; several without a default are an error naming them all in order, however the map is walked |
| Bootstrap.NameTakenPanics | service/setup.go:362-369 | a concrete outside in which a service without modules of its own panics |
| Bootstrap.CompletedBootstrap | service/setup.go:105-110 | a completed bootstrap has a configuration and a logger, has tracing exactly when that could be set up, and hands pprof routes to serve exactly when dynamic pprof is enabled |
| Bootstrap.MetadataReads | service/setup.go:290-302 | the configured name reaches the three environment variables, two of them only where they were blank |
| Bootstrap.AppFieldIsConfigured | log/required_fields_core.go:118-122 | after a completed bootstrap the logger injects as _app the configured name, trimmed, or where that is blank the service identity there was |
| Bootstrap.LoadFailureStopsRun | service/setup.go:125-132 | when the configuration cannot be loaded, config is reported and nothing else has run |
| LuaProtocol.RunKeepsInv | redis/lua.go:80-152 | lock discipline, the SHA seen under the read lock stays, and the account of script runs hold in every interleaving |
| LuaProperties.ExecutionsPerCall | redis/lua.go:80-152 | no call runs the script more than twice; one that succeeds ran it once, plus once exactly when its fast run was rejected or its request failed after running it |
| LuaProperties.CounterEqualsEffects | redis/lua.go:133-152 | without respFn and with NOSCRIPT the only failure, the server has run the script once for every call past its effect point and for no other |
| LuaProperties.LoadsBounded | redis/lua.go:114-149 | only the script's own SHA is ever cached; repairs store it at most once more often than it was cleared, and without stores by the application their number is exact |
| LuaProperties.RespFnNeverRepairs | redis/lua.go:107-109 | with a respFn no repair is ever started, and the SHA is cached once for the start and once for each store of the application at most; without such stores it is cached exactly if it was at the start and was never cleared |
| LuaProperties.EmptyShaWillBeRestored | redis/lua.go:114-149 | without respFn, an empty SHA has a call or repair under way that will restore it, unless an EVAL or SCRIPT LOAD has failed since it was last stored |
| LuaProperties.RestoredUnlessExcused | redis/lua.go:114-149 | so once everything has settled after a call, the SHA is cached or such a failure has happened |
| LuaProperties.QuiescentIsRestored | redis/lua.go:114-152 | with a missing script the only failure, the SHA is then cached and the script has run once for each call |
| LuaProperties.ProgressDecreases | redis/lua.go:97-152 | every step of a call or repair brings the system closer to rest |
| LuaProperties.StepsBounded | redis/lua.go:97-152 | no run takes more than sixteen steps for each call |
| LuaCauses.ClearedIffTold | redis/lua.go:139-151 | the SHA is cleared only on behalf of calls told NOSCRIPT, once for each at most, and each of them clears it before its slow path; nobody else ever does |
| LuaCauses.OnlyToldCallsClear | redis/lua.go:145-149 | a step that takes a cached SHA away is the clear of such a call |
| LuaCauses.KeptWhileNobodyIsTold | redis/lua.go:145-149 | while no call is told NOSCRIPT, whatever respFn rejects or requests fail, a cached SHA stays |
| LuaCauses.NilIffSatisfied | redis/lua.go:88-109 | a call returns nil exactly if an answer came back and respFn, where there is one, accepted it |
| LuaCauses.EffectsAreRuns | redis/lua.go:88-104 | the effects on the server are the requests that ran the script there |
| LuaSettling.NeverStuck | redis/lua.go:133-152 | until everything has ended some call or repair can step, unless a read lock was left by a panic and a call needs the write lock |
| LuaSettling.FreeRunsSettle | redis/lua.go:133-152 | every run in which no read lock has been left by a panic, or no call needs the write lock and the server has the script, can be continued to rest without new failures or calls |
| LuaSettling.SettlesIff | redis/lua.go:80-149 | a run can be continued to rest exactly if no respFn has panicked on the fast path or no call has been told NOSCRIPT and waits for the write lock; otherwise nothing that happens later brings it to rest |
| LuaSettling.HaltedAtRestIff | redis/lua.go:80-149 | a run in which nothing can step any more is at rest exactly if no respFn has panicked there or no call is left wanting the write lock |
| LuaSettling.RunsHalt | redis/lua.go:97-152 | every run can be continued until nothing can step any more |
| LuaSettling.NobodyGetsIn | redis/lua.go:139-147 | once a call waits for the write lock beside a read lock left by a panic, no call that has not started ever does |
| LuaSettling.PanicDeadlocks | redis/lua.go:91-147 | one panic, a flush of the scripts and one more call bring this about, without any other failure |
| LuaExecutor.Executor.PrepareLuaScript | redis/lua.go:64-78 | at any time the script is loaded and its SHA cached, or neither |
| LuaExecutor.Executor.CacheChanges | redis/lua.go:69-69 | the server's scripts may change between calls, as a step of the protocol |
| LuaExecutor.Executor.FastPath | redis/lua.go:80-95 | how the fast path ends, by what the request brings: NOSCRIPT, a panic, nil, or another error; and whether it ran the script; as steps of the protocol |
| LuaExecutor.Executor.SlowPath | redis/lua.go:97-131 | result, script runs and the repair left behind, as steps of the protocol |
| LuaExecutor.Executor.Repair | redis/lua.go:115-128 | a repair reloads only when the SHA is still empty |
| LuaExecutor.Executor.UpdateOneEvent | redis/lua.go:133-152 | one call: it ends as the fast or else the slow path does, each run of the script is counted, a cached SHA is cleared exactly if the server lacked the script, or the request failed or respFn rejected with a NOSCRIPT text, and kept otherwise; a panic on the fast path leaks the read lock, the next NOSCRIPT after that blocks, and so does every call then; the history stays a run of the protocol |
| LuaExecutor.OutcomeEndsAs | redis/lua.go:133-152 | which calls return nil, panic or block, by what their two requests bring |
| PprofProtocol.RunKeepsInv | infra/pprof.go:108-256 | the guarded data has the shape of the holder's position, and no session is taken over twice, in every interleaving |
| PprofProperties.FieldsAgreeWhenUnlocked | infra/pprof.go:150-195 | whenever the mutex is free the four fields are all set for one session or all clear, in agreement with the CPU profiler |
| PprofProperties.AtMostOneLiveSession | infra/pprof.go:150-195 | sessions opened exceed sessions taken over by none or one |
| PprofProperties.NeverOverwrites | infra/pprof.go:150-153 | a Start that is about to write its session finds all four fields clear |
| PprofProperties.TornDownOnce | infra/pprof.go:187-195 | each session is taken over by at most one Stop, after its Start has written it |
| PprofProperties.RunningMeansLive | infra/pprof.go:108-239 | once all calls have returned the word is not dumping, and running only with a live session |
| PprofTruth.TruthfulIffNotOverruled | infra/pprof.go:108-239 | once all calls have returned, the word is running exactly for a live session and stopped otherwise, if and only if no call has written stopped since the live session's Start won its swap |
| PprofProperties.WordTellsTheTruth | infra/pprof.go:108-239 | a condition on the schedule that suffices for that: no Stop wins its swap while a Start is unfinished |
| PprofOrphans.OvertakingLeavesOrphan | infra/pprof.go:109-113 | one Start and one Stop can end with the word stopped and the session live |
| PprofOrphans.FailedStartLeavesOrphan | infra/pprof.go:116-119 | so can a failing Start, a Stop that waited it out and a second Start, with no Stop taking the mutex before a Start's lock |
| PprofOrphans.WaitingStopIsHarmless | infra/pprof.go:171-195 | a Stop that waits for a Start inside its section tears the session down and leaves the word right |
| PprofSolo.SoloStart | infra/pprof.go:108-169 | a Start that nothing interrupts opens its session when the word is stopped, no operation fails and no profiler runs, and otherwise leaves word and session as they were |
| PprofSolo.SoloStop | infra/pprof.go:171-256 | a Stop that nothing interrupts takes over the session there is and leaves the word stopped and nothing running |
| PprofManager.DynamicPprof.constructor | infra/pprof.go:90-98 | a new manager is stopped and has no session |
| PprofManager.DynamicPprof.Start | infra/pprof.go:108-169 | it succeeds exactly when stopped, no operation fails and no profiler runs; otherwise word, session and profiler are as before, the first failure is reported, and no temporary file is left unless removing it failed |
| PprofManager.DynamicPprof.Stop | infra/pprof.go:171-256 | an effective Stop ends stopped with all fields clear whatever fails; it returns the files dumped, which are there, and counts the failures, with a session three together; its error is nil exactly when all three were dumped and the server shut down; the temporary file stays exactly when it could not be closed or moved, and no file of another session is touched |
| PprofManager.DynamicPprof.DumpNamedProfile | infra/pprof.go:304-326 | the profile's file is there, or one failure is counted; a file that could not be written is removed if that works |
| PprofManager.EachProfileAccountedOnce | infra/pprof.go:199-237 | of the files and failures Stop reports: each profile of a session is among exactly one of them, and they are three together |
| PprofManager.NoErrorIffAllDumped | infra/pprof.go:197-255 | the errors Stop joins are none exactly when everything was dumped and the server shut down |
| PprofManager.FailuresNamed | infra/pprof.go:197-237 | which profiles are counted as failed and which errors are joined, by what went wrong |
| PprofManager.InOrder | infra/pprof.go:197-237 | files and errors come in the order CPU, heap, goroutine |
| RpcCounter.RunKeepsInv | interceptor/counter.go:61-98 | counters of different keys are apart and unshared ones hold one, in every interleaving |
| RpcCounter.CounterIsCommittedCount | interceptor/counter.go:86-98 | each counter is, modulo 2^64, the number of increments of its key past their commit point, and a key is published exactly when there is one |
| RpcCounter.QuiescentCountsAll | interceptor/counter.go:86-98 | once all increments have returned, each counter is the number of calls made for its key |
| RpcCounter.PublishedForGood | interceptor/counter.go:94-97 | a published counter is never replaced |
| RpcCounter.SnapshotLiesBetween | interceptor/counter.go:61-65 | each value a pass reports is a count its key had between the start and the end of the pass, and a finished pass reports every key there was at its start |
| RpcCounter.PassRemembers | interceptor/counter.go:61-65 | the counts kept for the start and end of a pass are those at that moment, and a finished pass does not change |
| RpcCounter.WaitFree | interceptor/counter.go:86-98 | an increment never waits and is done after at most three steps of its own |
| LocalCounter.Counter.Increment | interceptor/counter.go:86-98 | one increment counts once for its key, changes no other, and replaces no counter |
| LocalCounter.Counter.Snapshot | interceptor/counter.go:61-65 | an undisturbed pass reports for each key the increments made |
| Utf8.DecodeEncode | log/required_fields_core.go:186-195 | decoding undoes encoding of every scalar value, whatever follows |
| Utf8.EncodeDecode | log/required_fields_core.go:186-195 | encoding undoes decoding of every well-formed sequence, so there is one spelling for each scalar value |
| Utf8.RunesOfEncoded | log/required_fields_core.go:186-195 | encoded text decodes to its characters |
| NameOrder.ScalarsAreCharacters | log/required_fields_core.go:186-195 | the values encoded are the characters, no more and no fewer |
| Utf8.FirstRune | log/required_fields_core.go:186-195 | of any bytes the first rune is the character whose encoding stands in front, with just its bytes, or else U+FFFD for one byte alone |
| LogText.TruncateUTF8 | log/required_fields_core.go:182-197 | the loop returns the bytes of the first maxChars runes: nothing if that is not positive, the text itself if it has no more, and otherwise exactly that many |
| LogText.TruncatedIsRunePrefix | log/required_fields_core.go:182-197 | for all byte strings the cut is a prefix ending where a rune ends, with exactly the first runes of the input |
| LogText.RunePrefixIsTruncated | log/required_fields_core.go:182-197 | it is the only such prefix |
| LogText.MalformedByteAlone | log/required_fields_core.go:189-195 | a byte that begins no character counts as one by itself |
| LogText.TruncatedIdempotent | log/required_fields_core.go:182-197 | cutting again changes nothing |
| LogText.TruncatedOfEncoded | log/required_fields_core.go:182-197 | on encoded text the cut is the encoding of the first characters |
| LogCore.NormalizeFields | log/required_fields_core.go:98-110 | each field in order: the seven aliases come out under their targets, text under _sql or sql is cut to 1024 characters, every other key and value is kept |
| LogCore.NormalizedIdempotent | log/required_fields_core.go:16-24 | normalising again changes nothing |
| LogCore.RequiredFieldsCore.With | log/required_fields_core.go:51-65 | a fresh core with the normalised fields bound as well, over a fresh set of bound keys and the same sink and defaults; no existing object changes |
| LogCore.RequiredFieldsCore.Write | log/required_fields_core.go:74-96 | one record is appended: the message cut to 1024 characters, the bound fields, the given ones as they come out, and the missing defaults |
| LogCore.DeriveTree | log/required_fields_core.go:51-65 | after any tree of With calls every core still stands for the fields on its own path, over key storage shared with no other |
| LogCore.WriteInTree | log/required_fields_core.go:74-96 | writing through any core of a tree adds its record and leaves all cores as they are |
| LogCore.DeriveTwice | log/required_fields_core.go:51-65 | binding twice is binding once with the fields one after the other |
| LogCore.ChainIsOneWith | log/required_fields_core.go:51-65 | so is any chain of With calls |
| LogCore.DefaultInjectedIffNotSupplied | log/required_fields_core.go:74-96 | after any chain of With calls a default is injected exactly when nobody supplied its key, directly or through an alias |
| LogCore.SuppliedFieldsComeOut | log/required_fields_core.go:74-110 | after any chain of With calls the record has every supplied field in order, under the target of its alias, with statement text cut to 1024 characters and any other value as it was |
| LogCore.MissingOneByOne | log/required_fields_core.go:88-93 | the missing defaults are found one by one, so they keep their order and number |
| LogCore.DefaultKeyCount | log/required_fields_core.go:74-96 | every default key is in every record, as often as it was supplied, or else as often as it has defaults |
| LogCore.SixKeysOnce | log/required_fields_core.go:142-149 | each of the six service defaults is in every record exactly once unless it was supplied more than once |
| LogCore.ServiceDefaults | log/required_fields_core.go:142-149 | whatever a record carries under a key that nobody supplied is the value the service has for it |
| LogContext.FieldsAccumulate | log/context.go:19-36 | fields accumulate in order and nothing else in the context changes |
| LogContext.TraceFields | log/context.go:38-53 | WithTrace adds a log field for each identifier given |
| LogContext.TraceRoundTrip | log/context.go:38-76 | the readers return what WithTrace put in, and the earlier identifier where none was given |
| LogContext.NothingGiven | log/context.go:30-76 | no context, and one nothing was put into, carry no field and no trace, and count as sampled |
| LogContext.FieldsAreNoTrace | log/context.go:19-76 | log fields do not change what the trace readers find |
| LogContext.TraceReachesTheRecord | log/context.go:78-80 | a record logged through a traced context carries the trace identifier and no empty default beside it |
| LogContext.ContextReachesTheRecord | log/context.go:78-80 | a record logged through a context has the global fields, those of the context and those of the call, in order |
| HeaderMap.MapLaws | kafka/instrumentation.go:81-101 | after Set the key reads as the value under any spelling, other keys as before, and the list grows by one exactly when the key was not there |
| HeaderMap.SetForIsSet | kafka/instrumentation.go:90-101 | Set changes the value of the first header with the key and nothing else, or adds one at the end |
| HeaderMap.SetTwice | kafka/instrumentation.go:90-101 | setting a key twice keeps the last value and the first spelling |
| HeaderMap.SetAllReads | kafka/instrumentation.go:157-157 | after a list of Sets every key reads as its last pair, or as before |
| HeaderMap.InjectedIsReadBack | kafka/instrumentation.go:119-157 | keys injected, different up to case, are read back under any spelling; other keys read as before |
| HeaderMap.InjectedLength | kafka/instrumentation.go:90-101 | injecting adds one header for each key that was not there |
| KafkaHeaders.ProducerHeaderCarrier.Get | kafka/instrumentation.go:81-88 | the value of the first header whose key equals the key up to case, and the empty string if there is none |
| KafkaHeaders.ProducerHeaderCarrier.Set | kafka/instrumentation.go:90-101 | in the list behind the pointer the first header with the key gets the value, or one is added at the end; all others stay |
| KafkaHeaders.ProducerHeaderCarrier.Keys | kafka/instrumentation.go:103-109 | the keys in order |
| KafkaHeaders.HeaderCarrier.Get | kafka/instrumentation.go:51-58 | the value of the first header whose key equals the key up to case, and the empty string if there is none |
| KafkaHeaders.HeaderCarrier.Set | kafka/instrumentation.go:60-67 | only the value of the first matching header changes, even if headers are shared; the list keeps its length and keys |
| KafkaHeaders.HeaderCarrier.Keys | kafka/instrumentation.go:69-75 | the keys in order |
| KafkaHeaders.ReadAfterConsumerSet | kafka/instrumentation.go:51-67 | reading after a consumer-side Set gives the value only if the key was there, and adds no key |
| KafkaHeaders.InjectThenExtract | kafka/instrumentation.go:119-157 | what a producer injects a consumer reads back; a key neither injected nor there before reads as the empty string |
| KafkaHeaders.CopyHeaders | kafka/producer.go:94-106 | whatever the order the map is walked in, every entry is visited once and copied unless its key is blank |
| KafkaHeaders.CopiedMembers | kafka/producer.go:94-106 | the copy has exactly the entries under non-blank keys, trimmed |
| KafkaHeaders.CopiedCount | kafka/producer.go:94-106 | one header for each key that is not blank, even if trimming makes two equal |
| Brokers.SplitJoin | kafka/producer.go:137-137 | splitting loses nothing |
| Brokers.SplitFree | kafka/producer.go:137-137 | and leaves no separator in a part |
| Brokers.JoinSplit | kafka/producer.go:137-137 | splitting undoes joining |
| Brokers.ParseBrokerList | kafka/producer.go:136-147 | the loop returns the trimmed non-empty parts in order |
| Brokers.PrimaryBrokerEndpoint | kafka/instrumentation.go:268-276 | the first of the parsed list, or the empty string if there is none |
| Brokers.BrokersAreEndpoints | kafka/producer.go:136-147 | every parsed broker is trimmed, non-empty and free of commas |
| Brokers.EndpointsRoundTrip | kafka/producer.go:136-147 | any list of endpoints written with commas parses back to itself |
| Brokers.PrimaryIsIdempotent | kafka/consumer.go:177-180 | resolving the primary endpoint again when building metadata changes nothing |
| Brokers.TrimmedFirst | kafka/producer.go:43-51 | trimming the whole string first does not change the list |
| Brokers.BrokersOfJoined | kafka/producer.go:136-147 | the list is read part by part: the two sides of a comma do not influence each other |
| Brokers.BrokerOfPart | kafka/producer.go:139-144 | a part with any white space around its text gives that text, and nothing if there is none |
| Brokers.CheckProducer | kafka/producer.go:43-54 | a producer gets past its checks exactly with a broker and a topic; a blank topic is reported exactly when the broker string is not blank |
| HostPort.AtoiOfDecimal | redis/hook.go:212-218 | printing a 64-bit number and parsing it gives it back |
| HostPort.AtoiIff | redis/hook.go:212-218 | parsing succeeds exactly on decimal numerals of 64-bit numbers and gives the number their digits spell by place value |
| RedisAddress.SplitJoined | redis/hook.go:202-204 | splitting at the last colon works exactly if no bracket follows it and the host is one pair of brackets around bracket-free text, or free of brackets and colons |
| RedisAddress.EndpointIs | redis/hook.go:197-210 | what is read from every address with a colon, by what is before and after its last one |
| RedisAddress.EndpointWithoutColon | redis/hook.go:197-210 | an address without a colon is all host |
| RedisAddress.PortIs | redis/hook.go:212-218 | a port is the number its text spells, and zero for anything else, negative or too large |
| RedisAddress.ParseJoined | redis/hook.go:197-210 | what is read back from host:port, for every host |
| RedisAddress.ParseRedisAddrs | redis/hook.go:187-195 | the loop returns the first usable endpoint |
| RedisAddress.FirstUsableIsFirst | redis/hook.go:187-195 | it comes from the first address that gives a host or a port, and is empty only if none does |
| RedisAddress.PortRoundTrip | redis/hook.go:212-218 | a printed port is read back, a negative one as zero |
| RedisAddress.FormatIs | service/setup.go:386-386 | the formatted address has the configured host, as it is, before its last colon and a numeral for the port behind it |
| RedisAddress.RoundTripIff | service/setup.go:386-386 | the endpoint read back is the one configured exactly when the host is trimmed and not one bracketed text, and the port is not negative |
| RedisAddress.BracketedHostLosesBrackets | service/setup.go:386-386 | a bracketed host comes back without its brackets |

## Left out

- RpcCounter.SnapshotLiesBetween: that a finished pass reports every key there was at its start is the guard of the step that
  ends a pass; it is what the documentation of Go's `sync.Map.Range` promises, and is taken from there.
- PprofProperties.WordTellsTheTruth: only suffices; the exact condition is `PprofTruth.TruthfulIffNotOverruled`.
* Transports and clients: Redis is a script cache and a count of effects, Kafka a list of headers, HTTP and file operations a
  choice of success or failure. The client libraries the bootstrap calls are taken not to panic themselves.
* Init closures share one `bootstrapState` by reference; in `ModuleExec` and `Bootstrap` they are functions from state to
  state, run in order. Aliasing of that state is not modelled. Descriptions and the text of errors around names are not kept.
* `Enabled`, `Description` and `Dependencies` are taken to answer the same each time they are asked.
* Configuration decoding, and the text of the error for an ambiguous choice: in `Bootstrap` the outcome of `Instances` is part of
  the configuration value, with the error's text. The MySQL and Kafka connection set-up beyond success or failure is not modelled.
* Clocks and time formats, and reads of the environment other than the application name: values read are parameters, and file
  names are kept by start second, profile and kind.
* `PrepareLuaScript` called by the application is one store at any moment; what Go does with the data race is not modelled.
* The HTTP handlers around the pprof manager, the profiling server's own lifetime, and a profiler shared with other users.
* The ordering and cutting of the printed counters in `PrintRpcCounter`, and the Redis-backed counter.
* Counters in `LocalCounter` are named by position rather than by reference.
* Parsing of the bind address and ports for the log defaults; the identity values are parameters of the default list.
* The case folding of `strings.EqualFold` is an arbitrary function from characters to representatives.
* The propagators that call Set and Get; Inject is any list of Sets.
* Span, metric and log content of interceptors and hooks, sampling arithmetic, consumer session loop, rate limiter, JWT,
  masking and the small generic helpers, which would only add easy members.
