# Ethos backend: verified cores

A Dafny model of the parts of the Ethos protocol backend whose correctness is not obvious from
reading them: shared-state protocols, reconciliation, streaming statistics, file and text formats,
caches and accounting. Each module follows one source file and keeps its form: objects that change
in place are classes, loops are loops with invariants, pure code is functions.

`dafny verify dfyconfig.toml` checks everything with the default limits.

## How it is organised

| module | source | what it is about |
|---|---|---|
| DependencyMap | backend/src/dependency_map.rs | reachability by worklist; a graph that stays acyclic over every run |
| ReadPool | backend/src/db_read_pool.rs | a bounded connection pool in every interleaving; no lost wake-up |
| Bulkhead | backend/src/bulkhead.rs | concurrency and queue bounds in every interleaving, with cancellation |
| Consensus, Convergence, RacingChecks | backend/src/consensus.rs | reconciliation of local maps with a backend; when a cluster converges; what overlapping checks lose |
| CircuitBreaker, HalfOpenProbes, ProbeTraces | backend/src/circuit_breaker.rs | refinement of a specification over traces of calls; the atomic steps of overlapping calls and the probe counter; the traces as runs of those steps |
| Welford, IncidentGroups | backend/src/anomaly_detection.rs | streaming statistics against two-pass ones; grouping of alerts |
| PdfText, PdfFile, PdfReport, PdfSyntax | backend/src/compliance.rs | a PDF file that a reader from its end, with its own spelling of the keywords, decodes to the lines |
| MetricLabels, MetricExport, MetricStore | backend/src/custom_metrics.rs | injective label rendering; exact samples after any run |
| StoredBlock, VaultCache | backend/src/cache.rs | codec; a cache that returns only the last write, fresh enough |
| CachePartition | backend/src/cache_partition.rs | tenant non-interference over whole runs |
| CostTracking, GasReport | backend/src/cost_tracking.rs | conservation of sums across groupings; 64-bit totals, saturating or checked |
| DeadlockDetector | backend/src/deadlock.rs | an inductive invariant on waits; exactly which cycles are missed |
| AdaptiveBatcher | backend/src/batching.rs | bounds and progress of a feedback controller |
| Wrappers, Sequences, Counting, Lex, MapSum, Text, Arithmetic | | shared definitions and lemmas |

Two styles recur. Concurrent protocols (ReadPool, Bulkhead, HalfOpenProbes, RacingChecks) are state machines with one step per
atomic operation, and a run is any sequence of enabled steps. Objects driven by one caller at a
time keep a ghost history of the requests made, and `Valid()` ties every field to a function of
that history, so lemmas about the function hold after every run.

## Where the code and its documentation differ

The model follows the code.

- `allocate` documents an even split when no history carries the tag key; the code allocates nothing (backend/src/cost_tracking.rs:612-632).
- `detect_cycle` documents a transitive search; the code looks one level deep (backend/src/deadlock.rs:210-247). `MissedExactly` says which acquires close a cycle unnoticed, and `CycleFreeExactly` for which parties and resources no run ever contains one.
- A tenant partition is documented as created on first access; the code creates it on the first write only, so earlier lookups leave no statistics (backend/src/cache_partition.rs:160-163, 214-219). `LookupsLeaveNoPartition` gives the runs, `StatisticsCountLookups` the exact condition.
- `max_entries` is documented as a cap on stored vault ids; it bounds ids with something stored, not the ids in the map (backend/src/cache.rs:338-365). `TableOutgrowsLimit` gives a cache over its limit, `CapHoldsExactly` the condition under which a write keeps the map within it.
- A waiter of a bulkhead that is cancelled never gives back its queue count (backend/src/bulkhead.rs:179-190). `CancelLeaksOne` gives a run, `QuiescentRun` the exact condition.
- The root cause a group is counted under is the one at the moment it first spans two services; a later, earlier-stamped alert changes the group's root cause but not the count (backend/src/anomaly_detection.rs:763-779). `CountedCauseGoesStale` gives the runs, `NextKeepsCause` says for each next alert whether the two part, and `CountedCauseIsCurrent` when they never do.
- The counter of half-open probes is set to zero by transitions while guards may still decrement it (backend/src/circuit_breaker.rs:127-131, 384, 393). `ExactlyWhenClean` says when it counts the running probes; `ResetUnderProbeWedges` gives, for every failure threshold, success threshold and probe limit, a run after which the breaker is half-open and turns every call away, and `WedgedForGood` shows it never leaves that state.
- A check that overlaps with a write of the same key can put an older entry back (backend/src/consensus.rs:253-292). `PutIsLost` gives the runs, `LowersExactly` the exact condition.

## Model

| member | source | states |
|---|---|---|
| DependencyMap.DownstreamOf | backend/src/dependency_map.rs:78-84 | lists exactly the direct dependencies of a service, one entry per edge |
| DependencyMap.UpstreamOf | backend/src/dependency_map.rs:87-93 | lists exactly the direct dependants of a service, one entry per edge |
| DependencyMap.HasPath | backend/src/dependency_map.rs:114-134 | the worklist search terminates and answers true exactly when a directed path exists, on every finite graph, cyclic or not |
| DependencyMap.ImpactedBy | backend/src/dependency_map.rs:97-110 | the worklist closure lists every transitive dependant exactly once and nothing else, on every finite graph |
| DependencyMap.GuardIsExact | backend/src/dependency_map.rs:138-140 | on an acyclic graph the cycle guard fires precisely for the edges whose insertion makes the graph cyclic |
| DependencyMap.EveryRunIsAcyclic | backend/src/dependency_map.rs:219-263 | after any sequence of discover requests the graph has no directed cycle, replaying the recorded changes from the empty graph rebuilds its edges, and every edge was requested |
| DependencyMap.RefusedExactlyWhenCyclic | backend/src/dependency_map.rs:219-263 | after any run the next edge is in the graph afterwards exactly when adding it keeps the graph acyclic, and a refused one changes nothing |
| DependencyMap.NoServiceImpactsItself | backend/src/dependency_map.rs:97-110 | after any run no service is its own transitive dependant |
| DependencyMap.DependencyMapState.constructor | backend/src/dependency_map.rs:198-205 | starts with no edges and no changes |
| DependencyMap.DependencyMapState.Discover | backend/src/dependency_map.rs:219-263 | accepts exactly the edges that keep the graph acyclic; new state of edges and change history, following the run specification |
| DependencyMap.DependencyMapState.AnalyzeImpact | backend/src/dependency_map.rs:279-290 | the whole impact answer: direct neighbours on both sides, one per edge, and every transitive dependant once, never the service itself |
| ReadPool.Pool.constructor | backend/src/db_read_pool.rs:113-149 | the maximum is one for in-memory databases and otherwise max, at least one; opens min(min, max) connections unless one fails, and stops there |
| ReadPool.Pool.TakeOrReserve | backend/src/db_read_pool.rs:163-182 | the critical section of acquire: takes an idle connection, reserves an unopened slot, or reports exhaustion |
| ReadPool.Pool.UndoReserve | backend/src/db_read_pool.rs:173-181 | a failed open gives its slot back |
| ReadPool.Pool.Release | backend/src/db_read_pool.rs:200-203 | a returned connection becomes idle |
| ReadPool.StepKeepsAccount | backend/src/db_read_pool.rs:163-203 | every step keeps open == idle + lent + being opened and open <= max |
| ReadPool.StepKeepsWakeUps | backend/src/db_read_pool.rs:163-203 | every step keeps: while a thread sleeps, free slots are at most the pending notifications plus the threads already woken |
| ReadPool.StepKeepsExclusive | backend/src/db_read_pool.rs:163-203 | every step keeps connections idle once or lent to one thread, never both |
| ReadPool.EveryRunIsSafe | backend/src/db_read_pool.rs:163-203 | all three invariants in every interleaving of acquire, wait, time-out, failed open, spurious wake-up, release and delayed notify |
| ReadPool.SleepersMeanExhausted | backend/src/db_read_pool.rs:183-196 | once notifications are delivered and acted on, a sleeping thread means nothing is idle and the maximum is open |
| ReadPool.GivesUpOnlyWhenExhausted | backend/src/db_read_pool.rs:163-197 | an attempt of a given deadline gives up exactly past it with no free slot, and is served exactly when a slot is free |
| ReadPool.DeadlineIsTimeout | backend/src/db_read_pool.rs:163-196 | in every run, through every sleep and wake-up, the deadline of a thread inside acquire is the timeout after its arrival |
| ReadPool.GivesUpExactly | backend/src/db_read_pool.rs:163-197 | over whole runs: a thread gives up exactly when it finds no free slot and at least the timeout has passed since it arrived |
| ReadPool.EveryThreadCanMove | backend/src/db_read_pool.rs:163-203 | in every state each thread inside the pool has a step: entering and woken threads try, sleepers may wake, opening succeeds or fails and gives the slot back, a holder returns its connection |
| ReadPool.NotifyWakesOne | backend/src/db_read_pool.rs:173-203 | a notification can wake any one sleeper and is lost exactly when nobody sleeps |
| ReadPool.AnyoneMayArrive | backend/src/db_read_pool.rs:163-165 | after any run exactly the threads outside the pool can call acquire |
| ReadPool.EveryRunCanFinish | backend/src/db_read_pool.rs:163-203 | deadlock freedom: with a maximum of at least one, every run can be continued, with nobody new, no time passing and no failing open, until no thread is inside the pool |
| ReadPool.AllComeHome | backend/src/db_read_pool.rs:246-254 | when no thread is inside the pool, everything opened is idle again |
| Bulkhead.StepKeepsPermits | backend/src/bulkhead.rs:99-104 | every step keeps the semaphore, active and completed equal to what the requests in flight account for |
| Bulkhead.StepKeepsQueue | backend/src/bulkhead.rs:178-190 | every step keeps queued equal to the outstanding bumps plus cancelled waiters, and at most max_queue_size requests past or sure to pass the queue check |
| Bulkhead.StepKeepsRequests | backend/src/bulkhead.rs:150-197 | every step keeps requests == grants + rejected + cancelled + undecided |
| Bulkhead.EveryRunIsBounded | backend/src/bulkhead.rs:150-197 | in every interleaving, with any cancellations, active <= permits held <= max_concurrent and the waiters never exceed max_queue_size although the counter is bumped before the check |
| Bulkhead.QuiescentRun | backend/src/bulkhead.rs:150-197 | when no request is in flight: active is 0, all permits are back, completed equals grants, every request is accounted for, and queued is 0 exactly when no waiter was ever cancelled |
| Bulkhead.AdmittedExactlyWhenFree | backend/src/bulkhead.rs:165-176 | a new request gets a slot at once exactly when fewer than max_concurrent permits are held, whatever the queue bound |
| Bulkhead.RefusedExactlyWhenFull | backend/src/bulkhead.rs:178-184 | a request without a slot is refused exactly when outstanding and leaked queue counts reach max_queue_size |
| Bulkhead.WaiterServedExactly | backend/src/bulkhead.rs:186-191 | a waiter gets a slot exactly when fewer than max_concurrent permits are held, and taking it takes the permit |
| Bulkhead.OnlyWaitersWait | backend/src/bulkhead.rs:150-197 | every step of a request is always possible except getting a permit; exactly waiters can be cancelled |
| Bulkhead.GrantedRuns | backend/src/bulkhead.rs:186-196 | a served waiter gives back its queue count and becomes active |
| Bulkhead.DroppedReleases | backend/src/bulkhead.rs:99-104 | a finished request gives back its permit and its active count and is counted as completed |
| Bulkhead.EveryRunCanFinish | backend/src/bulkhead.rs:150-197 | deadlock freedom: with at least one slot, every run can be continued, cancelling nobody and admitting nobody new, until no request is in flight |
| Bulkhead.LeakClosesTheQueue | backend/src/bulkhead.rs:178-190 | a cancelled waiter leaks its bump: after max_queue_size of them every later request without a free slot is refused |
| Bulkhead.CancelLeaksOne | backend/src/bulkhead.rs:178-190 | a run with one cancelled waiter that ends with no request in flight and queued at 1 |
| Consensus.ResolveIsMax | backend/src/consensus.rs:330-364 | resolution picks the higher ranked side under either strategy, and the local one on a tie |
| Consensus.GeqTotal | backend/src/consensus.rs:346-364 | the ranking behind both strategies is total and reflexive |
| Consensus.GeqTransitive | backend/src/consensus.rs:346-364 | and transitive |
| Consensus.VotingTie | backend/src/consensus.rs:354-364 | entries that rank equal under voting share version and node id |
| Lex.LeqMeans | backend/src/consensus.rs:354-364 | the order of node ids is lexicographic: a proper prefix is lower, otherwise the first difference decides |
| Consensus.InMemoryBackend.constructor | backend/src/consensus.rs:87-91 | starts empty |
| Consensus.InMemoryBackend.SetEntry | backend/src/consensus.rs:98-104 | stores the entry under its own key and changes nothing else |
| Consensus.InMemoryBackend.AllEntries | backend/src/consensus.rs:106-108 | lists every stored entry once; collecting the list by key gives the store back |
| Consensus.Collect | backend/src/consensus.rs:242-250 | later entries of a key replace earlier ones |
| Consensus.NodeCache.constructor | backend/src/consensus.rs:182-193 | starts with an empty local map |
| Consensus.NodeCache.Put | backend/src/consensus.rs:222-230 | writes one entry to both sides; its version is the millisecond timestamp cast to 64 bits |
| Consensus.NodeCache.SyncLocalFromRemote | backend/src/consensus.rs:242-250 | the local map becomes the backend contents |
| Consensus.NodeCache.CheckAndResolve | backend/src/consensus.rs:253-303 | both sides end equal to the keywise winner; the report lists exactly the differing keys, once each, with both sides and the winner, and says consistent exactly when the sides were equal |
| Consensus.NodeCache.ResolveAll | backend/src/consensus.rs:268-292 | the loop over all keys, in any order: same result and the list of conflicts |
| Consensus.NodeCache.ResolveKey | backend/src/consensus.rs:272-291 | one key: writes the winner to both sides exactly when they differ |
| Consensus.NoConflictsMeansSame | backend/src/consensus.rs:294-303 | the conflict list is empty exactly when both sides were equal |
| Convergence.RunAt | backend/src/consensus.rs:253-303 | keys do not influence each other in any schedule of checks |
| Convergence.TwoRoundsConverge | backend/src/consensus.rs:253-303 | two rounds in which every node checks, in any order, end with every local map and the backend equal, each key at an entry some party held and nothing held outranks, if every key is decided |
| Convergence.ConvergesExactlyWhenDecided | backend/src/consensus.rs:253-303 | the exact condition: every order of two rounds converges if and only if every key has a decided winner before the first check |
| Convergence.DistinguishedIsDecided | backend/src/consensus.rs:346-364 | keys whose entries differ in (version, node_id) for voting, or updated_at for last-write-wins, are decided |
| Convergence.RivalsNeverAgree | backend/src/consensus.rs:346-364 | two nodes with different top-ranked entries keep them through every schedule |
| Convergence.UndecidedDiverges | backend/src/consensus.rs:253-303 | an undecided key has a two-round schedule that ends in disagreement |
| Convergence.RepeatIsConsistent | backend/src/consensus.rs:253-303 | repeating a check at once reports no conflict and changes nothing |
| RacingChecks.LowersExactly | backend/src/consensus.rs:253-292 | in any run of overlapping checks and puts, the write of a check leaves the backend with a lower ranked entry exactly when something was stored after the check read the backend, and what is stored outranks both differing entries it read |
| RacingChecks.UndisturbedIsCurrent | backend/src/consensus.rs:253-292 | as long as nothing is stored after a check read the backend, the backend holds what was read |
| RacingChecks.CheckAlone | backend/src/consensus.rs:253-303 | the three steps of a check that nothing interrupts leave both sides with the winner and every other node alone |
| RacingChecks.PutIsLost | backend/src/consensus.rs:222-230 | runs in which a check overwrites a higher ranked put that came between its reads and its write |
| CircuitBreaker.TripsExactly | backend/src/circuit_breaker.rs:352-368 | a closed breaker opens exactly when the call it runs is the last of failure_threshold consecutive failures since closing, and never later |
| CircuitBreaker.ClosesExactly | backend/src/circuit_breaker.rs:332-350 | a probing breaker closes exactly when the call it runs is the last of success_threshold successes of the current half-open episode, and reopens exactly when that call fails |
| CircuitBreaker.NeverRunsEarly | backend/src/circuit_breaker.rs:294-313 | after the call that opened the breaker finished, every call that starts before open_duration has passed is rejected and the breaker stays open |
| CircuitBreaker.RetriesExactly | backend/src/circuit_breaker.rs:294-313 | an open breaker rejects a call exactly while open_duration has not passed since the call that opened it finished; the first call after that runs as a probe |
| CircuitBreaker.CountsStayBelow | backend/src/circuit_breaker.rs:332-368 | between calls the consecutive counts are below their thresholds |
| CircuitBreaker.CallMovesLegally | backend/src/circuit_breaker.rs:370-410 | a call runs in the current state or as a probe of an open breaker and moves it from closed to open, from half-open to open or from half-open to closed, if at all |
| CircuitBreaker.ChainIsLegal | backend/src/circuit_breaker.rs:370-410 | the transitions of any run link up from closed to the current state, each one legal |
| CircuitBreaker.TalliesAddUp | backend/src/circuit_breaker.rs:204-230 | calls that ran are successes plus failures, and all calls are ran plus rejected |
| CircuitBreaker.TrailingMeaning | backend/src/circuit_breaker.rs:332-368 | what a trailing count of at least n means: the last n records all satisfy the predicate |
| CircuitBreaker.Breaker.constructor | backend/src/circuit_breaker.rs:176-193 | starts closed with an empty trace |
| CircuitBreaker.Breaker.Call | backend/src/circuit_breaker.rs:204-230 | refines the trace specification, with the permit checked when a call starts and its outcome stamped when it finishes: the answer, the state, the counters, allowed == successes + failures, half_open_active == 0, and the log is the last 200 links of the transition chain |
| CircuitBreaker.Breaker.Attempt | backend/src/circuit_breaker.rs:204-230 | the effect of one call on every field; an open breaker rejects exactly before open_duration has passed since opened_at |
| CircuitBreaker.Breaker.AcquireCallPermit | backend/src/circuit_breaker.rs:294-313 | who may run, and the probe transition of an open breaker, exactly once open_duration has passed since opened_at or nothing is recorded there |
| CircuitBreaker.Breaker.TryAcquireHalfOpenPermit | backend/src/circuit_breaker.rs:315-330 | grants a probe exactly while fewer than max(1, half_open_max) are active |
| CircuitBreaker.Breaker.OnSuccess | backend/src/circuit_breaker.rs:332-350 | the effect of a success in each state |
| CircuitBreaker.Breaker.OnFailure | backend/src/circuit_breaker.rs:352-368 | the effect of a failure in each state |
| CircuitBreaker.Breaker.Transition | backend/src/circuit_breaker.rs:370-410 | a transition resets what it must and logs itself, keeping the last 200 |
| HalfOpenProbes.ExactStep | backend/src/circuit_breaker.rs:315-330 | one step of overlapping calls keeps an exact probe counter exact, except a reset with a probe running |
| HalfOpenProbes.ExactlyWhenClean | backend/src/circuit_breaker.rs:294-395 | in every interleaving of the atomic operations, stale reads included, half_open_active is the number of running probes throughout a run if and only if no probe is running whenever a transition sets it to zero |
| HalfOpenProbes.ProbesWithinCap | backend/src/circuit_breaker.rs:315-330 | and then at most max(1, half_open_max) probes ever run at once |
| HalfOpenProbes.OpenStaysShut | backend/src/circuit_breaker.rs:294-313 | in every interleaving before open_duration has passed, an open breaker whose calls are on their way out stays open and starts no operation |
| HalfOpenProbes.EveryCallMovesOn | backend/src/circuit_breaker.rs:204-230 | no call waits for another: in every state a call under way has its next step, which leaves the others alone and is one of at most twelve |
| HalfOpenProbes.OnlyNextStep | backend/src/circuit_breaker.rs:204-230 | and it has no other step, but for the outcome of its operation |
| HalfOpenProbes.AlreadyThere | backend/src/circuit_breaker.rs:370-374 | a transition to the state the breaker is already in changes nothing and resets nothing; a call that wanted to probe still asks for its permit |
| HalfOpenProbes.EveryCallReturns | backend/src/circuit_breaker.rs:204-230 | so from every state a call can run to its end with the other calls where they were |
| HalfOpenProbes.FailuresOpen | backend/src/circuit_breaker.rs:352-368 | enough failing calls, one after the other, open a closed breaker whatever its threshold and whoever else is running |
| HalfOpenProbes.ResetUnderProbeWedges | backend/src/circuit_breaker.rs:294-395 | for every failure threshold, success threshold and half_open_max some run takes the counter below zero, to 0xFFFFFFFFFFFFFFFF, and ends half-open with no call in flight and no room for a probe |
| HalfOpenProbes.WedgedForGood | backend/src/circuit_breaker.rs:294-330 | from there every later call is turned away and the state never changes |
| ProbeTraces.CallAlone | backend/src/circuit_breaker.rs:204-395 | the atomic steps of a call that runs alone, put together, are one move of state, counts and counter |
| ProbeTraces.TracesAreRuns | backend/src/circuit_breaker.rs:204-395 | every legal trace of the sequential breaker is a run of the atomic steps that ends idle, in the state and with the counts the trace specification gives, for all settings |
| ProbeTraces.SuccessesClose | backend/src/circuit_breaker.rs:332-350 | with room for one probe, enough successful probes close a breaker that is open or half-open, whatever its threshold and whoever else is running |
| ProbeTraces.CleanRunRecovers | backend/src/circuit_breaker.rs:294-395 | the opposite of being wedged: after any run without an unclean reset, a breaker with no call in flight is closed or can be brought to closed |
| Welford.UpdateIsExact | backend/src/anomaly_detection.rs:133-150 | one online update turns the exact mean and squared deviation of a sequence into those of the sequence with one more value |
| Welford.StreamingIsTwoPass | backend/src/anomaly_detection.rs:133-150 | for every finite sequence the streaming count, mean and m2 equal the two-pass ones; count times mean is the sum and m2 is never negative |
| Welford.DeviationMoves | backend/src/anomaly_detection.rs:133-150 | how the sum of squared deviations changes when its center moves |
| Welford.Baseline.constructor | backend/src/anomaly_detection.rs:111-120 | starts with no points |
| Welford.Baseline.SampleVariance | backend/src/anomaly_detection.rs:123-128 | the quantity under the root is the sample variance of the points, and non-negative |
| Welford.Baseline.Observe | backend/src/anomaly_detection.rs:133-150 | with at least five earlier points and a deviation above 2^-52 the score is the signed distance from the mean of the earlier points in deviations, its square times their sample variance the squared distance; otherwise zero; afterwards the fields describe the points with the value |
| Welford.RootIsUnique | backend/src/anomaly_detection.rs:123-128 | the standard deviation is determined by the variance, and that of equal points is zero |
| Welford.Baseline.TakeIn | backend/src/anomaly_detection.rs:142-147 | the update itself keeps the fields exact |
| IncidentGroups.AbsorbDescribes | backend/src/anomaly_detection.rs:338-368 | absorbing an alert keeps every field of a group equal to its definition over all members: exact first and last time, root cause the first-arrived earliest member, worst severity, services, metrics, and the metrics seen from two services |
| IncidentGroups.NewDescribes | backend/src/anomaly_detection.rs:743-758 | a new group describes its single alert |
| IncidentGroups.SystemicMeans | backend/src/anomaly_detection.rs:334-336 | a group is systemic exactly when its members come from two or more services |
| IncidentGroups.CriticalMeans | backend/src/anomaly_detection.rs:355-357 | a group is critical exactly when one of its members is |
| IncidentGroups.EachAlertInOneGroup | backend/src/anomaly_detection.rs:732-761 | over every run, in any timestamp order, each alert is in exactly one group and no group is empty |
| IncidentGroups.TalliedOneMore | backend/src/anomaly_detection.rs:763-779 | a group that newly spans two services adds one occurrence to its root cause and to the total |
| IncidentGroups.ListedOneMore | backend/src/anomaly_detection.rs:763-779 | and its id to the ids of that cause |
| IncidentGroups.SeenOneMore | backend/src/anomaly_detection.rs:776-777 | and the time the cause was last seen is the latest of the groups counted against it, as they stood when counted |
| IncidentGroups.RecordsOneMore | backend/src/anomaly_detection.rs:763-779 | the new record keeps occurrences, ids and times in agreement with the groups |
| IncidentGroups.AnomalyStore.constructor | backend/src/anomaly_detection.rs:732-780 | starts with no groups and no root causes |
| IncidentGroups.AnomalyStore.Position | backend/src/anomaly_detection.rs:734-736 | finds the first group whose span is within 300 seconds of the alert |
| IncidentGroups.AnomalyStore.Correlate | backend/src/anomaly_detection.rs:732-780 | keeps, for every run: groups describe their members, counted exactly when spanning two services, occurrences per cause equal to the groups counted against it, in total equal to the systemic groups, with their ids and the latest time among them |
| IncidentGroups.AnomalyStore.CountIfNew | backend/src/anomaly_detection.rs:763-779 | counts a group once, under its root cause at that moment |
| IncidentGroups.CountedCauseIsCurrent | backend/src/anomaly_detection.rs:763-779 | the cause a group is counted under is its root cause throughout exactly when no member that arrived after the group first spanned two services was stamped before all earlier ones with another service or metric than their earliest |
| IncidentGroups.NextKeepsCause | backend/src/anomaly_detection.rs:358-364 | a group counted under its root cause stays so with its next alert exactly when that is not stamped before the members so far, or has the service and metric of the earliest of them |
| IncidentGroups.EarliestStays | backend/src/anomaly_detection.rs:358-364 | later members leave the earliest one alone exactly when none is stamped before it |
| IncidentGroups.CountedCauseGoesStale | backend/src/anomaly_detection.rs:358-364 | runs of three alerts after which the two differ |
| PdfText.EscapeIsOnePass | backend/src/compliance.rs:525-528 | the three successive replaces equal one per-character escape |
| PdfText.EscapedReadsBack | backend/src/compliance.rs:522-531 | a reader of literal strings (section 7.3.4.2 of ISO 32000-1) stops exactly at the closing parenthesis of an escaped line, whatever the line holds |
| PdfText.EscapeRoundTrip | backend/src/compliance.rs:522-531 | reading back gives the line itself if and only if it holds no carriage return |
| PdfText.ChunksFlatten | backend/src/compliance.rs:495-501 | the pages concatenate to the lines, every page but the last has 55 lines, and there is always a page |
| PdfText.WrapWords | backend/src/compliance.rs:476-492 | greedy wrapping: the words in order, no line longer than the width unless it is one word, no line that could have taken the next word |
| PdfText.WordsAreExact | backend/src/compliance.rs:479 | there is one word for every character that is not white space and is first or follows white space, in order, each the text from there up to the next white space; together they are the text without its white space |
| PdfText.SpacesAre | backend/src/compliance.rs:479 | the code points that count as white space |
| PdfText.AsciiIs | backend/src/compliance.rs:472-475 | character by character: kept below 128, otherwise a question mark |
| PdfText.WrapPdfText | backend/src/compliance.rs:471-493 | the greedy wrapping of the words of the text with non-ASCII characters replaced |
| PdfFile.WriteFile | backend/src/compliance.rs:544-566 | writes header, numbered objects, cross-reference table, trailer and start offset |
| PdfFile.WriteObjects | backend/src/compliance.rs:544-550 | each recorded offset is the length of the file when its object begins |
| PdfFile.WriteTable | backend/src/compliance.rs:552-557 | the table of the recorded offsets, which the reader of EveryObjectIsFound decodes with its own spelling of keyword, first free entry and in-use marks |
| PdfFile.TableIsFound | backend/src/compliance.rs:552-564 | at the offset given by startxref a reader finds the table with the right number of entries |
| PdfFile.StartIsFound | backend/src/compliance.rs:558-564 | reading from the end of the file, startxref gives the offset of the table |
| PdfFile.RootIsFound | backend/src/compliance.rs:558-564 | the trailer after the table has /Size equal to the number of entries and /Root naming the catalog |
| PdfFile.VersionIsFound | backend/src/compliance.rs:544 | the file opens with the version line |
| PdfFile.PrintsSyntax | backend/src/compliance.rs:544-564 | what is printed around the numbers is what the reader looks for, keyword by keyword |
| PdfFile.EveryObjectIsFound | backend/src/compliance.rs:544-557 | every cross-reference entry (section 7.5.4 of ISO 32000-1) is in use and the exact position of its object: the reader, with its own spelling of every keyword, arrives at its number and then its text |
| PdfFile.EntryWidth | backend/src/compliance.rs:555-557 | an entry has the fixed twenty bytes exactly when the offset fits ten digits |
| PdfReport.GeneratePdfBytes | backend/src/compliance.rs:495-567 | builds the specified file for every list of lines |
| PdfReport.BuildObjects | backend/src/compliance.rs:503-542 | catalog, page tree, font, then each page followed by its content |
| PdfReport.StreamReadsBack | backend/src/compliance.rs:532-541 | /Length is exactly the length of the stream, up to endstream |
| PdfReport.TreeReadsBack | backend/src/compliance.rs:508-517 | /Kids names exactly the page objects and /Count their number |
| PdfReport.FontIsFound | backend/src/compliance.rs:506 | object 3 is the font the pages refer to |
| PdfReport.ContentReadsBack | backend/src/compliance.rs:522-541 | a content object shows exactly the lines of its page |
| PdfReport.ReportRoundTrip | backend/src/compliance.rs:495-567 | a reader starting at the end of the file gets the lines back, complete and in order, if and only if no line holds a carriage return |
| MetricLabels.EscapeIsOnePass | backend/src/custom_metrics.rs:160-165 | the three successive replaces equal one per-character escape |
| MetricLabels.SortTags | backend/src/custom_metrics.rs:171-173 | the tag pairs in key order |
| MetricLabels.LabelsRoundTrip | backend/src/custom_metrics.rs:167-178 | a reader of the text format gets back every label set with valid names, whatever its values hold |
| MetricLabels.LabelsInjective | backend/src/custom_metrics.rs:167-178 | with valid names, two label sets render alike exactly when they are equal |
| MetricLabels.LabelNameMeans | backend/src/custom_metrics.rs:132-138 | label names, by character codes: a word of letters, digits and underscores that opens with no digit and no double underscore |
| MetricLabels.UnvalidatedLabelsCollide | backend/src/custom_metrics.rs:133-138 | without name validation two different label sets render alike |
| MetricExport.GroupsAreLabelSets | backend/src/custom_metrics.rs:289-295 | grouping by the rendered text puts points together exactly when their tags are equal |
| MetricExport.GroupByLabels | backend/src/custom_metrics.rs:289-295 | every point is in the group of its rendered labels, in recording order |
| MetricExport.NewestIsNewest | backend/src/custom_metrics.rs:299-302 | the gauge value is of a point no other is newer than, the last recorded of equally new ones |
| MetricExport.MaxByTimestamp | backend/src/custom_metrics.rs:299-302 | the loop finds that point |
| MetricExport.ExportSamples | backend/src/custom_metrics.rs:288-305 | one sample per rendered label set |
| MetricExport.SamplesAreExact | backend/src/custom_metrics.rs:288-305 | a sample is the total, or the newest value, of exactly the points with its tags |
| MetricExport.CounterConservesTotal | backend/src/custom_metrics.rs:296-298 | the exported samples of a counter add up to everything recorded |
| MetricStore.KindIsFixed | backend/src/custom_metrics.rs:230-249 | once declared, the kind of a metric never changes, whatever is requested later |
| MetricStore.MetricNameMeans | backend/src/custom_metrics.rs:125-130 | metric names, by character codes: a word of letters, digits, underscores and colons that opens with no digit |
| MetricStore.ExportAfterAnyRun | backend/src/custom_metrics.rs:270-308 | after any run of record and define requests, each label set among the accepted points has exactly one sample, with the right value, and counters conserve their total |
| MetricStore.CustomMetricsStore.constructor | backend/src/custom_metrics.rs:206-215 | starts empty |
| MetricStore.CustomMetricsStore.RecordPoint | backend/src/custom_metrics.rs:409-418 | stores a point exactly when its name, value and label names are valid |
| MetricStore.CustomMetricsStore.DefineMetric | backend/src/custom_metrics.rs:233-249 | refuses exactly invalid names and changed kinds; otherwise replaces the definition |
| MetricStore.CustomMetricsStore.Export | backend/src/custom_metrics.rs:280-305 | the samples of one metric by its declared kind |
| StoredBlock.CodecRoundTrip | backend/src/cache.rs:90-124 | only the length modulo 65536 survives the stored block (section 3.2.4 of RFC 1951): the round trip is exact if and only if the data is shorter than 65536 bytes |
| StoredBlock.EncodeRoundTrip | backend/src/cache.rs:139-160 | encoding under a threshold is undone exactly when the value is below the threshold or below 65536 bytes |
| StoredBlock.BlockIs | backend/src/cache.rs:90-103 | the bytes of a block: the final-block bit, the length modulo 65536 low byte first, its complement, then the data |
| StoredBlock.DecompressExactly | backend/src/cache.rs:108-124 | which byte strings are read as a block and what is read |
| VaultCache.PutVersioned | backend/src/cache.rs:332-335 | a write keeps stored versions pairwise distinct and bounded by the global counter |
| VaultCache.AgreesStep | backend/src/cache.rs:472-594 | after every write, read that empties a slot, eviction and invalidation, a slot is stored exactly when the last event on it is a write, with what the codec keeps of that write |
| VaultCache.CapHoldsExactly | backend/src/cache.rs:338-365 | a write keeps the number of ids in the map, occupied or not, within max(1, max_entries) exactly when there was room, something to evict, or the id was there |
| VaultCache.FreshShare | backend/src/cache.rs:224-227 | the age below which an entry is served: the staleness share, clamped to [0, 1], of its lifetime |
| VaultCache.OldestOf | backend/src/cache.rs:347-356 | the insertion time of the oldest sub-entry of an id, none exactly when nothing is stored |
| VaultCache.FindOldest | backend/src/cache.rs:344-359 | an id owning an oldest stored sub-entry, none exactly when nothing is stored |
| VaultCache.Cache.constructor | backend/src/cache.rs:323-330 | starts empty, with all counters and the version at zero |
| VaultCache.Cache.EvictIfNeeded | backend/src/cache.rs:338-365 | at capacity drops an id owning an oldest stored sub-entry, otherwise changes nothing; leaves room for one more occupied id |
| VaultCache.Cache.Set | backend/src/cache.rs:472-489 | evicts, then writes one slot with the next version; keeps agreement with the last writes, distinct versions, and at most max(1, max_entries) occupied ids |
| VaultCache.Cache.Get | backend/src/cache.rs:444-469 | returns a value exactly when the last event on the slot is a write whose age is below its lifetime and below the staleness share of it; the value is what the codec keeps of that write; an expired slot is emptied; hits, misses and stale bypasses count exactly |
| VaultCache.Cache.Invalidate | backend/src/cache.rs:585-588 | drops one id |
| VaultCache.Cache.InvalidateAll | backend/src/cache.rs:591-594 | drops everything |
| VaultCache.Cache.InvalidateIfOlder | backend/src/cache.rs:625-636 | drops an id exactly when it is known and its vault version is not newer than the remote one |
| VaultCache.Cache.AutoTune | backend/src/cache.rs:416-431 | the new lifetime for each range of the hit ratio; no entry already stored changes |
| VaultCache.Cache.SetStalenessRatio | backend/src/cache.rs:694-697 | the ratio clamped to [0, 1] |
| VaultCache.Cache.SetCompressionThreshold | backend/src/cache.rs:715-718 | applies to later writes only |
| VaultCache.TableOutgrowsLimit | backend/src/cache.rs:199-202 | a reachable cache with a limit of one and two ids in its map, one of them emptied |
| CachePartition.NamespacedRoundTrip | backend/src/cache_partition.rs:23-33 | parsing a namespaced key returns the original pair if and only if the tenant id has no separator |
| CachePartition.NamespacedInjective | backend/src/cache_partition.rs:251-261 | for tenant ids the validator accepts, no two pairs share a namespaced key |
| CachePartition.RefusedTenantIds | backend/src/cache_partition.rs:251-261 | the tenant ids the validator refuses: empty, or holding a colon |
| CachePartition.NonInterference | backend/src/cache_partition.rs:198-243 | in every run, what one tenant is told, values and statistics, is what it would be told with all other tenants' operations erased |
| CachePartition.TenantsAreIsolated | backend/src/cache_partition.rs:198-243 | the same from the empty cache |
| CachePartition.OthersAreInvisible | backend/src/cache_partition.rs:203-235 | an operation of another tenant does not change a tenant's partition |
| CachePartition.LookupIsLastSet | backend/src/cache_partition.rs:105-139 | with a clock that does not go back, a lookup returns the last value set and not removed or cleared since, exactly while its lifetime lasts |
| CachePartition.StatisticsCountLookups | backend/src/cache_partition.rs:112-129 | a tenant has a partition exactly once it has set something; since then hits are the lookups that found a value, hits plus misses all lookups, and evictions the lookups that met an expired entry |
| CachePartition.StatisticsAreExact | backend/src/cache_partition.rs:142-153 | in every run the statistics a tenant is told are its live keys, hits, misses and evictions counted from its own operations |
| CachePartition.LookupsLeaveNoPartition | backend/src/cache_partition.rs:214-219 | without a write, lookups leave a tenant without a partition and without statistics |
| CachePartition.PartitionedCache.constructor | backend/src/cache_partition.rs:183-188 | starts with no partition |
| CachePartition.PartitionedCache.SetWithTtl | backend/src/cache_partition.rs:203-209 | creates the partition if needed and stores the entry |
| CachePartition.PartitionedCache.SetSafe | backend/src/cache_partition.rs:264-273 | refused without effect exactly for invalid tenant ids |
| CachePartition.PartitionedCache.Get | backend/src/cache_partition.rs:214-219 | an unknown tenant gets nothing and no partition; an expired entry is dropped |
| CachePartition.PartitionedCache.GetSafe | backend/src/cache_partition.rs:276-283 | refused without effect exactly for invalid tenant ids |
| CachePartition.PartitionedCache.PartitionStats | backend/src/cache_partition.rs:290-293 | live keys and counters of one tenant |
| CachePartition.PartitionedCache.Remove | backend/src/cache_partition.rs:222-227 | drops one key of one tenant |
| CachePartition.PartitionedCache.ClearTenant | backend/src/cache_partition.rs:230-235 | empties one partition and keeps its counters |
| CachePartition.PartitionedCache.ClearAll | backend/src/cache_partition.rs:238-243 | empties every partition and keeps their counters |
| CostTracking.GroupedIsBreakdown | backend/src/cost_tracking.rs:591-600 | accumulating entry by entry gives one sum for every name that occurs, each the cost of exactly the entries with that name |
| CostTracking.BreakdownConserves | backend/src/cost_tracking.rs:591-600 | the sums per operation add up to the total, and the sums under a tag key to the cost of the entries carrying it |
| CostTracking.BuildReport | backend/src/cost_tracking.rs:580-610 | total, count, currency, per-operation and per-tag sums, with both conservation laws |
| CostTracking.AddTags | backend/src/cost_tracking.rs:597-600 | one entry adds its amount under each of its tags and nowhere else |
| CostTracking.AtMostOneDominates | backend/src/cost_tracking.rs:433-436 | with non-negative costs at most one operation accounts for more than half of the total |
| CostTracking.BreachedExactly | backend/src/cost_tracking.rs:552-577 | a budget is reported breached exactly when the figure the report shows for its scope reaches its limit |
| CostTracking.Allocate | backend/src/cost_tracking.rs:615-639 | with positive history under the key every value gets its proportional share; otherwise nothing is allocated; the shares add up to the amount exactly when there is positive history or the amount is zero |
| CostTracking.CostState.constructor | backend/src/cost_tracking.rs:286-293 | starts empty |
| CostTracking.CostState.Record | backend/src/cost_tracking.rs:295-297 | appends an entry |
| CostTracking.CostState.SetBudgetThreshold | backend/src/cost_tracking.rs:538-542 | replaces the threshold of the category, keeps all others, never two of one category |
| CostTracking.CostState.Breaches | backend/src/cost_tracking.rs:552-577 | the breaches among the configured thresholds, in terms of the report |
| GasReport.Gather | backend/src/cost_tracking.rs:319-328 | the grand total saturates at the 64-bit maximum; the fees of each operation in order |
| GasReport.CheckedSum | backend/src/cost_tracking.rs:334 | adding up with overflow checks answers exactly when the sum fits 64 bits, with the sum |
| GasReport.StatsFor | backend/src/cost_tracking.rs:332-350 | count, total, average, maximum and minimum of the fees of one operation; aborts exactly when their sum does not fit 64 bits |
| GasReport.AverageIsBetween | backend/src/cost_tracking.rs:332-341 | the average lies between the minimum and the maximum |
| GasReport.LargeFeesAbort | backend/src/cost_tracking.rs:334 | fees on which the report aborts: two of one operation |
| GasReport.ListStats | backend/src/cost_tracking.rs:330-353 | one record per operation, totals descending and adding up to what the operations paid; aborts exactly when some operation overflows |
| GasReport.InsertDescends | backend/src/cost_tracking.rs:352-353 | sorting keeps totals descending |
| GasReport.BuildReport | backend/src/cost_tracking.rs:316-360 | a report is given if and only if no operation overflows on its own; then one record per operation, totals descending, min <= avg <= max, the listed totals add up to everything paid and agree with the saturating grand total exactly when that does not saturate |
| DeadlockDetector.CheckCycle | backend/src/deadlock.rs:219-250 | true exactly when the holder of the resource is recorded as waiting for something the requester holds |
| DeadlockDetector.RefusedExactlyWhenMutual | backend/src/deadlock.rs:160-180 | recording a wait on someone else adds a mutual wait exactly when the check objects, and never a self wait |
| DeadlockDetector.EveryRunIsSound | backend/src/deadlock.rs:160-205 | in every run of acquire and release no two holders are recorded as waiting on each other and no holder waits on its own resource |
| DeadlockDetector.DeadlockExactly | backend/src/deadlock.rs:160-173 | after any run, Deadlock is returned exactly when recording the wait would create such a pair |
| DeadlockDetector.NoShortCycles | backend/src/deadlock.rs:219-250 | no run contains a wait cycle of one or two holders |
| DeadlockDetector.TwoHoldersNeverCycle | backend/src/deadlock.rs:219-250 | while at most two parties hold locks there is no wait cycle of any length |
| DeadlockDetector.CycleFreeExactly | backend/src/deadlock.rs:219-250 | runs of given parties over given resources are free of wait cycles if and only if there are at most two parties or at most two resources |
| DeadlockDetector.MissedExactly | backend/src/deadlock.rs:160-180 | with no wait cycle so far, queueing closes one exactly when the holder waits, over any number of steps, for the requester; the check misses it exactly when no single wait does |
| DeadlockDetector.ThreeHoldersCanCycle | backend/src/deadlock.rs:235-247 | any three parties and three resources can form a wait cycle that is never reported: the check looks one level deep |
| DeadlockDetector.Detector.constructor | backend/src/deadlock.rs:141-147 | starts with no locks |
| DeadlockDetector.Detector.AcquireLock | backend/src/deadlock.rs:160-193 | the outcome in every case, the new lock table with the requester at the end of the waiters, and the deadlock counter |
| DeadlockDetector.Detector.ReleaseLock | backend/src/deadlock.rs:198-205 | ignored unless the caller holds the resource; its waiters go with it |
| AdaptiveBatcher.LatencyWindow.constructor | backend/src/batching.rs:80-85 | an empty window of capacity at least one |
| AdaptiveBatcher.LatencyWindow.Push | backend/src/batching.rs:87-92 | the window holds exactly the last capacity samples ever pushed |
| AdaptiveBatcher.SizeInRange | backend/src/batching.rs:124-191 | in every run the size stays between the minimum and the maximum |
| AdaptiveBatcher.AverageIsMean | backend/src/batching.rs:94-100 | after any latencies, the average is the rounded-down mean of exactly the last ones, as many as the window holds |
| AdaptiveBatcher.StepIsProportional | backend/src/batching.rs:169-178 | over the target the next size is the largest whose predicted cost is within the target; under the band it grows by at least one and at most a quarter; inside the band it stays |
| AdaptiveBatcher.SteadyAverage | backend/src/batching.rs:94-100 | once the window is full of one latency, that is the average |
| AdaptiveBatcher.GrowsSteadily | backend/src/batching.rs:173-180 | under a low constant latency the size gains at least one per batch until the maximum |
| AdaptiveBatcher.ShrinksSteadily | backend/src/batching.rs:169-180 | over the target the size loses at least one per batch until the minimum |
| AdaptiveBatcher.FrozenInBand | backend/src/batching.rs:164-178 | a constant latency in the slack band freezes the size |
| AdaptiveBatcher.ConstantLatencyConverges | backend/src/batching.rs:146-191 | after any history, a constant latency below 80% of the target (above the target) drives the size to the maximum (minimum) within window + (max - min) batches and keeps it there |
| AdaptiveBatcher.Batcher.constructor | backend/src/batching.rs:124-137 | the initial size clamped to the bounds |
| AdaptiveBatcher.Batcher.RecordBatch | backend/src/batching.rs:146-158 | size, window and counters follow the specification over all latencies recorded |
| AdaptiveBatcher.Batcher.Resize | backend/src/batching.rs:160-191 | one controller step; counts a resize exactly when the size changes |

## Left out

- HTTP handlers, JSON shapes, tracing, environment parsing and metric text beyond label rendering: plumbing.
- Redis and SQLite: only the success or failure of an operation matters here; the in-memory backend is modelled.
- Clocks and identifiers are parameters: `now`, `at`, fresh ids.
- Floating-point and Decimal rounding: reals are exact.
- Mutex poisoning and memory ordering: a critical section or an atomic operation is one step.
- dependency_map.rs: `diff` between arbitrary snapshots and the DOT export.
- bulkhead.rs: the registry that maps paths to bulkheads; replacing a configuration starts a new instance.
- consensus.rs: backend errors in the middle of a check; in Convergence a check is one step, and checks that overlap are in RacingChecks.
- circuit_breaker.rs: `allow_call`, `call_with_fallback` and the diagram; in HalfOpenProbes whether the open duration has passed is up to the run.
- anomaly_detection.rs: seasonal buckets, thresholds, the alert cooldown and investigations.
- custom_metrics.rs: aggregation queries, dashboards and shares, help lines of the export.
- cache.rs: coherence tokens, quorum checks, live counts and the compression metrics.
- cost_tracking.rs: the dashboard and the wording of suggestions.
- deadlock.rs: `with_retry` and lock ordering.
- batching.rs: counters wrap at 64 bits in the source and are unbounded here.
- Welford.Baseline.Observe: takes the standard deviation as a parameter that is the root of the variance, because square roots of reals are not computable here.
- PdfText.EscapedReadsBack: the reader knows the named escapes and line-end markers of literal strings but not octal codes, which the writer never produces.
- PdfReport.ReportRoundTrip: is about files below ten thousand million bytes, because cross-reference offsets have ten digits; `PdfFile.EntryWidth` shows the limit is exact.
- Bulkhead.AdmittedExactlyWhenFree: a permit the semaphore has handed to a waiter counts as free until the waiter has noticed it; the fairness of the semaphore is not modelled.
- MetricExport.ExportSamples: gives the samples by their rendered labels; the text lines with name, type, help and printed number are not modelled.
- MetricStore.CustomMetricsStore.Export: as ExportSamples, for one metric.
- VaultCache.Cache.Get: values are serialized bytes; parsing them, and the failure to parse a value cut by the codec, is outside.
- GasReport.BuildReport: overflow of a per-operation total is an abort, as the release profile of the workspace sets overflow-checks and panic = "abort" (Cargo.toml:61-66); what the caller of an aborted process sees is outside.
- AdaptiveBatcher.Batcher.RecordBatch: requires minimum <= maximum, because the source panics on the clamp otherwise; the number of samples is not cut to 32 bits and the low-water mark is not rounded to a nanosecond.
- CachePartition.LookupIsLastSet: requires times that do not decrease, which the monotonic clock of the source gives.
- CircuitBreaker.NeverRunsEarly: is about calls that start between the opening and its end, as the monotonic clock of the source gives; calls that overlap are in HalfOpenProbes.
