# goiotop: models and proofs

This project models the parts of goiotop (a system monitor written in Go) that hold real state, and
proves what they keep over every run. Metrics are opaque payloads with a timestamp, a PID or device
key and the numeric fields that the modelled code reads. Instants and durations are integers, read
from a clock that never goes back where a theorem says so.

- **Time-series store** (`Rings`, `RingBuffers`, `Series`, `MemoryRepositories`). `Rings` is the
  bounded series on values and its range queries; `RingBuffers` is the circular buffer over two
  arrays, each method tied to a step on values. `Series` is a main ring with one ring per key, and
  `MemoryRepositories` the same with ring objects in a map. The index is compared with the scan it
  replaces.
- **Aggregation** (`Aggregation`): the accumulator loops over system samples.
- **Continuous collection** (`Collectors`): callers and the collection goroutine as atomic steps with
  program counters around one mutex, one flag and two replaceable channels. Besides safety it settles
  when a waiting Stop can still return.
- **Alerting** (`AlertIds`, `Alerts`, `AlertingEngines`): the engine on values, its comparison with a
  function of the whole evaluation log, and the engine over alert objects updated in place.
- **Two-level cache** (`Lrus`, `Caches`, `MultiLevelCaches`): an LRU over a map and a recency list, the
  two levels on values, and the cache over two LRU objects. Whether the LRU library reports explicit
  removals to the eviction callback is a parameter (`Config.notifies`); every theorem covers both.
- **Exported counters** (`Deltas`, `PrometheusExporters`): deltas of absolute kernel counters.
- **/proc/[pid]/stat** (`Decimals`, `StatParser`): decimal text and the line parser, on strings whose
  characters are single bytes.

`Basics` and `TimeRanges` hold what the others share. Methods of the classes carry contracts that give
the whole new state as a step on values; the theorems are about those steps and their runs.

Where the code and its surroundings disagree, the code is followed: `QueryProcessMetrics` reads
`StartTime`, `EndTime`, `PID` and `Device` of a filter whose type (internal/domain/repositories/metrics.go:43-49)
has a `TimeRange` and lists instead, so a query here takes an optional key, a start and an end.

Seven promises turned out to hold only under a condition, which is proved exactly:

- A range query answers every well-formed range correctly if and only if the ring is below 100 samples
  or its timestamps are in order (`Rings.QueryAnswerExactIff`); `Rings.OutOfOrderIsMissed` is a ring
  that hides a sample, and `Rings.InvertedRangePanics` an ordered ring that panics on an inverted range
  (`Rings.SortedBinaryAnswer` says when).
- Eviction of the old prefix removes exactly the old samples, for every cutoff, if and only if the
  ring is in order (`Rings.EvictionExactIff`).
- Of a waiting Stop two conditions decide. It *can* return, by some continuation, if and only if the
  goroutine is not already waiting for the mutex that the Stop holds, nor its callback in the middle of
  a call to the collector (`Collectors.StopCanReturnIff`). No continuation deadlocks it any more if and
  only if the goroutine has already left its loop (`Collectors.StopIsSafeIff`): at the select it may
  still prefer a tick to the closed channel. Both bad states are reachable (`Collectors.DeadlockIsReachable`, `Collectors.CallbackDeadlockIsReachable`),
  and a callback that calls Stop itself never comes back (`Collectors.CallbackCannotStop`).
- After a Set no later Get returns a stale value if and only if no older copy with another value was in
  the second level to outlast the new entry (`Caches.SetIsSafeIff`, a condition on the cache before the
  Set; an instance in `Caches.StaleReadHappens`).
- In every run, "firing" coincides with "the elapsed time reaches the duration" if and only if the
  duration is not negative or more than one evaluation held in a row (`Alerts.FiringIffElapsed`, an
  instance of the exception in `Alerts.NegativeDurationStaysPending`).
- The stat parser panics exactly on the lines that `StatParser.PanicsIff` describes; none of them is in
  the layout of proc_pid_stat(5), an instance is `StatParser.ReversedParenthesesPanic`.
- Delete leaves the other keys alone except for the one copy described in `Caches.DeleteSparesOthersIff`;
  `Caches.DeleteDropsAnother` is a run after which it takes another key out of the cache.

## Model

| member | source | states |
|---|---|---|
| TimeRanges.NewTimeRange | internal/domain/repositories/metrics.go:25-41 | a range is refused exactly when it would contain no instant, and otherwise contains the instants from its start to its end, both included |
| Rings.StepKeepsValid | internal/infrastructure/storage/ringbuffer.go:46-341 | every operation keeps the ring a suffix of its push history within capacity, with every push either held or counted under exactly one kind of loss |
| Rings.StepKeepsHowMany | internal/infrastructure/storage/ringbuffer.go:46-341 | how many samples each operation leaves, which fixes which ones: the newest that many of the history |
| Rings.StepCountsLosses | internal/infrastructure/storage/ringbuffer.go:46-341 | each operation adds its losses to its own kind and to no other, and only a positive Resize changes the capacity |
| Rings.RunKeepsValid | internal/infrastructure/storage/ringbuffer.go:46-341 | the same over every run: totalWrites equals overwritten + popped + evicted + cleared + dropped + size |
| Rings.PushOnlyKeepsNewest | internal/infrastructure/storage/ringbuffer.go:46-61 | without removals the ring is exactly the newest capacity-many samples pushed |
| Rings.Search | internal/infrastructure/storage/ringbuffer.go:140-153 | on any input the binary search stops where the test changes from false to true |
| Rings.SortedBinaryAnswer | internal/infrastructure/storage/ringbuffer.go:132-166 | on ordered timestamps the binary path returns the samples of the range for every start and end, or panics exactly when the range is inverted across a stored sample and a sample at or after the start exists |
| Rings.BinaryAnswerExactIffSorted | internal/infrastructure/storage/ringbuffer.go:132-166 | the binary path answers every well-formed range correctly if and only if the stored timestamps are in order |
| Rings.QueryAnswerExactIff | internal/infrastructure/storage/ringbuffer.go:119-185 | the query, with its switch at 100 samples, returns exactly the samples of the range, in order, for every well-formed range if and only if the ring is below 100 samples or in order |
| Rings.OutOfOrderIsMissed | internal/infrastructure/storage/ringbuffer.go:128-166 | a ring filled by pushes with one sample out of order, and a range holding that sample, for which the query finds nothing |
| Rings.InvertedRangePanics | internal/infrastructure/storage/ringbuffer.go:140-158 | an ordered ring filled by pushes and an inverted range on which the query panics |
| Rings.EvictionExactIff | internal/infrastructure/storage/ringbuffer.go:255-271 | evicting the old prefix leaves exactly the samples not older than the cutoff, for every cutoff, if and only if the timestamps are in order |
| RingBuffers.RingBuffer.constructor | internal/infrastructure/storage/ringbuffer.go:26-38 | a new buffer is empty with both counters at zero, and has capacity 1000 when the requested one is not positive |
| RingBuffers.RingBuffer.HeadIsModulo | internal/infrastructure/storage/ringbuffer.go:46-80 | in every valid state head is (tail + size) modulo capacity |
| RingBuffers.RingBuffer.PushWithTime | internal/infrastructure/storage/ringbuffer.go:46-61 | the wrapped arrays take the Push step for every position of the tail, full or not |
| RingBuffers.RingBuffer.Pop | internal/infrastructure/storage/ringbuffer.go:64-80 | returns and removes the oldest sample and counts one read, or reports emptiness |
| RingBuffers.RingBuffer.Peek | internal/infrastructure/storage/ringbuffer.go:83-93 | returns the oldest sample and changes nothing |
| RingBuffers.RingBuffer.GetAll | internal/infrastructure/storage/ringbuffer.go:96-115 | all retained samples, oldest first; the read counter grows by their number |
| RingBuffers.RingBuffer.GetByTimeRange | internal/infrastructure/storage/ringbuffer.go:119-167 | the answer on values for every layout, and the read counter grows by its length |
| RingBuffers.RingBuffer.GetByTimeRangeLinear | internal/infrastructure/storage/ringbuffer.go:170-185 | the linear loop returns the samples of the range, in order |
| RingBuffers.RingBuffer.GetLatest | internal/infrastructure/storage/ringbuffer.go:188-213 | for n >= 0 the newest min(n, size) samples, oldest first; a panic exactly for a negative n on a non-empty buffer |
| RingBuffers.RingBuffer.EvictOlderThan | internal/infrastructure/storage/ringbuffer.go:255-271 | the loop drops exactly the old prefix and returns its length |
| RingBuffers.RingBuffer.Clear | internal/infrastructure/storage/ringbuffer.go:228-235 | empties the buffer, keeping both counters |
| RingBuffers.RingBuffer.Resize | internal/infrastructure/storage/ringbuffer.go:303-341 | keeps the newest min(size, new capacity) samples in fresh arrays; a non-positive or equal capacity changes nothing |
| Series.OfKeyInRange | internal/infrastructure/storage/memory.go:167-199 | restricting to a key and to a range commute |
| Series.SaveRetains | internal/infrastructure/storage/memory.go:93-146 | in every reachable state a save leaves the main ring with the newest of what it held and the sample, the key's ring likewise with room for 1000, and every other key untouched |
| Series.SavesAreRetained | internal/infrastructure/storage/memory.go:93-146 | over every run of saves alone the main ring holds the newest saves it has room for, and the query by key reads the newest 1000 saves of the key |
| Series.IndexAndScanNest | internal/infrastructure/storage/memory.go:93-146 | in every reachable state, whatever the timestamps: the index ring and the main ring restricted to the key are suffixes of the key's save history, one of the other, as are the samples of any range in them; no index entry is empty |
| Series.AnswersNest | internal/infrastructure/storage/memory.go:167-199 | of the query's answers by index and by scan to a well-formed range, one is a suffix of the other when both rings are below 100 samples or in order |
| Series.SaveKeepsAgreement | internal/infrastructure/storage/memory.go:93-112 | a save in time order keeps index and scan in agreement, also when it creates the index entry |
| Series.DeleteKeepsAgreement | internal/infrastructure/storage/memory.go:336-363 | a retention pass keeps index and scan in agreement, also when it deletes index entries |
| Series.IndexEqualsScan | internal/infrastructure/storage/memory.go:167-199 | with saves in time order and neither ring having overwritten, the query by index equals the main-ring query restricted to the key, over any run of saves, retention passes and closes |
| Series.LatestIsLastSaved | internal/infrastructure/storage/memory.go:261-277 | with saves in time order, while the main ring holds a sample of a key the latest-sample query returns the last one saved |
| Series.LatestIsNoneOrLastSaved | internal/infrastructure/storage/memory.go:261-277 | over every run, whatever the timestamps, the latest-sample query answers with nothing or with the last sample saved for the key |
| Series.DeletionIsExact | internal/infrastructure/storage/memory.go:336-363 | with saves in time order a retention pass leaves exactly the samples not older than the cutoff in every ring and drops the entries left empty |
| MemoryRepositories.IndexedSeries.constructor | internal/infrastructure/storage/memory.go:62-71 | an empty store |
| MemoryRepositories.IndexedSeries.Save | internal/infrastructure/storage/memory.go:93-146 | a nil sample is refused; any other goes to the main ring and to its key's ring, created on first use, all other rings unchanged |
| MemoryRepositories.IndexedSeries.Query | internal/infrastructure/storage/memory.go:167-248 | with a key the index alone is read, without one the main ring; the read counter grows by the number of results |
| MemoryRepositories.IndexedSeries.GetLatest | internal/infrastructure/storage/memory.go:261-277 | the newest sample of the key's ring, or nothing; the read counter grows by one when there is one |
| MemoryRepositories.IndexedSeries.DeleteOld | internal/infrastructure/storage/memory.go:336-363 | every ring is evicted and empty index entries disappear, in whatever order the map is walked |
| MemoryRepositories.IndexedSeries.Close | internal/infrastructure/storage/memory.go:411-426 | the main ring is empty afterwards, with its capacity, and the index has no entry |
| Aggregation.Minimum | internal/infrastructure/storage/memory.go:552-587 | every field of the result is at most that field of every sample and equal to one of them |
| Aggregation.Maximum | internal/infrastructure/storage/memory.go:589-624 | every field of the result is at least that field of every sample and equal to one of them |
| Aggregation.Sum | internal/infrastructure/storage/memory.go:626-650 | every field is the exact total that the average divides |
| Aggregation.Average | internal/infrastructure/storage/memory.go:526-550 | every field is total over count, truncated where the field is whole |
| Aggregation.AverageIsBetween | internal/infrastructure/storage/memory.go:526-624 | the truncated average lies between the minimum and the maximum |
| Aggregation.TotalLaws | internal/infrastructure/storage/memory.go:626-650 | the total of no samples is zero, of one its value, and of two lists the sum of their totals |
| Aggregation.AverageTimesCount | internal/infrastructure/storage/memory.go:526-550 | an average times the number of samples is the total, or for a whole field falls short of it by less than that number |
| Aggregation.FieldsDetermine | internal/infrastructure/storage/memory.go:526-650 | the eight fields are all there is to compare |
| Aggregation.Aggregate | internal/infrastructure/storage/memory.go:515-671 | nothing for no samples, the first sample for an unknown kind, otherwise the aggregate of the kind in every combined field and the first sample's value in every other |
| Collectors.StepKeepsInv | internal/infrastructure/collector/linux/collector.go:233-286 | every atomic step of every thread keeps the protocol invariant |
| Collectors.AtMostOneGoroutine | internal/infrastructure/collector/linux/collector.go:233-286 | under every interleaving: at most one goroutine pending or live, it uses the channel pair it was started with, and no channel is closed twice |
| Collectors.OneGoroutineEach | internal/infrastructure/collector/linux/collector.go:233-267 | over every interleaving each accepted Start starts exactly one goroutine |
| Collectors.GoroutineWasAskedFor | internal/infrastructure/collector/linux/collector.go:233-267 | every goroutine runs under the context and with the callback that some Start asked for |
| Collectors.StartsAndStopsAlternate | internal/infrastructure/collector/linux/collector.go:233-286 | in every run accepted Starts and Stops that return nil take turns; a goroutine ended by cancellation does not make room for another Start |
| Collectors.SeenIsFinal | internal/infrastructure/collector/linux/collector.go:252-256 | a goroutine that has seen its cancellation or its stop channel never selects, ticks, collects or calls back again, under any continuation |
| Collectors.CancelledCanEnd | internal/infrastructure/collector/linux/collector.go:250-256 | in every reachable state a goroutine at its select with a cancelled context can end with its own done channel closed |
| Collectors.CancelIsFinal | internal/infrastructure/collector/linux/collector.go:253 | a cancelled context stays cancelled |
| Collectors.GoroutineEndsOnlyWhenTold | internal/infrastructure/collector/linux/collector.go:251-263 | in every reachable state a goroutine that is ending or has ended has a cancelled context or a closed stop channel |
| Collectors.CollectionComesBack | internal/infrastructure/collector/linux/collector.go:257-262 | after a collection, with or without a callback, the goroutine comes back to its select with the mutex free |
| Collectors.CleanupStopsIffRunning | internal/infrastructure/collector/linux/collector.go:354-360 | a Cleanup goes on to a Stop exactly when it finds the flag up, and reads it without the mutex |
| Collectors.NoGoroutineAfterStop | internal/infrastructure/collector/linux/collector.go:233-286 | from a Stop that returned nil to the next accepted Start, or to the end of the run, every goroutine has exited, so no collection or callback is under way |
| Collectors.NoCallbackAfterStop | internal/infrastructure/collector/linux/collector.go:233-286 | between a Stop that returned nil and any later callback another Start has been accepted |
| Collectors.DeadlockIsForever | internal/infrastructure/collector/linux/collector.go:84-86 | a Stop waiting while the goroutine waits for its mutex, or while the callback is in a call to the collector, stays so under every continuation |
| Collectors.StopCanFinish | internal/infrastructure/collector/linux/collector.go:270-286 | otherwise some continuation brings the waiting Stop to its return |
| Collectors.StopCanReturnIff | internal/infrastructure/collector/linux/collector.go:270-286 | in every reachable state a waiting Stop can return if and only if neither the goroutine nor a call made by its callback is waiting for the Stop, which a callback that calls the collector can cause as well |
| Collectors.StopIsSafeIff | internal/infrastructure/collector/linux/collector.go:246-286 | in every reachable state no continuation deadlocks a waiting Stop while it waits if and only if the goroutine has left its loop |
| Collectors.CallbackCannotStop | internal/infrastructure/collector/linux/collector.go:257-286 | a callback that calls Stop or Cleanup never comes back, under any continuation |
| Collectors.DeadlockIsReachable | internal/infrastructure/collector/linux/collector.go:246-286 | one Start, one tick and one Stop reach a state from which Stop never returns |
| Collectors.CallbackDeadlockIsReachable | internal/infrastructure/collector/linux/collector.go:257-286 | so do a callback that calls CollectAll and a Stop |
| AlertIds.SystemIdsDecode | internal/infrastructure/alerting/engine.go:230-252 | equal system alert identifiers come from the same rule and metric |
| AlertIds.ProcessIdsDecode | internal/infrastructure/alerting/engine.go:261-276 | equal process alert identifiers come from the same rule, metric and PID |
| AlertIds.AlertIdInjective | internal/infrastructure/alerting/engine.go:230-276 | for all rule-ID strings no two targets, of either kind, share an alert identifier |
| AlertingEngines.SystemIdIsFormatted | internal/infrastructure/alerting/engine.go:251 | for a supported metric type the identifier formatted from the rule's metric text is that of its target |
| AlertingEngines.ProcessIdIsFormatted | internal/infrastructure/alerting/engine.go:276 | the same with the PID |
| AlertingEngines.SystemRuleReads | internal/infrastructure/alerting/engine.go:226-253 | for each of the seven metric texts the alert is active afterwards if and only if the comparison of that very reading with the threshold holds, and shows that reading |
| AlertingEngines.ProcessRuleReads | internal/infrastructure/alerting/engine.go:256-289 | the same for the four process texts and the last sample of every process |
| AlertingEngines.OtherTextsReadNothing | internal/infrastructure/alerting/engine.go:271-273 | any other text evaluates nothing |
| Alerts.StepKeepsInv | internal/infrastructure/alerting/engine.go:115-413 | every operation keeps the engine invariant, and an evaluation leaves the history within its size |
| Alerts.RulesEffect | internal/infrastructure/alerting/engine.go:115-148 | field by field the rule installed under an identifier after each operation: the last one added with its two defaults, nothing after a removal |
| Alerts.RemovalEffect | internal/infrastructure/alerting/engine.go:141-163 | removing a rule ends its alerts and no others and appends them to the history, beyond its limit if need be |
| Alerts.RunKeepsInv | internal/infrastructure/alerting/engine.go:115-413 | over every sequential run: active alerts are pending or firing and belong to an installed rule; history is a suffix of the resolve log, resolved and ordered by end; admissions of one alert are at least a window apart |
| Alerts.HistoryIsNewest | internal/infrastructure/alerting/engine.go:376-379 | after an evaluation the history is the newest min(size limit, all) of the complete resolve log |
| Alerts.ResolveAllEffect | internal/infrastructure/alerting/engine.go:152-159 | removing a rule takes out exactly the listed alerts and logs each as it stood, in any order of the walk |
| Alerts.AdmissionsAreRare | internal/infrastructure/alerting/engine.go:383-413 | within any span at most span / window + 1 notifications of one alert are admitted, across resolving and re-firing |
| Alerts.HeldBackIffRecent | internal/infrastructure/alerting/engine.go:403-413 | over every run a notification may be sent if and only if no admitted one of the same alert is more recent than the window |
| Alerts.AdmittedIffNewlyFiring | internal/infrastructure/alerting/engine.go:383-400 | an evaluation admits a notification if and only if its alert becomes firing and none is more recent than the window |
| Alerts.RunConserves | internal/infrastructure/alerting/engine.go:141-380 | active alerts and logged resolutions together are as many as alerts were started |
| Alerts.TrailingRun | internal/infrastructure/alerting/engine.go:317-380 | the maximal run of holding evaluations at the end of a log |
| Alerts.EvaluateMatches | internal/infrastructure/alerting/engine.go:317-380 | one evaluation keeps an alert equal to what its log says |
| Alerts.RunMatchesLog | internal/infrastructure/alerting/engine.go:317-380 | over every run: active iff the last evaluation held; start, last evaluation, count, value and threshold are those of the trailing run; firing iff some evaluation of it met its duration |
| Alerts.FiringIffElapsed | internal/infrastructure/alerting/engine.go:344-358 | over every run, for a rule that kept its duration since the alert started, firing coincides with LastEvalAt - StartsAt reaching the duration if and only if the duration is not negative or the count is not one |
| Alerts.NegativeDurationStaysPending | internal/infrastructure/alerting/engine.go:344-358 | a rule of negative duration, evaluated once, leaves its alert pending although the elapsed time exceeds the duration |
| Alerts.ThresholdLaws | internal/infrastructure/alerting/engine.go:292-309 | greater-than is the strict comparison, the other operators and all symbols follow from it as in an ordering, and an unknown operator never holds |
| AlertingEngines.ApplyIsRun | internal/infrastructure/alerting/engine.go:226-289 | the evaluations an evaluator makes are a run in the sense of the theorems |
| AlertingEngines.AlertingEngine.AddRule | internal/infrastructure/alerting/engine.go:115-138 | an empty ID is refused; otherwise the rule replaces any other under its ID, with its two defaults, all else untouched |
| AlertingEngines.AlertingEngine.RemoveRule | internal/infrastructure/alerting/engine.go:141-163 | an unknown rule is refused; otherwise exactly its alerts end and move to the history |
| AlertingEngines.AlertingEngine.ProcessAlertState | internal/infrastructure/alerting/engine.go:317-380 | alert objects updated in place take the evaluation step; no object is both active and in the history |
| AlertingEngines.AlertingEngine.FireAlert | internal/infrastructure/alerting/engine.go:383-400 | the alert becomes firing and the rate limiter is consulted |
| AlertingEngines.AlertingEngine.ShouldSendNotification | internal/infrastructure/alerting/engine.go:403-413 | where the limiter remembers the last admission, as it does in every run, sends exactly when no notification in the alert's log of admissions is more recent than the window, and adds this one to the log |
| AlertingEngines.AlertingEngine.EvaluateSystemRule | internal/infrastructure/alerting/engine.go:226-253 | one evaluation of the rule's system alert on the reading that the metric text names, none for an unsupported text |
| AlertingEngines.AlertingEngine.EvaluateProcessRule | internal/infrastructure/alerting/engine.go:256-289 | one evaluation per process in order on the reading that the metric text names, none for an unsupported text |
| AlertingEngines.AlertingEngine.GetAlertHistory | internal/infrastructure/alerting/engine.go:458-472 | the last limit entries, all of them for a limit out of range |
| AlertingEngines.AlertingEngine.CountByState | internal/infrastructure/alerting/engine.go:525-554 | firing and pending counts are right and add up to the number of active alerts |
| Lrus.AddedEffect | internal/infrastructure/optimization/cache.go:94-113 | adding keeps keys distinct and the size; only the oldest slot can be pushed out, every other key keeps its value |
| Lrus.SlotsAreByRecency | internal/infrastructure/optimization/cache.go:94-113 | after any sequence of touches, stores and removals the slots stand in the order of the last use of their keys |
| Lrus.LeastRecentlyUsedGoes | internal/infrastructure/optimization/cache.go:94-113 | a store pushes a slot out exactly when a new key finds the cache full, and then that of the least recently used key |
| Lrus.Lru.Get | internal/infrastructure/optimization/cache.go:129-143 | the looked-up entry, which becomes the most recent |
| Lrus.Lru.Add | internal/infrastructure/optimization/cache.go:102-113 | update in place, or insert and push out the oldest beyond the size |
| Lrus.Lru.Remove | internal/infrastructure/optimization/cache.go:191-192 | the key leaves, the others keep their order |
| Caches.AddL1Effect | internal/infrastructure/optimization/cache.go:102-109 | an entry pushed out of the first level is in the second afterwards unless it had expired |
| Caches.GetAnswers | internal/infrastructure/optimization/cache.go:125-162 | Get answers with the first level's copy if it is alive, else with the second's, else with nothing, when the key is left in neither; each of the four counters moves in exactly its case |
| Caches.FirstLevelHit | internal/infrastructure/optimization/cache.go:129-138 | a first-level hit counts one hit more, makes the entry the most recent and touches nothing else |
| Caches.GetStaysFresh | internal/infrastructure/optimization/cache.go:125-162 | of a key whose copies are fresh Get answers with nothing or the value last set, and a Get of any key keeps it fresh |
| Caches.PromotedIffFrequent | internal/infrastructure/optimization/cache.go:125-162 | a second-level hit, also behind an expired first-level entry, counts one hit more and promotes the entry exactly from its fourth hit on, with the first level's time to live |
| Caches.FourthHitPromotes | internal/infrastructure/optimization/cache.go:143-155 | of an entry that moved down uncounted: three Gets leave it in the second level with three hits, the fourth brings it back into the first |
| Caches.RoomyCacheFinds | internal/infrastructure/optimization/cache.go:125-218 | over any run, with room in the first level for every key that is set, a Get finds what was last set as long as that is alive |
| Caches.GetIsFresh | internal/infrastructure/optimization/cache.go:125-218 | with one fixed time to live for the key of at least the first level's, over any run on any keys a Get of it finds nothing or the value last set since the last Delete or Clear |
| Caches.SetEffect | internal/infrastructure/optimization/cache.go:170-184 | the two copies of the key after a Set, and exactly when the old second-level copy is pushed out by it |
| Caches.SetIsSafeIff | internal/infrastructure/optimization/cache.go:170-184 | in any cache, over all later runs whose Sets of the key are safe, no Get of it returns a stale value if and only if before the Set no older copy with another value was there to outlast the new entry |
| Caches.StaleReadHappens | internal/infrastructure/optimization/cache.go:125-184 | three Sets with unequal times to live after which a replaced value is returned |
| Caches.RunShape | internal/infrastructure/optimization/cache.go:125-248 | over every run both levels respect their sizes; first-level hits and misses add up to the Gets, second-level ones to the first-level misses; Sets and Deletes are counted |
| Caches.DeleteRemoves | internal/infrastructure/optimization/cache.go:187-194 | after Delete the key is in neither level, for both settings of the callback |
| Caches.DeleteSparesOthersIff | internal/infrastructure/optimization/cache.go:187-194 | Delete leaves another key's copies alone unless the reported removal pushes exactly that one out of the full second level |
| Caches.DeleteDropsAnother | internal/infrastructure/optimization/cache.go:102-109 | two Sets after which deleting one key makes the other unreachable, when removals are reported to the callback |
| Caches.ClearEmpties | internal/infrastructure/optimization/cache.go:197-203 | after Clear both levels are empty, whatever the purge of the first pushed into the second |
| Caches.ClearCounts | internal/infrastructure/optimization/cache.go:102-109 | what a reported purge counts as evictions: the entries alive |
| Caches.CleanupKeepsAlive | internal/infrastructure/optimization/cache.go:231-248 | cleanup leaves in both levels exactly the entries alive, in their old order, and moves no counter |
| MultiLevelCaches.CleanRound | internal/infrastructure/optimization/cache.go:236-247 | one round of cleanup's touching and removing rotates its window over the original order |
| MultiLevelCaches.MultiLevelCache.New | internal/infrastructure/optimization/cache.go:86-122 | a cache exactly when both sizes are positive |
| MultiLevelCaches.MultiLevelCache.OnEvict | internal/infrastructure/optimization/cache.go:103-109 | a slot that has not expired moves to the second level and is counted |
| MultiLevelCaches.MultiLevelCache.Get | internal/infrastructure/optimization/cache.go:125-162 | the Get step on both levels and the counters |
| MultiLevelCaches.MultiLevelCache.SetWithTTL | internal/infrastructure/optimization/cache.go:170-184 | the Set step on both levels and the counters |
| MultiLevelCaches.MultiLevelCache.Delete | internal/infrastructure/optimization/cache.go:187-194 | the Delete step; the key is in neither level |
| MultiLevelCaches.MultiLevelCache.Clear | internal/infrastructure/optimization/cache.go:197-203 | both levels empty |
| MultiLevelCaches.MultiLevelCache.CleanUp | internal/infrastructure/optimization/cache.go:231-248 | exactly the expired entries leave and the survivors keep their recency order, although every key is touched |
| Decimals.ParseUintItoa | internal/infrastructure/collector/linux/procfs.go:354-362 | unsigned numbers that fit come back from their text |
| Decimals.ParseIntItoa | internal/infrastructure/collector/linux/procfs.go:330-374 | signed 64-bit numbers come back from their text |
| Decimals.ParseUintExact | internal/infrastructure/collector/linux/procfs.go:341-362 | on any text: success exactly on digits that fit, with their value; a range error, with the largest number, exactly when digits at the front are too many; otherwise a syntax error, with zero |
| Decimals.ParseIntExact | internal/infrastructure/collector/linux/procfs.go:330-374 | on any text: success exactly on an optional sign and digits within the signed 64-bit range; saturation by sign on a range error, zero on a syntax error |
| Decimals.ItoaIsDecimal | internal/infrastructure/alerting/engine.go:276 | printing is decimal: digits, place values and sign |
| Decimals.ItoaInjective | internal/infrastructure/alerting/engine.go:276 | no two PIDs print alike |
| StatParser.FieldsOfJoined | internal/infrastructure/collector/linux/procfs.go:337-340 | splitting a space-joined line with trailing white space gives its fields |
| StatParser.FieldsOfSpread | internal/infrastructure/collector/linux/procfs.go:337 | splitting finds the words whatever ASCII white space lies between and around them |
| StatParser.PanicsIff | internal/infrastructure/collector/linux/procfs.go:312-338 | over all strings, the positions of the parentheses on which parsing panics |
| StatParser.EarlyErrorsIff | internal/infrastructure/collector/linux/procfs.go:312-333 | over all strings, when a missing parenthesis and when an unreadable pid is reported |
| StatParser.ReversedParenthesesPanic | internal/infrastructure/collector/linux/procfs.go:314-326 | the line ")(" panics |
| StatParser.ParseOfLayout | internal/infrastructure/collector/linux/procfs.go:312-377 | for every name and every list of fields: the pid, the name and the fields are found, fewer than twenty fields are reported, and nothing panics |
| StatParser.RoundTrip | internal/infrastructure/collector/linux/procfs.go:312-377 | every record whose values fit comes back from its line, for every name, spaces and parentheses included |
| StatParser.ShortRoundTrip | internal/infrastructure/collector/linux/procfs.go:369-374 | a line with 20 or 21 fields gives zero for the memory fields it lacks |
| StatParser.KernelLineParses | internal/infrastructure/collector/linux/procfs.go:312-377 | every record whose values fit comes back from its line with a line feed at the end |
| Deltas.TotalAfterAdding | internal/infrastructure/export/prometheus.go:577-583 | adding to one label set adds to the total of its source and of no other |
| Deltas.TotalIsUpSteps | internal/infrastructure/export/prometheus.go:571-594 | over any run the total exported for a source is the sum of the upward steps between its observed samples and never decreases |
| Deltas.UpStepsTelescopeIffRising | internal/infrastructure/export/prometheus.go:577-583 | that sum is last minus first if and only if the source never went back |
| Deltas.Shown | internal/infrastructure/export/prometheus.go:549-553 | a round shows its first processes, as many as a positive limit allows, all of them otherwise |
| Deltas.HiddenRoundsTelescope | internal/infrastructure/export/prometheus.go:553-594 | a source that never goes back is exported as last minus first of what was shown of it |
| PrometheusExporters.ProcessLogs | internal/infrastructure/export/prometheus.go:553-594 | the read and write bytes observed of a process are those of its own samples, in order |
| PrometheusExporters.DiskLogs | internal/infrastructure/export/prometheus.go:626-666 | the four counters observed of a device are those of its own samples, in order |
| PrometheusExporters.ProcessSampleExports | internal/infrastructure/export/prometheus.go:571-583 | one sample touches only the two series under its PID, name and user, and adds to each the step from the remembered counter, if there is one and it is not above |
| PrometheusExporters.ProcessTotalTelescopes | internal/infrastructure/export/prometheus.go:553-594 | under any process limit, the bytes read and the bytes written exported for a process are those of its last shown sample minus its first, when its counters never go back |
| PrometheusExporters.DiskTotalsTelescope | internal/infrastructure/export/prometheus.go:626-666 | the same for each of the four counters of a device |
| PrometheusExporters.PrometheusExporter.UpdateProcessMetrics | internal/infrastructure/export/prometheus.go:539-595 | the first limit processes with I/O counters are observed in order; nothing when processes are not included |
| PrometheusExporters.PrometheusExporter.UpdateDiskIO | internal/infrastructure/export/prometheus.go:617-666 | the four byte and operation counters of every device are observed in order |

## Left out

- MemoryRepositories.IndexedSeries.Query: does not apply the remaining filter (`MatchesProcessMetrics`), whose definition is not part of the repository, nor clone the results.
- MemoryRepositories.IndexedSeries.DeleteOld: covers one keyed half of the repository; the system and CPU-pressure rings are plain ring buffers evicted by the same call and share nothing with it.
- MemoryRepositories.IndexedSeries.Close: likewise one keyed half; the other rings are cleared by the same call.
- MultiLevelCaches.MultiLevelCache.Get: reads the clock once where the source reads it several times in one call, and treats the call as atomic although it runs under a read lock.
- Lrus.Lru.Overwrite: entries are values, so writing through an entry pointer is an overwrite of the most recent slot; no entry object is in two slots, because promotion copies and spilling moves.
- Alerts.Legal: evaluations are sequential with rule changes; removing a rule while an evaluation over a snapshot of the rules is under way is not modelled.
- AlertingEngines.AlertingEngine.EvaluateSystemRule: one rule at a time; the outer loops over a snapshot of the enabled rules, in map order, are left out.
- AlertingEngines.AlertingEngine.FireAlert: stops at the rate limiter's admission; looking up the rule's channels and sending over them is input and output.
- AlertingEngines.AlertingEngine.ProcessAlertState: labels, annotations and message text are not carried; a negative MaxHistorySize, for which the source panics, is not representable.
- Collectors.Step: the interval, its default of one second and the panic of the ticker on a negative one, and the contents of a collection are not modelled. The callback makes any calls to the collector, on a calling thread that is otherwise idle; methods that take the mutex only to read stand as CollectAll, one at a time.
- Collectors.NoCallbackAfterStop: the return of Stop is taken at its unlock, so a Start accepted between the unlock and the caller noticing the return counts as later.
- StatParser.Fields: splits at ASCII white space only, where the library also knows two non-ASCII spaces.
- Aggregation.Sum: exact numbers; float rounding and 64-bit overflow are not modelled. The process variant of the aggregation is left out as easy.
- PrometheusExporters.PrometheusExporter.UpdateDiskIO: gauges and the two time counters, which are added as absolute values, are left out.
- BeginTransaction, HealthCheck, memory estimates and top-process sorting: easy members or comparators that are not orders.
- Notification channels, Prometheus registration and server, exporters to files, the terminal interface, configuration, DTOs, pools, registries: input and output or wiring.
- Platform code (gopsutil, cgo, sysctl, opening /proc files, the rate caches): system calls and foreign code.
