# Centag: a model of the launcher, the limiters, the caches and the logging hook

Centag is a hub in front of language-model providers. This project models its small stateful
components in Dafny and proves what they promise over every run, every interleaving and every input.

| file | component |
|---|---|
| `Supervision.dfy` | the launcher's sidecar hub: one crash watcher and any number of shutdown calls share one slot |
| `SlidingWindow.dfy`, `TokenBucket.dfy` | the two rate limiters: the Redis script over sorted sets, and the in-memory token bucket |
| `ExactCache.dfy` | the exact-match cache with its backing store and goroutines |
| `CacheMetrics.dfy`, `MetricsOverlap.dfy` | its statistics, for calls one after the other and for calls that overlap |
| `PricingRules.dfy`, `PricingCache.dfy` | rule selection, and the TTL cache in front of it under overlapping calls |
| `Conversation.dfy` | which user and assistant messages the conversation log keeps |
| `ConfigBackup.dfy` | writing agent configuration with a backup, and restoring it |
| `Versions.dfy`, `Upgrade.dfy` | the version order, and the decision to install a bundled sidecar |
| `QueryText.dfy`, `Text.dfy` | query normalisation and the hit-strategy pipeline |
| `Basics.dfy` | an option type and facts about separators in strings |

Each module first says what the component does as a step function on values, then proves properties
of its runs, and ends with a class or methods in the form of the code, each proved to make exactly
that step. Clock readings, map iteration order, timers, failures and answers of foreign code are
parameters: an interleaving is a sequence of actions, one per critical section,
atomic operation or blocking call.
Text is a sequence of Unicode code points. Prices and tokens are reals.

## Where the code and its description differ

The model follows the code. Each difference is a lemma that says exactly when the promise holds,
with a run or an input on which it fails.

- Supervision is described as restarting the sidecar after unexpected exits, with a delay capped at
  30 s. A process can still be started exactly when nobody cancelled and the watcher is at a launch, or
  no shutdown began either and it has a process to wait for or is on its way to a launch
  (`RestartPossibleIff`, `CancelIsForever`). One failed
  restart ends that (`FailedRestartIsFinal`, reached in `RestartFailsOnce`), so the delay is 1 s or 2 s
  and the cap is never reached (`BackoffIsOneOrTwoSeconds`). A supervised hub around the placeholder of
  `--no-sidecar` starts nothing at all (`PlaceholderStartsNothing`).
- The size limit of the exact cache holds throughout a run exactly when no step overfills it
  (`LimitHoldsIff`): a Set does when the empty key, which `evictOldest` takes for "nothing found yet",
  is strictly oldest and visited last (`SetKeepsLimitIff`, and over all visiting orders
  `EveryOrderKeepsLimitIff`; `EmptyKeyOverflows`), and a Get does when it reloads a live entry into a
  full cache (`GetKeepsLimitIff`, `ReloadOverflows`).
- A deleted entry can come back from the store or from a goroutine that was started earlier
  (`DeletedKeyReturnsIff`, `DeletedKeyComesBack`), and so can an older value after a newer Set
  (`OtherEntryReturnsIff`). With a size limit of one: set k, set k again, the newer value is persisted
  first and the older one over it, another key evicts k, and a Get of k returns the older value
  (`OlderValueComesBack`). Once all goroutines of a Delete have succeeded the key is gone from the store,
  but a Get in between may have reloaded it into memory (`DeleteReachesStore`, `RemoveIsFinalIff`,
  `ReloadUndoesDelete`; without such a Get `DeleteIsFinal`).
- Overwriting a key of a full cache evicts another entry, although no room is needed, exactly when the
  scan finds another one (`OverwriteShrinksIff`).
- `GetStats` reports the last minute as of the last recorded event, and at most 1000 events of either
  kind. The window's length is too large exactly when its first element has left the minute, and too
  small exactly when an element that was cut off has not (`LaterCountIsTrueIff`,
  `BusyMinuteIsUnderstated`; for the reported rate `QpsIsTrueIff`).
- A strategy's hit rate is meant to be a percentage. GetStats loads `hits` before it takes the lock, so
  the rate is at most 100 exactly when the counter it then reads is at most what it loaded
  (`StrategyRateIff`). That holds unless a Reset was overlapped or a hit is counted and another passes
  the lock in between (`RatesWithoutOverlap`, `OverlappingHitShows200`). A Reset between the two halves
  of a RecordHit spoils the rates of later calls too (`ResetBalancesIff`, `OverlappingResetSpoils`, `SpoiledStatsShow200`).
- `InvalidateCache` does not stop a resolve that already listed the rules from caching what it saw;
  the epoch it increments is compared nowhere (`InvalidateIsEffectiveIff`, `StaleAfterInvalidate`).
- Price queries share cache entries exactly when they are typed or their names contain NUL
  (`PricingCache.KeyUnsharedIff`), and buffered turns exactly when they have a request id or a session
  id with a bar before its end (`Conversation.KeyUnsharedIff`). Keys made of names without the
  separator never coincide (`CacheKeyIsInjective`, `PendingKeyIsInjective`).
- Which pricing rule is chosen depends on the order of the list exactly when two different rules are
  eligible and unbeaten (`OrderIsIrrelevantIff`, `TiesDependOnOrder`). The SQL store sorts its list
  (`SmallestIdWins`); the memory store lists a map in arbitrary order.
- Restoring configuration is meant to bring back the state before Centag wrote. A listed file that
  was never written is deleted, a new file written twice comes back with its first content, and a
  second restore deletes what the first one brought back (`RestoreUndoesIff`,
  `FirstContentComesBack`, `SecondRestoreRemoves`).
- An upgrade is meant never to replace a newer installation. A launch puts an older binary in place
  exactly when an older payload with a version is copied and the installed version is unknown or taken
  for less than the payload's (`DowngradesIff`). If payloads and binaries say what they are, that means:
  without a marker and without an answer from the installed binary (`FailedProbeDowngrades`,
  `LaterFailedProbeDowngrades`), or with a marker that an interrupted copy left behind
  (`InterruptedCopyLosesNewestBinary`, `TruthfulDowngradesIff`). The marker goes down exactly when the
  binary is missing (`MarkerGoesDownIff`), and a payload without a version leaves a marker in place that
  has outlived its binary (`StaleMarkerSurvives`).
- Version segments from the largest 64-bit integer upwards all count as equal (`NumbersCompareIff`,
  `NumeralsCompareIff`; 2^63 - 1 and 2^63 in `LargestIntEqualsNext`).
- The normalize and custom stages drop empty candidates. The expand stage tests before it normalises,
  and so adds one exactly when some expansion is not empty and normalises to nothing
  (`ExpandAddsEmptyIff`, `SpaceAddsEmpty`; otherwise `NoEmptyCandidate`).
- A request refused by the TPM limit has already used its RPM allowance (`RefusalIsRecordedIff`,
  `RefusalSpendsRpmIff`). In the sliding window this never costs an admission as long as the limits
  stay fixed (`AdmittedIffBelowBoth`; `ChangedLimitsCostAnAdmission` when they change). In the token
  bucket it can exactly when RPM allows more than TPM (`RefusalsCanCostIff`, `RefusalsCostAnAdmission`).

## Model

| member | source | states |
|---|---|---|
| Supervision.StepInv | apps/launcher/supervise.go:32-125 | every atomic move of the watcher, a shutdown call, a waiter or a process keeps the invariant: only the newest process can be alive and somebody is responsible for stopping it |
| Supervision.RunInv | apps/launcher/supervise.go:32-125 | the invariant holds after every interleaving |
| Supervision.AtMostOneAlive | apps/launcher/supervise.go:45-125 | in every reachable state at most one process is alive, someone is responsible for stopping it, and cmd.Wait was called at most once per process |
| Supervision.NothingSurvivesShutdown | apps/launcher/supervise.go:32-41 | once shutdown has taken the slot, all stops have finished and the watcher has returned, every process ever started is dead and every log file closed, those started during shutdown or found unhealthy included |
| Supervision.SurvivorIsInTheSlot | apps/launcher/supervise.go:58-60 | a live process outlasts the watcher only in the slot, or while a shutdown call is stopping it |
| Supervision.StoppingIsForever | apps/launcher/supervise.go:96-121 | after shutdown began the slot is empty for ever, and only a launch already past its check can still start one process |
| Supervision.ShutdownTakesSlot | apps/launcher/supervise.go:32-41 | from every reachable state a shutdown can take the slot at once; then stopping is set, nothing is owned, and what the slot held is being stopped |
| Supervision.AliveIffNotDied | apps/launcher/process.go:64-74 | over every run a process started in it is a running one, alive in the end exactly when no death of it is in the run |
| Supervision.LogStaysOpen | apps/launcher/process.go:41-74 | in every reachable state the log of a process that is probed, being installed or in the slot is open |
| Supervision.RestartSucceeds | apps/launcher/supervise.go:70-123 | a reachable state after a crash whose slot holds a second process, alive and with an open log |
| Supervision.FailedRestartIsFinal | apps/launcher/supervise.go:103-113 | after one failed restart the slot stays empty and no process is started again, in every continuation |
| Supervision.RestartPossibleIff | apps/launcher/supervise.go:53-124 | from a reachable state a process can still be started exactly when nobody cancelled and the watcher is at the launch, or no shutdown began either and it is on its way there, or has or is about to install a real process |
| Supervision.CancelIsForever | apps/launcher/process.go:49-70 | after the context was cancelled no process is ever started |
| Supervision.CancelStopsLaunches | apps/launcher/process.go:49-70 | whatever was going on, after a cancellation no run starts a process |
| Supervision.RestartFailsOnce | apps/launcher/supervise.go:61-113 | a reachable state, with neither shutdown nor cancellation, in which a restart fails and after which nothing is ever started |
| Supervision.PlaceholderStartsNothing | apps/launcher/supervise.go:61-68 | a hub around the placeholder of --no-sidecar starts nothing in any run |
| Supervision.BackoffIsOneOrTwoSeconds | apps/launcher/supervise.go:50-51 | the delay is 1 s, or 2 s once nothing is owned any more; the 30 s cap is unreachable |
| Supervision.ShutdownWorkIsBounded | apps/launcher/supervise.go:32-125 | after a shutdown began all threads together make at most a bounded number of moves, two more per further shutdown call |
| Supervision.ShutdownNeverDeadlocks | apps/launcher/process.go:172-200 | while the watcher or a shutdown call is unfinished, some thread can move or is waiting for the one live process, which stop kills |
| Supervision.SidecarHub.constructor | apps/launcher/supervise.go:23-30 | the new hub owns the bootstrapped process and is an initial state |
| Supervision.SidecarHub.TakeSlot | apps/launcher/supervise.go:33-37 | the critical section of shutdown: sets stopping, empties the slot and takes over what it held |
| Supervision.SidecarHub.FinishShutdown | apps/launcher/process.go:195-199 | the end of stop closes the log file of the process that was taken |
| Supervision.SidecarHub.CloseLogOf | apps/launcher/process.go:195-198 | the log file of that process is closed and no other process changes |
| Supervision.SidecarHub.Lengthen | apps/launcher/supervise.go:106-111 | the delay after a failed restart |
| Supervision.SidecarHub.WatchOnce | apps/launcher/supervise.go:53-124 | the watch loop, one move at a time, and nothing else of the hub changes |
| SlidingWindow.KeysNeverCollide | core/internal/auth/ratelimit.go:58-59 | different API keys, the two limits of a key and the :seq counters never share a Redis key |
| SlidingWindow.TrimmedIsInside | core/internal/auth/ratelimit.go:70-77 | trimming and the 120 s expiry leave exactly the members of the last 60 s |
| SlidingWindow.CheckIsNaive | core/internal/auth/ratelimit.go:68-79 | check passes exactly when fewer than limit members were recorded in the last window of the untrimmed history, returns what is left, and the set still stands for that history |
| SlidingWindow.RunStands | core/internal/auth/ratelimit.go:80-88 | after every run the sets of every key stand for the full histories of that key alone, requests refused by TPM counted for RPM |
| SlidingWindow.CheckTrims | core/internal/auth/ratelimit.go:70-78 | after a check, passed or not, the set holds exactly as many members as were recorded in the last window |
| SlidingWindow.ScriptRefinesNaive | core/internal/auth/ratelimit.go:67-89 | over every run with a clock that does not go back, the script replies like a counter over the whole history |
| SlidingWindow.WindowBoundRpm | core/internal/auth/ratelimit.go:67-89 | every 60 s window of every run holds at most rpm admitted requests of a key, whatever other keys do |
| SlidingWindow.WindowBoundTpm | core/internal/auth/ratelimit.go:67-89 | the same for the TPM limit |
| SlidingWindow.RefusalIsRecordedIff | core/internal/auth/ratelimit.go:80-87 | a refused request is recorded for RPM exactly when RPM is limited and passed it and TPM refused it |
| SlidingWindow.RefusedAreFew | core/internal/auth/ratelimit.go:72-87 | with fixed limits the requests refused by TPM that RPM still counts never exceed rpm - tpm |
| SlidingWindow.AdmittedIffBelowBoth | core/internal/auth/ratelimit.go:67-89 | with fixed limits a request is admitted exactly when fewer than min(rpm, tpm) were admitted in the last window, so refused requests cost no admission |
| SlidingWindow.ChangedLimitsCostAnAdmission | core/internal/auth/ratelimit.go:67-89 | a run with a raised TPM limit in which a request refused before makes RPM refuse one although only one of two was admitted |
| SlidingWindow.RemainingCountsDown | core/internal/auth/ratelimit.go:72-88 | after an admitted request the same one is admitted again at that moment exactly when both remaining counts are positive, and then each limited one is one less |
| SlidingWindow.RedisSlidingWindow.constructor | core/internal/auth/ratelimit.go:91-96 | an empty store |
| SlidingWindow.RedisSlidingWindow.CheckKey | core/internal/auth/ratelimit.go:68-79 | the script's check changes one set and its counter in place as the step function says |
| SlidingWindow.RedisSlidingWindow.Allow | core/internal/auth/ratelimit.go:80-88 | both checks in order; RPM refusal leaves the TPM set alone |
| TokenBucket.KeysAreIsolated | core/internal/auth/ratelimit.go:143-152 | the bucket of a key is determined by that key's own requests |
| TokenBucket.RpmTokensStayInRange | core/internal/auth/ratelimit.go:143-166 | in every run, the limits of the key changing up to a bound, each bucket holds between 0 and that bound of RPM tokens |
| TokenBucket.TpmTokensStayInRange | core/internal/auth/ratelimit.go:143-178 | the same for TPM tokens |
| TokenBucket.AdmissionBoundRpm | core/internal/auth/ratelimit.go:137-182 | between any request at s and any later one at t a key whose positive limits never exceed rpm is admitted at most rpm + (t - s) * rpm / 60 times, whatever its TPM limits and other keys do |
| TokenBucket.AdmissionBoundTpm | core/internal/auth/ratelimit.go:137-182 | the same for the TPM limit, whatever the RPM limits do |
| TokenBucket.RestedRequestIsAdmitted | core/internal/auth/ratelimit.go:156-181 | a request one token's refill time after both meters were last touched is admitted |
| TokenBucket.RemainingCountsDown | core/internal/auth/ratelimit.go:156-181 | after an admitted request the same one is admitted again at that moment exactly when each limited remaining count is positive, and then it is one less |
| TokenBucket.RefusalSpendsRpmIff | core/internal/auth/ratelimit.go:156-175 | a refused request leaves an RPM token less than refilled exactly when RPM passed it and TPM did not |
| TokenBucket.RefusalsCostAnAdmission | core/internal/auth/ratelimit.go:156-175 | a run in which two requests refused by TPM make RPM refuse a later one that is admitted without them |
| TokenBucket.TpmNeverRefuses | core/internal/auth/ratelimit.go:156-178 | with fixed limits and rpm at most tpm, TPM never refuses a request that RPM passed |
| TokenBucket.RefusalsCanCostIff | core/internal/auth/ratelimit.go:137-182 | for fixed positive limits there is a run in which a request is refused that would be admitted had the requests refused by TPM never been made, exactly when rpm exceeds tpm |
| TokenBucket.MemoryTokenBucket.constructor | core/internal/auth/ratelimit.go:131-135 | no buckets, the empty run |
| TokenBucket.MemoryTokenBucket.Allow | core/internal/auth/ratelimit.go:137-182 | one call extends the run by one request, keeps the buckets those of the run, and replies as the key's own history says |
| ExactCache.GetReturnsWhatWasSet | core/internal/cache/exact.go:80-220 | whatever order the goroutines reach the store in, an entry Get returns was passed to an earlier Set of that key and is not past its expiry |
| ExactCache.ReturnsIffLiveCopy | core/internal/cache/exact.go:80-220 | without a new Set of its key a given entry can be returned in some continuation exactly when a live copy of it is in memory, in the store or with a pending goroutine |
| ExactCache.DeletedKeyReturnsIff | core/internal/cache/exact.go:198-220 | after Delete a given entry can come back exactly when the store or a pending persist goroutine holds a live copy of it at that moment |
| ExactCache.DeletedKeyComesBack | core/internal/cache/exact.go:198-215 | a run that ends with Delete and is followed by a Get that returns the deleted entry |
| ExactCache.ClearedKeyReturnsIff | core/internal/cache/exact.go:241-258 | after Clear a given entry can come back exactly when a pending goroutine holds a live copy, or the store does and the flush failed |
| ExactCache.DeleteReachesStore | core/internal/cache/exact.go:198-215 | from a state with no goroutine pending, after Delete and any run without a Set of the key whose goroutines all succeed and finish, the store has nothing of it, and only a copy reloaded into memory meanwhile can be returned |
| ExactCache.DeleteIsFinal | core/internal/cache/exact.go:198-215 | when no Get of the key found anything in that run, nothing can be returned any more |
| ExactCache.RemoveIsFinalIff | core/internal/cache/exact.go:206-215 | the deleting goroutine makes the key unreadable exactly when no live copy is in memory at that moment |
| ExactCache.ReloadUndoesDelete | core/internal/cache/exact.go:89-104 | a run in which a Get between Delete and its goroutine reloads the entry, which is still returned when all goroutines have succeeded |
| ExactCache.SetIsReadBackIff | core/internal/cache/exact.go:147-170 | a Set is read back with its value and stamp exactly until its time to live, or a hundred years for 0, is over |
| ExactCache.SetReachesStore | core/internal/cache/exact.go:172-190 | a Set starts a goroutine that puts its entry into the store, or changes nothing there when it fails |
| ExactCache.MissForgets | core/internal/cache/exact.go:98-136 | a Get that finds nothing leaves nothing of the key in memory and, the store working, in the store |
| ExactCache.DisabledStaysEmpty | core/internal/cache/exact.go:81-83 | in every run a disabled cache stores and returns nothing |
| ExactCache.OtherEntryReturnsIff | core/internal/cache/exact.go:147-195 | after a Set another entry of the key can be returned exactly when the store or a pending goroutine holds a live copy of it |
| ExactCache.OlderValueComesBack | core/internal/cache/exact.go:172-190 | a run of two Sets of a key, persisted in the wrong order, and an eviction, after which Get returns the older value |
| ExactCache.CacheRefinesTtlMap | core/internal/cache/exact.go:80-311 | without store and size limit, every Get after every run answers like a plain TTL map |
| ExactCache.CleanupChangesNoResult | core/internal/cache/exact.go:125-136 | two runs that differ only in reads and cleanups answer every later Get alike |
| ExactCache.CleanupIsExact | core/internal/cache/exact.go:288-300 | a cleanup leaves exactly the entries of the TTL map that have not expired |
| ExactCache.OldestIsOldest | core/internal/cache/exact.go:319-327 | without the empty key the scan finds an entry with the least timestamp, in any iteration order |
| ExactCache.EvictsNothingIff | core/internal/cache/exact.go:314-333 | an eviction removes nothing exactly when the cache is empty, or the empty key is visited last and strictly oldest |
| ExactCache.SetKeepsLimitIff | core/internal/cache/exact.go:160-170 | a Set keeps the size within max(old size, MaxSize) exactly when it does not meet the empty-key case, and otherwise adds one |
| ExactCache.OverwriteShrinksIff | core/internal/cache/exact.go:160-170 | a Set of a key that is there evicts another entry exactly when the cache is full and the scan finds another one |
| ExactCache.EveryOrderKeepsLimitIff | core/internal/cache/exact.go:160-170 | it does so in every iteration order exactly when it is not the case that the cache is full, the key new and the empty key strictly oldest |
| ExactCache.GetKeepsLimitIff | core/internal/cache/exact.go:89-118 | a Get keeps it exactly when it does not reload a live entry into a full cache, and otherwise adds one |
| ExactCache.SizeIsBounded | core/internal/cache/exact.go:80-195 | with a store too, the size exceeds MaxSize by no more than the number of such steps in the run |
| ExactCache.LimitHoldsIff | core/internal/cache/exact.go:80-195 | the size is within MaxSize at every point of a run exactly when the run has no such step |
| ExactCache.ReloadOverflows | core/internal/cache/exact.go:89-104 | a run without the empty key that leaves two entries in a cache limited to one |
| ExactCache.SizeStaysInLimit | core/internal/cache/exact.go:164-170 | without store and empty key no reachable state exceeds MaxSize |
| ExactCache.EmptyKeyOverflows | core/internal/cache/exact.go:319-332 | a run of two Sets that leaves two entries in a cache limited to one |
| ExactCache.NewestSurvive | core/internal/cache/exact.go:147-195 | after n Sets of distinct non-empty keys with increasing stamps the cache holds exactly the last min(n, MaxSize) of them |
| ExactCache.ExactMatchCache.constructor | core/internal/cache/exact.go:63-69 | the empty cache |
| ExactCache.ExactMatchCache.GetEntry | core/internal/cache/exact.go:80-144 | reload, lazy expiry and the result, with the new memory and store, store calls that fail included |
| ExactCache.ExactMatchCache.SetEntry | core/internal/cache/exact.go:147-195 | expiry, eviction, insertion and the persist goroutine |
| ExactCache.ExactMatchCache.EvictOldest | core/internal/cache/exact.go:314-333 | the scan removes what Oldest names and nothing else |
| ExactCache.ExactMatchCache.DeleteKey | core/internal/cache/exact.go:198-220 | removes the key and starts the deleting goroutine |
| ExactCache.ExactMatchCache.ClearAll | core/internal/cache/exact.go:241-258 | empties memory, and the store unless the flush fails; started goroutines stay |
| ExactCache.ExactMatchCache.CleanupExpired | core/internal/cache/exact.go:288-311 | deleting while ranging, in any order, keeps exactly the entries not past their expiry |
| CacheMetrics.TrimmingLosesNothing | core/internal/cache/metrics.go:62-76 | the window filtered and cut at every record call equals the newest at most 1000 events of the full history inside the last minute |
| CacheMetrics.WindowBalance | core/internal/cache/metrics.go:62-76 | read at any time, the window's length plus the elements it hides is the true count of the last minute plus the elements that have left it |
| CacheMetrics.LaterCountIsTrueIff | core/internal/cache/metrics.go:62-76 | compared with the uncut count of the last minute the window is too large exactly when its first element has left the minute, and too small exactly when an element cut off by the limit has not |
| CacheMetrics.ShortWindowIsTrueIff | core/internal/cache/metrics.go:62-76 | a window below 1000 elements is never too small, and right exactly when it is empty or its first element is inside the minute |
| CacheMetrics.BusyMinuteIsUnderstated | core/internal/cache/metrics.go:74-76 | 1001 events at one instant show as 1000 at that instant |
| CacheMetrics.QpsIsTrueIff | core/internal/cache/metrics.go:136-142 | the reported rate is the true one exactly when the stale elements of both windows are as many as the hidden ones |
| CacheMetrics.ShortWindowsQpsIff | core/internal/cache/metrics.go:136-142 | with both windows below 1000 the rate is never too low, and right exactly when neither begins with a stale element |
| CacheMetrics.AverageIsInRange | core/internal/cache/metrics.go:131-134 | the average latency lies between the least and the greatest one recorded, and is 0 without requests |
| CacheMetrics.CountersMatchHistory | core/internal/cache/metrics.go:48-102 | over every run hits, misses and the strategy counters count the events since the last reset, and the windows are their trimmed histories |
| CacheMetrics.TotalsMatchHistory | core/internal/cache/metrics.go:104-112 | sets, evictions and total latency are those of the events since the last reset |
| CacheMetrics.RatesAreInRange | core/internal/cache/metrics.go:125-148 | for calls one after the other the percentages GetStats reports lie in 0..100 and hit and miss rate add up to 100, whatever was recorded |
| CacheMetrics.CountsMatchHistory | core/internal/cache/metrics.go:115-164 | the reported counts are those of the events since the last reset, and the uptime the whole milliseconds since it |
| CacheMetrics.HitRateMatchesHistory | core/internal/cache/metrics.go:125-129 | hit and miss rate are the percentages of the hits and the misses since the last reset, 0 and 100 without any |
| CacheMetrics.StrategyRatesMatchHistory | core/internal/cache/metrics.go:144-148 | the strategies' rates are their percentages of the hits since the last reset, and absent without any |
| CacheMetrics.AverageMatchesHistory | core/internal/cache/metrics.go:131-134 | the average latency is the whole part of the latencies' total since the last reset over their number |
| CacheMetrics.WindowsMatchHistory | core/internal/cache/metrics.go:62-101 | after every run with a clock that does not go back each window shows what the full history shows |
| CacheMetrics.Recorder.constructor | core/internal/cache/metrics.go:37-45 | the statistics of the empty run |
| CacheMetrics.Recorder.Trim | core/internal/cache/metrics.go:65-76 | the filter loop and the cut compute the newest at most 1000 elements after the cutoff |
| CacheMetrics.Recorder.CountStrategy | core/internal/cache/metrics.go:55-60 | exactly the counter of the given strategy grows |
| CacheMetrics.Recorder.RecordHit | core/internal/cache/metrics.go:48-77 | one whole hit changes the statistics as the step function says |
| CacheMetrics.Recorder.RecordMiss | core/internal/cache/metrics.go:80-102 | one whole miss |
| CacheMetrics.Recorder.RecordSet | core/internal/cache/metrics.go:105-107 | one set |
| CacheMetrics.Recorder.RecordEviction | core/internal/cache/metrics.go:110-112 | one eviction |
| CacheMetrics.Recorder.ResetAll | core/internal/cache/metrics.go:168-183 | a whole reset: back to the empty run at that time |
| CacheMetrics.Recorder.GetStats | core/internal/cache/metrics.go:115-165 | all fields of the statistics of the recorded state, no other call in between |
| MetricsOverlap.LockedPartIsSequential | core/internal/cache/metrics.go:48-183 | however calls overlap, resets included, what is behind the lock is what the calls would leave one after the other in lock order |
| MetricsOverlap.WindowsSurviveOverlap | core/internal/cache/metrics.go:62-101 | so the windows still show what the full history shows |
| MetricsOverlap.CountersRunAhead | core/internal/cache/metrics.go:48-112 | without a reset the atomic counters exceed those of the calls in lock order by exactly the calls under way |
| MetricsOverlap.QuietIsSequential | core/internal/cache/metrics.go:48-112 | without a reset, whenever no call is under way the statistics equal those of the calls one after the other |
| MetricsOverlap.WholeStats | core/internal/cache/metrics.go:115-165 | a GetStats with no step of another call in between reports the statistics as they are |
| MetricsOverlap.WholeReset | core/internal/cache/metrics.go:168-183 | a Reset with no step of another call in between leaves fresh statistics |
| MetricsOverlap.HitRateIsInRange | core/internal/cache/metrics.go:125-129 | hit and miss rate are percentages and add up to 100 however calls overlap |
| MetricsOverlap.StrategyRateIff | core/internal/cache/metrics.go:144-148 | a strategy's rate is at most 100 exactly when its counter read under the lock is at most the hits loaded before |
| MetricsOverlap.RunIsBalanced | core/internal/cache/metrics.go:48-60 | without a reset every hit behind the lock or on its way there is in hits |
| MetricsOverlap.CountersGrow | core/internal/cache/metrics.go:48-60 | from a balanced state hits grows by the hits counted since, and the strategy counters by at most the hits that passed the lock since |
| MetricsOverlap.RatesWithoutOverlap | core/internal/cache/metrics.go:115-148 | from a balanced state without resets, when between load and read no hit is counted or none passes the lock, the strategy rates are at most 100 |
| MetricsOverlap.OverlappingHitShows200 | core/internal/cache/metrics.go:115-148 | a run in which a RecordHit between load and read makes GetStats report 200 percent |
| MetricsOverlap.ResetBalancesIff | core/internal/cache/metrics.go:168-183 | a whole reset restores the balance exactly when no hit is on its way to the lock |
| MetricsOverlap.OverlappingResetSpoils | core/internal/cache/metrics.go:168-183 | a run in which a reset comes between the halves of a RecordHit, after which no call is under way and the exact counter exceeds the hits |
| MetricsOverlap.SpoiledStatsShow200 | core/internal/cache/metrics.go:144-148 | from such a state a GetStats all alone reports 200 percent |
| MetricsOverlap.OverlappingMetrics.constructor | core/internal/cache/metrics.go:37-45 | empty statistics and no calls |
| MetricsOverlap.OverlappingMetrics.MoveHit | core/internal/cache/metrics.go:48-77 | RecordHit, one atomic operation or critical section at a time |
| MetricsOverlap.OverlappingMetrics.MoveMiss | core/internal/cache/metrics.go:80-102 | RecordMiss in the same way |
| MetricsOverlap.OverlappingMetrics.MoveReset | core/internal/cache/metrics.go:168-183 | Reset: five atomic stores and the critical section |
| MetricsOverlap.OverlappingMetrics.MoveStats | core/internal/cache/metrics.go:115-165 | GetStats: five atomic loads and the read under the lock |
| PricingRules.BestIffWins | core/internal/billing/pricing_service.go:166-186 | the loop ends with position i exactly when i is the first eligible rule that none beats in (priority, specificity), and with none exactly when no enabled match has priority at least -2^30 |
| PricingRules.BetterIff | core/internal/billing/pricing_service.go:163-201 | of two rules the better one has the higher priority, or that being equal names the backend while the other does not, or that being equal too names the model while the other does not |
| PricingRules.WinnerIsMostSpecific | core/internal/billing/pricing_service.go:163-201 | the rule returned is enabled and fits, none that fits has a higher priority, and none of its priority names the backend, or that being equal the model, while it does not; none is returned exactly when none fits |
| PricingRules.WinningRankIgnoresOrder | core/internal/billing/pricing_service.go:163-186 | permuting the list never changes whether a rule wins, nor its priority and specificity |
| PricingRules.OrderIsIrrelevantIff | core/internal/billing/pricing_service.go:163-186 | every order of the list gives the same rule exactly when all eligible rules that none beats are equal |
| PricingRules.TiesDependOnOrder | core/internal/billing/rule_store_memory.go:47-57 | of two equally ranked rules the first listed wins |
| PricingRules.SmallestIdWins | core/internal/billing/rule_store_sql.go:35-41 | on a list in the SQL store's order the winner has the smallest id among the rules none is better than |
| PricingRules.AnswerComesFromRule | core/internal/billing/pricing_service.go:229-259 | a price taken from a rule is that of an enabled matching rule of the asked type, or of type cost |
| PricingRules.AnswerIs | core/internal/billing/pricing_service.go:104-127 | the answer is the price, currency and id of the best rule of the asked type, or else of the best cost rule, or else the default of 0.7 dollars, and its type says which |
| PricingRules.AnswerIgnoresOrder | core/internal/billing/pricing_service.go:229-259 | when no two different rules are unbeaten, the price does not depend on the order of either listing |
| PricingRules.MatchPricingRule | core/internal/billing/pricing_service.go:166-186 | the loop returns a winning rule, or none exactly when there is no eligible one |
| PricingCache.CacheKeyIsInjective | core/internal/billing/pricing_service.go:62-68 | queries whose names contain no NUL never share a cache entry, typed and untyped ones included |
| PricingCache.KeyUnsharedIff | core/internal/billing/pricing_service.go:62-68 | a query shares its key with no other one exactly when it is untyped and its names contain no NUL |
| PricingCache.CacheKeysCollide | core/internal/billing/pricing_service.go:62-68 | with a NUL in the model name an untyped and a typed query share one |
| PricingCache.StepInv | core/internal/billing/pricing_service.go:70-102 | every step of overlapping calls, edits, invalidations and the clock keeps: each cached price is what some store version gives, and expires within ttl of being read |
| PricingCache.BoundedStaleness | core/internal/billing/pricing_service.go:70-102 | however calls overlap, and in whatever order the store lists, a call that began at now returns a price read from a version current at some moment later than now - ttl, for its own cache key |
| PricingCache.ServesOldIff | core/internal/billing/pricing_service.go:79-102 | later calls can be served a price read before a given version exactly when a live cache entry or a call in flight holds one |
| PricingCache.InvalidateIsEffectiveIff | core/internal/billing/pricing_service.go:70-77 | after InvalidateCache later calls see only the current or newer versions exactly when no call holding an older, unexpired listing is in flight |
| PricingCache.StaleAfterInvalidate | core/internal/billing/pricing_service.go:70-102 | a reachable state in which the cache is invalidated after an edit and a later call can still be served the price from before it |
| PricingCache.FailureCachesNothing | core/internal/billing/pricing_service.go:91-94 | a call whose listing fails returns an error and caches nothing |
| PricingCache.DefaultPricingService.constructor | core/internal/billing/pricing_service.go:50-60 | an empty cache over the store's first version |
| PricingCache.DefaultPricingService.InvalidateCache | core/internal/billing/pricing_service.go:70-77 | empties the cache and increments the epoch |
| PricingCache.DefaultPricingService.LookUp | core/internal/billing/pricing_service.go:204-214 | the lookup returns the cached price when it has not expired, and otherwise goes on to list |
| PricingCache.DefaultPricingService.ListRules | core/internal/billing/pricing_service.go:229-245 | the first listing resolves the price, or goes on to the cost rules |
| PricingCache.DefaultPricingService.ListCostRules | core/internal/billing/pricing_service.go:247-258 | the second listing resolves the price from the cost rules or the default |
| PricingCache.DefaultPricingService.PutPrice | core/internal/billing/pricing_service.go:221-226 | the write stamps the entry with the clock read before the listing, plus ttl |
| Conversation.PendingKeyIsInjective | core/internal/conversation/hook.go:70-75 | requests of sessions whose ids contain no vertical bar are buffered under different keys |
| Conversation.KeyUnsharedIff | core/internal/conversation/hook.go:70-75 | a turn shares its key with no other session and request exactly when it has no request id and no bar in its session id but possibly at the end |
| Conversation.BarAtTheEndIsUnshared | core/internal/conversation/hook.go:70-75 | a session id whose only bar is its last character shares its key with no other turn when there is no request id |
| Conversation.PendingKeysCollide | core/internal/conversation/hook.go:70-75 | with a bar in a session id two requests share a key |
| Conversation.PendingIsOpenRequest | core/internal/conversation/hook.go:115-154 | in every run a key is buffered exactly while its last request is unanswered, with that request's content |
| Conversation.OpenIff | core/internal/conversation/hook.go:149-153 | which request that is: the last one for the key that no response for the key follows |
| Conversation.ConsumedOnce | core/internal/conversation/hook.go:149-153 | after a response its key is buffered only if a newer request came: no request is consumed twice |
| Conversation.ReplayAddsNoUser | core/internal/conversation/hook.go:155-160 | a replayed response hands over no user content |
| Conversation.StateFollowsProcessed | core/internal/conversation/hook.go:184-231 | in every interleaving the memory of each session and the written messages depend only on the processed turns, in order |
| Conversation.UserOncePerRepeat | core/internal/conversation/hook.go:188-214 | in every interleaving the user messages of a session are its non-empty contents with consecutive repeats collapsed, dropped and differing turns included |
| Conversation.RecentIsLastRecorded | core/internal/conversation/hook.go:190-201 | the remembered content, reply and stamp are those of the last recorded turn of the session |
| Conversation.DroppedIff | core/internal/conversation/hook.go:133-198 | a turn is dropped exactly when the last recorded turn of its session has the same content, the same non-empty reply and a stamp less than 30 s before it; drops do not move the stamp |
| Conversation.LogIsTranscript | core/internal/conversation/hook.go:131-231 | in every interleaving the log is, turn by turn, nothing for a retry, and else the user content unless it is the last one again, followed by the reply |
| Conversation.RepliesAreKept | core/internal/conversation/hook.go:133-136 | in every interleaving the assistant messages of a session are the non-empty replies of exactly its turns that are no retries, in order |
| Conversation.ResponseHandsOver | core/internal/conversation/hook.go:145-184 | a response hands over the content of the last unanswered request for its key unless that is auxiliary, or its reply alone when there is none and the session is known |
| Conversation.TurnsAreConserved | core/internal/conversation/hook.go:184-231 | in every run each turn handed over is processed once or still waits for its goroutine |
| Conversation.LoggingHook.constructor | core/internal/conversation/hook.go:62-68 | nothing buffered, nothing remembered |
| Conversation.LoggingHook.OnRequest | core/internal/conversation/hook.go:115-127 | buffers the turn under its key, replacing an older one |
| Conversation.LoggingHook.OnResponse | core/internal/conversation/hook.go:145-184 | takes the buffered turn and starts at most one goroutine |
| Conversation.LoggingHook.RunTurn | core/internal/conversation/hook.go:184-231 | one goroutine updates the memory and writes its messages |
| ConfigBackup.BackupPathIsInjective | core/internal/agent/templates.go:166-170 | different files have different backups |
| ConfigBackup.WriteAllIsAfterWrites | core/internal/agent/templates.go:174-209 | one call does exactly the steps before the first unresolved path or failing step, and succeeds exactly when there is neither |
| ConfigBackup.WritesTrack | core/internal/agent/templates.go:188-223 | after any writes, cut short anywhere, the backup of a file that existed holds its original bytes; that of a new file, from the second touch on, the first content written |
| ConfigBackup.WritesFrame | core/internal/agent/templates.go:174-209 | files that are neither written nor backups stay as they are |
| ConfigBackup.WritesLeavePieces | core/internal/agent/templates.go:192-206 | after any writes, cut short anywhere, a file holds what the last overwriting write left, with what was appended since, joined by line ends |
| ConfigBackup.AppendsKeepOriginal | core/internal/agent/templates.go:192-200 | a file that is only appended to keeps its original content at the front |
| ConfigBackup.RestoreIsLocal | core/internal/agent/templates.go:245-280 | a restore treats each listed path, however often listed, like one restore of that path alone |
| ConfigBackup.RestoreFrame | core/internal/agent/templates.go:245-280 | files that are neither listed nor backups stay as they are |
| ConfigBackup.RestoreUndoesIff | core/internal/agent/templates.go:241-280 | after any writes, cut short anywhere, one restore returns a listed file and its backup to their original state exactly when the file existed and was touched, or did not exist and was touched at most once |
| ConfigBackup.FirstContentComesBack | core/internal/agent/templates.go:257-269 | a new file touched twice or more comes back with the first content written |
| ConfigBackup.SecondRestoreRemoves | core/internal/agent/templates.go:257-274 | a second restore removes every listed file, restored originals included |
| ConfigBackup.ResultsReport | core/internal/agent/templates.go:225-279 | a result is reported for a path exactly when it is listed, and says what happened to it |
| ConfigBackup.OutcomesAreTrue | core/internal/agent/templates.go:225-277 | restored is reported exactly for files that are there afterwards, with their backup's content, removed for those that were there and are not, skipped for those that never were |
| ConfigBackup.NoResultTwice | core/internal/agent/templates.go:247-253 | no path is reported twice |
| ConfigBackup.ConfigStore.constructor | core/internal/agent/templates.go:172-174 | starts from any file system |
| ConfigBackup.ConfigStore.EnsureBackup | core/internal/agent/templates.go:211-223 | copies an existing file once and never overwrites a backup |
| ConfigBackup.ConfigStore.WriteFiles | core/internal/agent/templates.go:174-209 | the loop over the files, stopping at the first unresolved path or failing step |
| ConfigBackup.ConfigStore.RestoreConfigFiles | core/internal/agent/templates.go:245-280 | the loop restores the files before the first failing step, returns their results, and succeeds exactly when it gets past all |
| ConfigBackup.ConfigStore.RestorePath | core/internal/agent/templates.go:255-277 | one path: restored and its backup gone, removed, or skipped |
| Text.TrimSpaceShape | core/internal/cache/hit_strategy.go:105 | trimming splits a text into outer white space and a part with none at its ends |
| Text.TrimmedLineReadsBack | apps/launcher/install_sidecar.go:39-45 | a trimmed text written with a line end is read back unchanged |
| Versions.SplitRoundTrip | apps/launcher/install_sidecar.go:50-51 | splitting at the dots loses nothing and leaves no dot in a segment |
| Versions.CompareIsAntisymmetric | apps/launcher/install_sidecar.go:49-65 | swapping the arguments flips the sign, and 0 means that the segments agree everywhere, missing ones counting as empty |
| Versions.EqualIsInterchangeable | apps/launcher/install_sidecar.go:49-65 | versions that compare equal compare alike with every third one |
| Versions.CompareIsTransitive | apps/launcher/install_sidecar.go:49-65 | the order is transitive on all strings, strictly when either step is strict |
| Versions.TrailingZeroIsEqual | apps/launcher/install_sidecar.go:52-59 | a trailing .0 makes no difference |
| Versions.TextCompareIff | apps/launcher/install_sidecar.go:76-78 | text comes before text that continues it or has the greater character at the first difference |
| Versions.LessIff | apps/launcher/install_sidecar.go:47-80 | a version is less exactly when at the first position where the segments differ its number is less, or the numbers agree and its text comes first |
| Versions.LeadingVIsEqual | apps/launcher/install_sidecar.go:50-51 | a leading v makes no difference |
| Versions.SuffixIsGreater | apps/launcher/install_sidecar.go:47-48 | a segment followed by a suffix is greater |
| Versions.NumbersCompareIff | apps/launcher/install_sidecar.go:82-89 | digit segments compare as numbers exactly when it is not the case that both are at least 2^63 - 1 and the first is smaller |
| Versions.NumeralReadsBack | apps/launcher/install_sidecar.go:82-89 | a number written in decimal reads back as itself |
| Versions.NumeralsCompareIff | apps/launcher/install_sidecar.go:47-89 | of two numbers as versions the first is less exactly when it is less and below 2^63 - 1 |
| Versions.LargestIntEqualsNext | apps/launcher/install_sidecar.go:82-89 | 9223372036854775807 and 9223372036854775808 compare equal |
| Versions.LeadingInt | apps/launcher/install_sidecar.go:82-89 | the number of the longest digit prefix and where the rest begins |
| Versions.CompareVersionSegment | apps/launcher/install_sidecar.go:67-80 | the segment comparator computes the segment order |
| Versions.CompareSplit | apps/launcher/install_sidecar.go:52-64 | the loop over the segments of both versions computes their order, missing segments read as empty |
| Versions.CompareVersions | apps/launcher/install_sidecar.go:49-65 | splitting and comparing gives the version order that the lemmas above are about |
| Upgrade.LaunchFailsIff | apps/launcher/install_sidecar.go:121-163 | a launch fails exactly when there is no payload binary or a copy that was due stopped early, and then changes nothing or the binary alone |
| Upgrade.SuccessLeavesBinary | apps/launcher/install_sidecar.go:117-163 | after a successful launch outside the payload's own directory there is a binary |
| Upgrade.CopyInstallsPayload | apps/launcher/install_sidecar.go:193-237 | a due copy that completes leaves the payload's binary and a marker naming the payload's version, when it has one |
| Upgrade.NoCopyKeepsBinary | apps/launcher/install_sidecar.go:127-158 | when no copy is due the binary stays |
| Upgrade.CleanInstall | apps/launcher/install_sidecar.go:137-162 | a successful launch with no binary installed installs the payload and its marker |
| Upgrade.StaleMarkerSurvives | apps/launcher/install_sidecar.go:231-235 | a payload without a version installed beside an old marker leaves that marker |
| Upgrade.BinaryComesFromPayload | apps/launcher/install_sidecar.go:121-163 | the binary after any launches is the one before them or one of the payloads' |
| Upgrade.LaunchesInstall | apps/launcher/install_sidecar.go:117-163 | after any successful launches on a clean machine the binary is one that was offered |
| Upgrade.AdoptedMarkerProtects | apps/launcher/install_sidecar.go:144-149 | a launch that learns the installed version and keeps it adopts it as marker, and from then on an older payload is refused without asking |
| Upgrade.DowngradesIff | apps/launcher/install_sidecar.go:121-163 | a launch puts an older binary in the place of the installed one exactly when an older payload with a version is copied, and the installed version is unknown or taken for less than the payload's |
| Upgrade.TruthfulDowngradesIff | apps/launcher/install_sidecar.go:135-191 | when payload and installed binary say what they are, exactly when there is neither marker nor answer, or the marker is older than the payload though the binary is newer |
| Upgrade.LaunchKeepsNewer | apps/launcher/install_sidecar.go:121-163 | a sound launch keeps the marker true and leaves the newer of the installed and the offered binary |
| Upgrade.FinalVersionIsMaximum | apps/launcher/install_sidecar.go:117-163 | after any sound sequence of launches the true version of the binary is a maximum of the initial one and all completely copied offers, and the marker never names another |
| Upgrade.NeverDowngrades | apps/launcher/install_sidecar.go:117-121 | no later launch of a sound sequence puts an older binary in place |
| Upgrade.MarkerGoesDownIff | apps/launcher/install_sidecar.go:135-155 | however the copying goes, the marker goes down exactly when the binary is missing and an older versioned payload is copied completely |
| Upgrade.FailedProbeDowngrades | apps/launcher/install_sidecar.go:141-151 | without a marker and without an answer any older payload with a version replaces the binary |
| Upgrade.LaterFailedProbeDowngrades | apps/launcher/install_sidecar.go:144-151 | even after a launch on which the binary answered, when the adopted marker was not written |
| Upgrade.InterruptedCopyLosesNewestBinary | apps/launcher/install_sidecar.go:212-236 | after a copy that stopped between binary and marker, an older payload replaces the newest binary |
| Upgrade.Installer.constructor | apps/launcher/install_sidecar.go:32-37 | starts from any installed tree |
| Upgrade.Installer.EnsureSidecarInstalled | apps/launcher/install_sidecar.go:121-163 | the decision, the adopted marker and the copy |
| Upgrade.Installer.InstallSidecarTree | apps/launcher/install_sidecar.go:193-237 | binary first, marker last, with the two ways to stop in between |
| QueryText.NormalizeIsFieldJoin | core/internal/cache/hit_strategy.go:103-128 | normalising is removing zero-width characters, splitting at white space and joining with single spaces |
| QueryText.LoopBuilds | core/internal/cache/hit_strategy.go:109-126 | the one-pass loop holds the joined fields of what it has read, with a leading and a trailing space where the text has white space |
| QueryText.FieldsAreWords | core/internal/cache/hit_strategy.go:116-125 | fields are non-empty and free of white space |
| QueryText.FieldsOfJoin | core/internal/cache/hit_strategy.go:103-128 | splitting a joined list of words gives the list back |
| QueryText.NormalizeIsIdempotent | core/internal/cache/hit_strategy.go:103-128 | normalising twice is normalising once |
| QueryText.SameNormalFormIff | core/internal/cache/hit_strategy.go:103-128 | two queries normalise alike exactly when they have the same words |
| QueryText.NormalFormIsSingleSpaced | core/internal/cache/hit_strategy.go:103-128 | a normal form has single spaces between its words, none at its ends, and no other white space or zero-width character |
| QueryText.CollapsesIff | core/internal/cache/hit_strategy.go:113-116 | which characters below U+0100 and which zero-width ones are collapsed or removed |
| QueryText.PrintableStays | core/internal/cache/hit_strategy.go:103-128 | a word of printable ASCII characters is its own normal form |
| QueryText.StageKeeps | core/internal/cache/hit_strategy.go:29-96 | every strategy keeps the list non-empty and pairwise distinct, expand and custom ones only append, and all but the original query are normalised |
| QueryText.CandidatesAreDistinctAndNormal | core/internal/cache/hit_strategy.go:28-100 | the same for any list of strategies, expanders and custom strategies |
| QueryText.NormalizeStageKeeps | core/internal/cache/hit_strategy.go:31-47 | a normalize stage leaves exactly the non-empty normal forms, or the list unchanged when there are none |
| QueryText.ExpandStageKeeps | core/internal/cache/hit_strategy.go:52-69 | an expand stage leaves exactly the candidates and the normal forms of the non-empty expansions |
| QueryText.ExpandsInOrder | core/internal/cache/hit_strategy.go:57-68 | the expansions come in the order of their candidates |
| QueryText.CustomStageKeeps | core/internal/cache/hit_strategy.go:75-94 | a custom stage leaves exactly the candidates and the non-empty normal forms of what is prepared |
| QueryText.CustomInOrder | core/internal/cache/hit_strategy.go:80-93 | what is prepared comes in the order of the candidates |
| QueryText.ExpandAddsEmptyIff | core/internal/cache/hit_strategy.go:57-68 | an expand stage leaves an empty candidate exactly when there was one or some expansion is not empty and normalises to nothing |
| QueryText.CustomAddsNoEmpty | core/internal/cache/hit_strategy.go:80-93 | a custom stage never adds an empty candidate |
| QueryText.NormalizeKeepsEmptyIff | core/internal/cache/hit_strategy.go:34-47 | a normalize stage keeps one exactly when every candidate normalises to nothing |
| QueryText.NoEmptyCandidate | core/internal/cache/hit_strategy.go:28-100 | a query that is not empty never leads to one if no expansion normalises to nothing |
| QueryText.SpaceAddsEmpty | core/internal/cache/hit_strategy.go:58-67 | an expander that answers a single space adds one |
| QueryText.NormalizeQueryText | core/internal/cache/hit_strategy.go:104-128 | the loop with its builder and flag computes the normal form |
| QueryText.ApplyNormalize | core/internal/cache/hit_strategy.go:31-47 | the normalize stage |
| QueryText.ApplyExpand | core/internal/cache/hit_strategy.go:48-69 | the expand stage, with its test before normalising |
| QueryText.AddIfNew | core/internal/cache/hit_strategy.go:63-67 | a candidate is appended exactly when it is not in the list |
| QueryText.AddPrepared | core/internal/cache/hit_strategy.go:82-92 | the inner loop over what one custom strategy prepared |
| QueryText.ApplyCustom | core/internal/cache/hit_strategy.go:70-94 | a custom stage |
| QueryText.ApplyHitStrategies | core/internal/cache/hit_strategy.go:18-101 | the pipeline computes the candidates of the strategy list, which are non-empty, distinct and normalised up to the query itself, so its last fallback is never taken |

## Left out

- Real processes, signals, health polling, log contents and port clearing: a start succeeds or fails, a process exits at any moment, and stop returns once it was waited for. Which exit status `wait` returns is not modelled.
- That a restart eventually happens, or that a killed process exits: no fairness is assumed.
- The Redis client, its errors and the fail-open answer, and clock differences between client and server.
- IEEE rounding of tokens, prices and rates, and overflow of 64-bit counters and clocks.
- ExactCache.ExactMatchCache.GetEntry: one step, so nothing happens between its read lock and its deleting lock; the persist and delete goroutines are separate steps.
- CacheMetrics.Recorder.RecordHit: a whole call, like the other methods there; calls that overlap are in MetricsOverlap.
- Encoding of cache entries, and sharing of an entry between the cache and its callers; unreadable data counts as a failed read.
- `Exists`, `Stats` and `List` of the exact cache and its calls into the metrics.
- Read errors of the rule store other than a failed listing, a service without a store, cost estimates and the rule stores' own editing.
- Session creation, message metadata, `NormalizeAssistantContent` and the order in which concurrent goroutines reach the message store: the log is in lock order.
- SlidingWindow.CheckIsNaive: the remaining count of an unlimited request is the number the script writes; that Lua numbers are doubles, and how Redis converts one this large, is not modelled.
- ConfigBackup.ConfigStore.EnsureBackup: succeeds; a backup that fails is a failing step of the call around it.
- ConfigBackup.ConfigStore.WriteFiles: a failing step leaves no half-written file or backup.
- ConfigBackup.ConfigStore.RestorePath: a backup that was restored can always be removed.
- Directories, file modes, path expansion and two spellings of one path in configuration backup; paths whose backups are themselves configured.
- Upgrade.Installer.InstallSidecarTree: `static` and `config` trees, and a marker left half-written, are not modelled; payload discovery and binaries of different names neither.
- Upgrade.FinalVersionIsMaximum: assumes sound launches (no copy stops after the binary, payloads say what they are, the installed binary answers truly when asked); DowngradesIff says what happens otherwise.
- SlidingWindow.AdmittedIffBelowBoth: assumes limits that do not change during the run, without which it fails (ChangedLimitsCostAnAdmission); the window bounds do not.
- Strategy names and their configuration, timeouts of custom strategies, chat history and invalid UTF-8; an expander or strategy is any function of the position and the query.
- Semantic search, SQL, HTTP, the proxies, agent templates, launcher dialogs and the web interface.
