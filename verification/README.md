# Verification of the rate limiter

A Dafny model of the rate-limiting service's core and proofs of what it guarantees: the two
limiters (token bucket and sliding-window counter), the in-memory store with its snapshots, and the
Redis-backed store shared by many server instances. `dafny verify dfyconfig.toml` checks everything.

Token counts, weights and rates are exact reals. Clock readings are integers: nanoseconds for the Go
limiters, milliseconds for Redis. Clocks, deliveries of Redis replies and the order of concurrent
steps are inputs, so every theorem quantifies over them. A nondecreasing clock is assumed only where
a statement says so; the conservation laws hold for readings that arrive in any order.

## How it is organised

- `Durations`, `Configs`, `Wrappers`: waits and their rounding, configurations and decisions.
- `Runs`, `Logs`: runs of calls against a limiter of any kind, and the log of what they admit.
- `Admissions`: the theory of token buckets, independent of the code. A run is a choice of admitted
  calls on an abstract refill clock; levels have a min-plus closed form, servable choices are exactly
  those whose intervals conform, and the greedy choice is optimal.
- `TokenBuckets`, `BucketRuns`, `BucketWaits`, `RetryPromises`: the class `TokenBucket`, its whole
  runs as instances of that theory, what its reported waits and counts are worth, and for which
  configurations a client that waits as told is always served.
- `SlidingWindows`, `WindowRuns`, `WindowEstimates`, `TrailingWindows`: the class `SlidingWindow` with
  a ghost log of every admission, bounds over whole runs, the behaviour of the estimate between
  admissions, and the exact worst case of an interval shorter than the window.
- `Limiters`, `ConfiguredLimits`: the choice between the two, the persisted form, what every decision
  of either reports, and what a configuration buys a client.
- `Managers`, `ManagerRuns`: the class `Manager` over heap limiters, and sequences of atomic
  operations: snapshot and restore as a bisimulation, isolation, parameters.
- `ManagerInterleavings`, `Threads`, `ClientRuns`, `Snapshots`, `Linearization`, `CrashRecovery`: the
  same manager as a machine of lock-sized steps with goroutine program counters, a heap of limiters,
  step-by-step snapshots and restores, and crashes; a client's requests between reconfigurations, what
  a snapshot holds, a client's whole history as a sequence of atomic operations, and recovery.
- `RedisStores`, `RedisWaits`, `RedisReplies`, `RedisRuns`, `RedisProtocol`, `RedisCounts`: the keyspace
  and the commands on it, what a client is told, runs of the script against one bucket, any number of
  instances whose commands interleave, and their counts.

A method of a class is proved equal to a specification function (`Next`, `Report`, `AfterAllow`,
`AfterScript`, ...); the properties are lemmas about runs of those functions. `UninterruptedRequest`,
`UninterruptedSnapshot`, `UninterruptedRestore`, `ReconfigurationIsOneStep`, `UninterruptedAllow` and
`UninterruptedSetConfig` tie the step machines to the atomic operations.

## Where the code and its comments disagree

- `internal/limiter/slidingwindow.go:142-147` calls RetryAfter always safe. It is not: a client that
  used up the limit in the current window is denied again at that very instant, because the roll
  counts the whole burst at weight 1 (`WindowEstimates.RetryAfterCanBeTooShort`, for every limit and
  window). The wait is right exactly when the current counter is below the limit
  (`WindowEstimates.RetryingAtRetryAfter`).
- `internal/httpapi/check.go:71-72` says that rounding the header up means no client retries too
  early. The reported wait has already been cut to whole nanoseconds, so a wait just above a whole
  number of seconds is announced as that number (`BucketWaits.HeaderCanBeTooShort`);
  `BucketWaits.WaitingTheHeader` says exactly when the header is enough after one denial. Worse, in the
  last part of a nanosecond before its token a client is told to wait for nothing, and is denied again
  (`RetryPromises.EmptyBucketTellsNothing`). Over all runs of a bucket, the header and RetryAfter are
  always enough if and only if one token and the whole bucket take a whole number of nanoseconds
  (`RetryPromises.WaitsEnoughExactly`); for a whole burst that is a condition on the rate alone
  (`RetryPromises.WholeBurstWaits`).
- "limit requests per window" (`internal/limiter/slidingwindow.go:51-52`) holds for the aligned
  windows only. In intervals that lie elsewhere and are shorter than the window, the most that is
  ever admitted is `TrailingWindows.WorstTrailing`: no run exceeds it (`TrailingBound`) and some run
  reaches it (`WorstIsReached`). So the limit holds there if and only if
  `limit * window <= 2 * ceil(limit)` (`TrailingLimitExactly`), for a whole limit only when the window
  is one or two nanoseconds; and twice a whole limit fits exactly when the window is longer than
  twice the limit in nanoseconds (`TwiceTheLimitExactly`).
- `internal/limiter/decision.go:23-24` and the repository's own `README.md:207` describe the reset time
  as the time until everything is available again. For a sliding window it is the end of the current
  window, and everything is available then exactly when nothing has been admitted in it
  (`WindowEstimates.ResetAfterMeansEmpty`).
- A valid sliding-window configuration with more than `Burst * 10^9` requests a second is cut to a
  window of zero nanoseconds and denies everything
  (`Limiters.SlidingClientServedExactlyWithNonzeroWindow`).
- The repository's own `README.md:205` promises the configured burst as X-RateLimit-Limit. The Redis
  script returns the capacity through an integer reply (`internal/limiter/redisstore.go:81-88`), so
  with Redis that holds exactly for whole bursts (`RedisStores.ReportedLimit`, and
  `RedisStores.FractionalBurstIsReportedShort` for 2.5). The cut never makes a bucket look full
  (`RedisWaits.NeverReportedFull`).
- The RetryAfter computed from the floored count is an over-estimate only before it is cut to
  nanoseconds. What is told is the period of one token cut to nanoseconds, whatever fraction is there,
  and that is enough exactly when so many nanoseconds produce what lacks (`RedisWaits.ToldIsConstant`).
  No client is ever told too little if and only if `10^9 / RPS` is a whole number
  (`RedisWaits.NeverToldShortExactly`); `RedisWaits.RetryAfterCanBeShort` gives a case.

## Model

| member | source | states |
|---|---|---|
| Configs.Validate | internal/limiter/config.go:20-31 | succeeds exactly on the configurations the theorems assume, and reports each problem exactly when it is there and no earlier one is |
| Admissions.LevelClosedForm | internal/limiter/tokenbucket.go:101-114 | for every choice of admitted calls the bucket's level is the least slack of the intervals ending at the call: bounded by each, equal to one |
| Admissions.ServableExactlyWhenIntervalsConform | internal/limiter/tokenbucket.go:101-114 | a bucket can serve a choice of admissions if and only if every interval ending in an admission keeps to what it may use; no order of readings is assumed |
| Admissions.GreedyIsOptimal | internal/limiter/tokenbucket.go:88-114 | admitting whenever a token is there is never behind any servable choice, at any prefix |
| Admissions.FrozenLevel | internal/limiter/tokenbucket.go:110-114 | while no time passes exactly the whole tokens present are handed out |
| TokenBuckets.TokenBucket.constructor | internal/limiter/tokenbucket.go:38-50 | a new bucket is full and anchored at the clock |
| TokenBuckets.TokenBucket.FromState | internal/limiter/tokenbucket.go:65-76 | a bucket rebuilt from saved data has exactly that state |
| TokenBuckets.TokenBucket.Allow | internal/limiter/tokenbucket.go:90-123 | the new fields and the decision are those of the specification step that the run theorems are about |
| TokenBuckets.TokenBucket.CallRetryAfter | internal/limiter/tokenbucket.go:128-139 | computes the specified wait, zero when allowed and the sentinel when nothing refills |
| TokenBuckets.TokenBucket.CallResetAfter | internal/limiter/tokenbucket.go:143-154 | computes the specified reset time, zero when full and the sentinel when nothing refills |
| BucketRuns.TokensAreLevel | internal/limiter/tokenbucket.go:101-114 | along every run the stored token count is the level of the abstract bucket |
| BucketRuns.DecisionsAreGreedy | internal/limiter/tokenbucket.go:110-114 | the code's decisions are the greedy choice |
| BucketRuns.TokensClosedForm | internal/limiter/tokenbucket.go:101-114 | from a full start the tokens after call j are the minimum over i <= j of capacity + rate * (t_j - t_i) - admitted(i..j) |
| BucketRuns.AdmissionsUpToAdmittedCall | internal/limiter/tokenbucket.go:101-114 | from any state and for readings in any order, calls i..k ending in an admission admit at most capacity + rate * (t_k - t_i) |
| BucketRuns.AdmissionsInInterval | internal/limiter/tokenbucket.go:101-114 | on an ordered clock the bound holds for every interval of calls |
| BucketRuns.ServableIffConforms | internal/limiter/tokenbucket.go:101-114 | a full bucket can serve a choice if and only if every interval admits at most capacity + rate * length |
| BucketRuns.BucketIsOptimal | internal/limiter/tokenbucket.go:101-114 | no other servable choice has admitted more requests at any prefix of any run |
| BucketRuns.BucketIsBestConforming | internal/limiter/tokenbucket.go:101-114 | the bucket's own choice conforms, and no conforming choice admits more at any prefix |
| BucketRuns.AdmittedBetween | internal/limiter/tokenbucket.go:101-114 | in every run on an ordered clock, from whatever was held before, the admissions with readings in [lo, hi] are at most capacity + rate * length |
| BucketRuns.AdmittedWithin | internal/limiter/tokenbucket.go:101-114 | whatever it held before, a bucket admits at most capacity + rate * length between two instants |
| Runs.Join | internal/limiter/tokenbucket.go:52-76 | for a limiter of any kind, a run interrupted anywhere and continued from the saved state is the uninterrupted run, in state and admissions |
| BucketWaits.FirstAdmissionIsAtReadyAt | internal/limiter/tokenbucket.go:125-139 | whatever denied calls come in between, a call is admitted if and only if it comes at or after the exact instant (1 - tokens) / rate |
| BucketWaits.RetryAfterIsCutWait | internal/limiter/tokenbucket.go:137-138 | the reported wait is short of the exact one by less than a nanosecond and never above it |
| BucketWaits.RetryingAtRetryAfter | internal/limiter/tokenbucket.go:125-139 | retrying exactly RetryAfter later succeeds if and only if the exact wait is a whole number of nanoseconds; any later retry succeeds |
| BucketWaits.WaitingTheHeader | internal/httpapi/check.go:71-75 | waiting the Retry-After header is enough unless the wait was cut to exactly a whole number of seconds; one nanosecond more is always enough |
| BucketWaits.HeaderCanBeTooShort | internal/httpapi/check.go:71-75 | a concrete client is denied again after waiting the announced seconds |
| RetryPromises.ToldToWaitForNothing | internal/limiter/tokenbucket.go:125-139 | whenever the exact wait is not whole there is a reading at which the client is denied, told a wait and a header of zero, and denied again at once |
| RetryPromises.EmptyBucketTellsNothing | internal/limiter/tokenbucket.go:125-139 | an empty bucket does so under every capacity and every rate whose period is not whole |
| RetryPromises.EnoughWithWholeWaits | internal/limiter/tokenbucket.go:125-139 | when one token and the whole bucket take whole nanoseconds, RetryAfter and the header are enough at every denial of every run, even on a clock that runs backwards |
| RetryPromises.WaitsEnoughExactly | internal/httpapi/check.go:71-75 | at every denial of every run of a new bucket RetryAfter is enough if and only if one token and the whole bucket take a whole number of nanoseconds; and so it is with the header |
| RetryPromises.WholeBurstWaits | internal/limiter/tokenbucket.go:125-139 | for a whole burst, if and only if one token does |
| BucketWaits.ResetAfterIsCutWait | internal/limiter/tokenbucket.go:141-154 | the bucket is full exactly from the exact reset time on, and the reported one is that, cut to nanoseconds |
| BucketWaits.ResetHeaderIsWholeSeconds | internal/httpapi/check.go:66-69 | the reset header is the exact reset time rounded down once, although it is rounded twice |
| BucketWaits.AdmittedAtOnce | internal/limiter/tokenbucket.go:90-114 | n calls at one instant admit min(n, floor(tokens)) |
| BucketWaits.NeverRefills | internal/limiter/tokenbucket.go:128-154 | a bucket without refill reports the sentinel for both waits after a denial, and indeed admits no later call and is never found full |
| BucketWaits.TokensStayInRange | internal/limiter/tokenbucket.go:101-114 | on an ordered clock the tokens stay between zero and the capacity in every run |
| BucketWaits.RemainingIsHonest | internal/limiter/tokenbucket.go:116-122 | at any point of any run exactly Remaining further calls are admitted at the same instant |
| SlidingWindows.RollKeepsTracking | internal/limiter/slidingwindow.go:103-123 | through each of the three kinds of roll the counters equal the numbers of logged admissions in the two windows, and now lies in the current one |
| SlidingWindows.NextKeepsTracking | internal/limiter/slidingwindow.go:103-136 | so does every call, whether it is admitted or denied |
| SlidingWindows.SlidingWindow.constructor | internal/limiter/slidingwindow.go:51-61 | a new window is empty, anchored at the clock and agrees with an empty log |
| SlidingWindows.SlidingWindow.FromState | internal/limiter/slidingwindow.go:77-90 | a window rebuilt from saved data has exactly that state |
| SlidingWindows.SlidingWindow.Allow | internal/limiter/slidingwindow.go:96-161 | fields and decision are those of the specification step, an admission is logged, and the agreement with the log is kept on an ordered clock |
| WindowRuns.CountersTrackLog | internal/limiter/slidingwindow.go:103-136 | after every call of every run the two counters are what the full log of admissions says |
| WindowRuns.EachWindowCapped | internal/limiter/slidingwindow.go:125-136 | no window ever holds more than ceil(limit) admissions |
| WindowRuns.EveryAdmissionBlocksDoubleBurst | internal/limiter/slidingwindow.go:125-136 | at an admission at fraction f of its window, fewer than limit + 1 + previousCount * f admissions lie between the start of the previous window and now, this one included |
| WindowRuns.LongRunBound | internal/limiter/slidingwindow.go:106-135 | in every run, idle gaps included, a closed interval of length T holds at most ceil(limit) * (ceil(T / window) + 1) admissions |
| WindowRuns.WindowsForIsCeil | internal/limiter/slidingwindow.go:106-123 | the number of windows in that bound is the ceiling of the quotient |
| WindowRuns.AdmittedAtOnce | internal/limiter/slidingwindow.go:127-136 | n calls at one instant admit exactly as many as there is room below the limit |
| WindowRuns.FreshBurst | internal/limiter/slidingwindow.go:127-136 | a new window admits a burst of exactly min(n, ceil(limit)) |
| WindowRuns.RemainingIsNearlyHonest | internal/limiter/slidingwindow.go:154-160 | at the same instant at least Remaining and at most Remaining + 1 further calls are admitted, exactly Remaining when the rest of the limit is whole |
| WindowEstimates.RollingEarlyIsInvisible | internal/limiter/slidingwindow.go:106-129 | a roll never changes any later estimate |
| WindowEstimates.DenialsAreInvisible | internal/limiter/slidingwindow.go:106-131 | later estimates do not depend on how many denied calls came in between |
| WindowEstimates.EstimatePieces | internal/limiter/slidingwindow.go:106-129 | over idle time the estimate is two linear pieces and zero, equal where they meet |
| WindowEstimates.EstimateFallsGently | internal/limiter/slidingwindow.go:106-131 | without admissions the estimate never rises and never jumps: across any rolls it falls by at most the larger counter per window |
| WindowEstimates.RetryingAtRetryAfter | internal/limiter/slidingwindow.go:138-152 | with only denied calls in between, a retry exactly RetryAfter later is admitted if and only if currentCount < limit at the denial |
| WindowEstimates.RetryingAfterRetryAfter | internal/limiter/slidingwindow.go:138-152 | any later retry is admitted when currentCount <= limit |
| WindowEstimates.WholeLimitAdmitsLaterRetry | internal/limiter/slidingwindow.go:138-152 | for a whole limit that holds after every run: one nanosecond after RetryAfter is always enough |
| WindowEstimates.RetryAfterCanBeTooShort | internal/limiter/slidingwindow.go:142-147 | for every limit and every window a client that has used up the limit and waits as told is denied again |
| WindowEstimates.ReportedFields | internal/limiter/slidingwindow.go:125-160 | at every call, whatever the counters: reset and retry time are the end of the window the call lies in, and Remaining is what the limit leaves once the call is counted, rounded down, or 0 |
| WindowEstimates.ResetAfterMeansEmpty | internal/limiter/slidingwindow.go:138-148 | the reset time is the end of the current window; everything is available then if and only if nothing was admitted in it, and one window later always |
| TrailingWindows.TrailingBound | internal/limiter/slidingwindow.go:106-136 | in every run, no interval shorter than the window, wherever it lies, admits more than the worst case ceil(limit) + ceil(limit - 2 * ceil(limit) / window) |
| TrailingWindows.WorstIsReached | internal/limiter/slidingwindow.go:25-33 | a burst at the end of one window followed by one near the end of the next reaches that worst case, for every limit and window |
| TrailingWindows.TrailingLimitExactly | internal/limiter/slidingwindow.go:51-53 | at most ceil(limit) is admitted in every interval shorter than the window, in every run, if and only if limit * window <= 2 * ceil(limit) |
| TrailingWindows.WholeTrailingLimitExactly | internal/limiter/slidingwindow.go:51-53 | for a whole limit, if and only if the window is at most two nanoseconds |
| TrailingWindows.TwiceTheLimitExactly | internal/limiter/slidingwindow.go:25-33 | the worst case is never more than twice a whole limit, and is twice the limit if and only if the window is longer than twice the limit |
| Limiters.DecisionFields | internal/limiter/decision.go:13-25 | every decision of an in-memory limiter carries the configured burst, no wait when allowed, and nothing remaining when denied |
| Limiters.BucketResetIsHonest | internal/limiter/tokenbucket.go:116-123 | at every call the bucket that is left is full exactly from its exact reset instant on, which the reported reset is cut from, and the header is that in whole seconds |
| Limiters.BucketDecisionIsHonest | internal/limiter/tokenbucket.go:110-139 | a decision allows exactly when a token is there, tells a denied caller the exact wait cut to nanoseconds, and exactly Remaining further calls get in at the same instant |
| Limiters.WindowDecisionIsHonest | internal/limiter/slidingwindow.go:125-160 | the fields of every sliding-window decision, as in ReportedFields, with admission exactly when the estimate is below the limit |
| Limiters.LoadExactly | internal/limiter/manager.go:219-227 | a persisted limiter is brought back exactly when its tag and the field for it agree, and what was saved is |
| Limiters.BucketRate | internal/limiter/tokenbucket.go:101-114 | a bucket in a manager, whatever it held before, admits at most capacity + rate * length between two readings |
| Limiters.WindowRate | internal/limiter/slidingwindow.go:106-135 | a sliding window, from any point of its life on, admits at most ceil(limit) * (ceil(T / window) + 1) between two readings |
| Limiters.NextStaysBuiltFor | internal/limiter/manager.go:63-69 | calls never change a limiter's type or parameters |
| Limiters.NewLimiterBurst | internal/limiter/manager.go:53-69 | a new limiter admits min(n, floor(Burst)) or min(n, ceil(Burst)) calls at the instant of its making |
| Limiters.ConfiguredRateBound | internal/limiter/manager.go:55-69 | with an exact window and a whole burst, a sliding window admits fewer than RPS * T + 2 * Burst requests in every closed interval of every run |
| Limiters.SlidingClientServedExactlyWithNonzeroWindow | internal/limiter/manager.go:64-66 | whenever it comes, the first request of a sliding-window client is admitted if and only if RPS <= Burst * 10^9 |
| ConfiguredLimits.WindowIsCut | internal/limiter/manager.go:63-67 | the window of a sliding-window client is Burst / RPS cut to whole nanoseconds |
| ConfiguredLimits.ConfiguredWindowRate | internal/limiter/manager.go:55-67 | for every window so cut, n admissions in a closed interval of T ns satisfy n * (Burst * 10^9 - RPS) < ceil(Burst) * (RPS * T + 2 * Burst * 10^9) |
| ConfiguredLimits.ServedAgain | internal/limiter/manager.go:55-67 | whatever it has spent, a client that is only denied is served again after two exact windows of Burst / RPS at the latest |
| ConfiguredLimits.FirstRequest | internal/limiter/manager.go:63-69 | the first request of a client is admitted and told its burst, one less remaining, and a reset of the window or of one token's time |
| ConfiguredLimits.DefaultLimits | internal/limiter/manager.go:8-10 | an unconfigured client has a valid token bucket of five requests at once and one more for every second |
| Managers.Manager.constructor | internal/limiter/manager.go:43-51 | a new manager is empty |
| Managers.Manager.SetConfig | internal/limiter/manager.go:71-87 | a valid configuration is stored and the client's limiter dropped, an invalid one changes nothing; all other clients are as before |
| Managers.Manager.GetConfig | internal/limiter/manager.go:89-95 | the stored configuration, if any |
| Managers.Manager.RemoveClient | internal/limiter/manager.go:97-104 | configuration and limiter are gone, counts and all other clients are as before |
| Managers.MakeLimiter | internal/limiter/manager.go:63-69 | a fresh object with the value specified for the configuration |
| Managers.Manager.GetOrCreate | internal/limiter/manager.go:112-127 | the client's own object, a fresh one only if it had none; clients never share an object |
| Managers.Manager.Allow | internal/limiter/manager.go:106-137 | on the heap exactly the named client's limiter and counts change, as specified, and the decision is that limiter's |
| Managers.Manager.RecordDecision | internal/limiter/manager.go:139-152 | one counter of one client goes up by one |
| Managers.Manager.Stats | internal/limiter/manager.go:154-164 | a copy of all counts |
| Managers.Manager.Snapshot | internal/limiter/manager.go:166-209 | the persisted form of configurations and every limiter |
| Managers.LoadAll | internal/limiter/manager.go:219-227 | fresh, pairwise distinct objects for exactly the entries whose tag and field agree |
| Managers.Manager.Restore | internal/limiter/manager.go:211-233 | replaces configurations and limiters by what was persisted, in new objects, and keeps the counts |
| ManagerRuns.RestoreOfSnapshotIsInvisible | internal/limiter/manager.go:166-233 | a snapshot restored into a new manager answers every later sequence of Allow, SetConfig, GetConfig, RemoveClient and Restore as the original would, for both algorithms |
| ManagerRuns.ClientsAreIsolated | internal/limiter/manager.go:71-137 | what a client is told over any run is what it would be told had no other client done anything; only its own operations and restores count |
| ManagerRuns.OpKeepsParameters | internal/limiter/manager.go:63-137 | every operation keeps each limiter at the type and parameters of the configuration in force |
| ManagerRuns.ParametersAlwaysFit | internal/limiter/manager.go:63-233 | so does every run, restores of earlier snapshots included, and every snapshot taken along the way fits as well |
| ManagerRuns.ReconfigurationStartsOver | internal/limiter/manager.go:71-104 | after a reconfiguration every later run tells the client what a new manager with only that configuration would, after a removal what a new manager would; an invalid configuration changes no reply |
| ManagerRuns.ConfigurationIsRead | internal/limiter/manager.go:77-104 | a configuration is read as written until removed; nobody is configured in a new manager, and an unconfigured client gets the default |
| ManagerRuns.OnlyRequestsCount | internal/limiter/manager.go:139-152 | no operation but a request changes any count, and a request changes one of its own client |
| ManagerRuns.CountsAreDecisions | internal/limiter/stats.go:9-14 | over every run, reconfigurations, removals and restores included, the counts of a client are the numbers of its decisions |
| ManagerInterleavings.StepKeepsFit | internal/limiter/manager.go:71-233 | every lock-sized step of every goroutine keeps ownership and parameters of limiters, half-done snapshots and restores included |
| ManagerInterleavings.EveryReachableStateFits | internal/limiter/manager.go:18-26 | in every reachable state each client's limiter fits the configuration in force and no two clients share one |
| ManagerInterleavings.EveryDecisionIsCountedOnce | internal/limiter/manager.go:134-152 | in every reachable state counted decisions plus decided but uncounted ones are the decisions made |
| ManagerInterleavings.UninterruptedRequest | internal/limiter/manager.go:111-137 | the three steps of a request in a row are the atomic request |
| Snapshots.UninterruptedSnapshot | internal/limiter/manager.go:177-209 | the steps of a snapshot in a row, in whatever order limiters are read, are the atomic snapshot and leave everything else as it was |
| Snapshots.SnapshotIsComplete | internal/limiter/manager.go:177-209 | whatever runs beside it, a finished snapshot has the configurations of its beginning and a limiter to bring back for exactly the clients that had one then |
| Snapshots.EveryoneCanBeSaved | internal/limiter/manager.go:189-203 | at every point in between each of these clients has been saved or can be, and once all are it can end |
| Snapshots.UninterruptedRestore | internal/limiter/manager.go:214-233 | the steps of a restore in a row are the atomic restore |
| Snapshots.ReconfigurationIsOneStep | internal/limiter/manager.go:82-104 | SetConfig and RemoveClient as steps are the atomic operations |
| Snapshots.NoGoroutineIsStuck | internal/limiter/manager.go:111-233 | in every reachable state every goroutine can take the step it has come to |
| ClientRuns.LiveRun | internal/limiter/manager.go:112-137 | whatever interleaves with them, the requests of a client with a limiter are one sequential run of it, in every admission and in the state they leave, and none makes another limiter |
| ClientRuns.RequestsAreOneRun | internal/limiter/manager.go:111-137 | of a new client's concurrent requests exactly one makes a limiter; the client's admissions are those of one sequential run of it, and that run is what the limiter ends up with |
| ClientRuns.CountsAreDecisions | internal/limiter/manager.go:139-152 | in every interleaving since the start of the process a client's counts, with what is still to be counted, are the admissions and denials of its requests |
| ClientRuns.BurstInEveryInterleaving | internal/limiter/manager.go:111-137 | on a frozen clock n concurrent requests of a new client admit exactly min(n, floor(Burst)) or min(n, ceil(Burst)) in every interleaving |
| ClientRuns.BucketRateInEveryInterleaving | internal/limiter/manager.go:111-137 | in every interleaving a token-bucket client's admissions with readings in [lo, hi] are at most Burst + RPS * length |
| ClientRuns.WindowRateInEveryInterleaving | internal/limiter/manager.go:111-137 | in every interleaving a sliding-window client's are at most ceil(Burst) * (ceil(length / window) + 1) |
| Linearization.BookKeepsSound | internal/limiter/manager.go:71-233 | every step of every goroutine keeps the account of a client sound: each era's limiter has come as far as the requests that got it, however late they ask, and what a restore builds is apart until it is installed |
| Linearization.RequestJoinsCurrentEra | internal/limiter/manager.go:112-127 | a request belongs to the era that is current when it gets its limiter |
| Linearization.ToldIsDecided | internal/limiter/manager.go:134-136 | there is one decision for every call of a client, and it allows exactly when the call is admitted |
| Linearization.Linearizable | internal/limiter/manager.go:71-233 | in every interleaving of requests, reconfigurations, removals, snapshots and restores, stale requests included, a client is told what a sequence of atomic operations would tell it; every decision it got is among the replies exactly once, and the reconfigurations and restores are those of the run in order |
| CrashRecovery.LostStepsSnapshot | internal/limiter/manager.go:177-209 | whatever runs beside it, reconfigurations and restores included, a snapshot holds the value the limiter had when it was read |
| CrashRecovery.RestartBringsBack | main.go:146-151 | after a crash the new process starts to serve with exactly the saved value |
| CrashRecovery.SomeRecovery | main.go:93-119 | in every reachable state a snapshot that begins can be finished and restored after a crash, so that a client with a limiter recovers |
| CrashRecovery.SurvivorsAreOneRun | internal/limiter/manager.go:177-233 | across a crash, in every interleaving and for both algorithms, the client is served by one uninterrupted run of its limiter, apart from the forgotten admissions |
| CrashRecovery.CrashRecoveryBound | internal/limiter/tokenbucket.go:52-76 | over an interval spanning the restart at most capacity + rate * length + lost admissions, and lost is at most capacity + rate * (time from reading the bucket to the crash) |
| CrashRecovery.WindowRecoveryBound | internal/limiter/manager.go:177-233 | in every interval, spanning the restart or not, a sliding-window client is admitted at most what an uninterrupted window admits there plus what the crash forgets there, which is within the same bound |
| CrashRecovery.AllSurvivorsAreOneRun | internal/limiter/manager.go:177-233 | after any number of crashes, for both algorithms, the client has been served by one uninterrupted run of its limiter, apart from what each crash forgets |
| CrashRecovery.CrashesRecoveryBound | main.go:93-119 | over an interval with any number of crashes a token-bucket client is admitted at most capacity + rate * length and what the crashes forget |
| RedisStores.KeysNeverCollide | internal/limiter/redisstore.go:121-136 | no two clients and no two kinds of data share a key, whatever the identifiers |
| RedisStores.RedisStore.GetConfig | internal/limiter/redisstore.go:330-345 | the stored configuration; none when it is missing or cannot be read |
| RedisStores.RedisStore.RunScript | internal/limiter/redisstore.go:42-88 | keyspace and reply after the script are the specified ones, a missing bucket starting full |
| RedisStores.RedisStore.Allow | internal/limiter/redisstore.go:149-203 | decision and keyspace for every outcome of the script call, answered, not run, or run with the reply lost, and of the count |
| RedisStores.RedisStore.RecordDecision | internal/limiter/redisstore.go:221-236 | one counter of one client goes up by one, or nothing changes when the count cannot be written |
| RedisStores.RedisStore.SetConfig | internal/limiter/redisstore.go:303-328 | succeeds exactly on a valid configuration with both commands done; a failed delete leaves the new configuration with the old bucket |
| RedisStores.RedisStore.RemoveClient | internal/limiter/redisstore.go:347-353 | both keys of the client are gone, or neither when the command fails |
| RedisStores.OtherClientsUntouched | internal/limiter/redisstore.go:121-136 | no command for one client changes another's configuration, bucket or counts |
| RedisStores.OwnCommands | internal/limiter/redisstore.go:138-353 | what each command does to its own client's configuration, bucket and counts; only counting changes counts |
| RedisStores.ConfigurationTakesEffect | internal/limiter/redisstore.go:149-153 | requests that can read it run under the configuration written last; after a removal, or when it cannot be read, under the default |
| RedisWaits.FlooredWaits | internal/limiter/redisstore.go:274-301 | before they are cut to nanoseconds, RetryAfter computed from the floored count is never below the exact wait and less than 1/RPS above it, and ResetAfter is within 1/RPS of the exact one |
| RedisWaits.ReportedRetryAfter | internal/limiter/redisstore.go:276-288 | the RetryAfter told is less than 1 ns below and less than 1/RPS above the exact wait |
| RedisWaits.ToldIsConstant | internal/limiter/redisstore.go:276-288 | with any fraction of a token there, the wait told is the period of one token cut to nanoseconds, and it is enough if and only if that many nanoseconds produce what lacks |
| RedisWaits.NeverToldShortExactly | internal/limiter/redisstore.go:276-288 | for a valid configuration, over every stored bucket and reading, no denied client is told less than the exact wait if and only if 10^9 / RPS is a whole number |
| RedisWaits.RetryAfterCanBeShort | internal/limiter/redisstore.go:276-288 | a concrete client is told a wait that is a third of a nanosecond too short |
| RedisReplies.RepliesAreTheBuckets | internal/limiter/redisstore.go:184-197 | an answered request is told the admission and the remaining count that the in-memory bucket would tell at the same time; any other is told DENY |
| RedisReplies.RemainingIsHonest | internal/limiter/redisstore.go:81-88 | on ordered readings exactly Remaining of n further scripts at the same reading are granted |
| RedisReplies.ResetOfMissingTokens | internal/limiter/redisstore.go:290-301 | the reset told is what the tokens missing from the reported limit take, cut to nanoseconds |
| RedisReplies.ReportedReset | internal/limiter/redisstore.go:290-301 | it is within one period and a nanosecond of the exact time to a full bucket |
| RedisStores.ReportedLimit | internal/limiter/redisstore.go:81-88 | the limit told is the configured burst if and only if that is a whole number, and otherwise the burst rounded down; a reply that fails closed tells it exactly |
| RedisStores.FractionalBurstIsReportedShort | internal/limiter/redisstore.go:81-88 | a burst of 2.5 is told as 2 |
| RedisWaits.NeverReportedFull | internal/limiter/redisstore.go:290-301 | under a valid configuration, fractional bursts included, the reply never looks full: less than the limit remains, as it does, and the uncut reset time is at least 1/RPS |
| RedisRuns.ScriptIsBucketStep | internal/limiter/redisstore.go:52-78 | one script is one TokenBucket.Allow at the same time |
| RedisRuns.ScriptRunIsBucketRun | internal/limiter/redisstore.go:14-16 | every run of scripts decides as the in-memory bucket does at the same times |
| RedisRuns.SharedBucketConserves | internal/limiter/redisstore.go:52-78 | from any instances and for readings in any order, scripts i..k ending in an admission admit at most capacity + rate * (now_k - now_i) |
| RedisRuns.SharedBucketConservesUnderSkew | internal/limiter/redisstore.go:149-159 | with readings within d of true time the bound is capacity + rate * (T + 2d) |
| RedisRuns.ExpiryIsInvisible | internal/limiter/redisstore.go:78-79 | if rate * ttl >= capacity, on one ordered clock idle keys that expire change no stored bucket and no decision |
| RedisRuns.ExpiringRunIsBucketRun | internal/limiter/redisstore.go:52-79 | such a run decides as one without expiry and as the in-memory bucket |
| RedisRuns.ExpiryInvisibleExactly | internal/limiter/redisstore.go:78-79 | for a whole capacity expiry is invisible in all runs if and only if rate * ttl >= capacity |
| RedisProtocol.StepOnBucket | internal/limiter/redisstore.go:149-182 | of all steps of all instances only a script for this client moves its bucket on, and the others keep or remove it |
| RedisProtocol.StepSpends | internal/limiter/redisstore.go:52-78 | each step pays for the token it takes: out of what was available, what time has produced, or a deletion |
| RedisProtocol.AllowIsGrant | internal/limiter/redisstore.go:159-190 | the decision a request returns allows exactly if its script took a token and the reply arrived |
| RedisProtocol.AllowRepliesBounded | internal/limiter/redisstore.go:149-182 | in every interleaving of Allow and SetConfig on any number of instances, with stale or default configurations, half-done reconfigurations, expiries and lost replies, a client's ALLOW replies over T are at most (D + 1) * C + R * T |
| RedisProtocol.ScriptsAreOneRun | internal/limiter/redisstore.go:149-182 | in every interleaving, between two deletions, the scripts of all instances for a client are one run against one bucket |
| RedisProtocol.GrantsConserve | internal/limiter/redisstore.go:52-78 | hence for readings that arrive in any order, scripts i..k ending in a grant grant at most capacity + rate * (now_k - now_i) |
| RedisProtocol.UninterruptedAllow | internal/limiter/redisstore.go:149-203 | the steps of a request in a row, its count taken or given up, are the atomic request |
| RedisProtocol.UninterruptedSetConfig | internal/limiter/redisstore.go:305-328 | the two commands of SetConfig, or the first alone, are the atomic operation |
| RedisCounts.EveryDecisionIsCountedOnce | internal/limiter/redisstore.go:205-236 | in every interleaving of any number of instances, as long as counts neither expire nor fail, what is counted and still to be counted grows by exactly the decisions told |
| RedisCounts.AllowsAreSaid | internal/limiter/redisstore.go:184-190 | the decisions told that allow are the replies bounded by AllowRepliesBounded |

## Left out

- Floating-point rounding, NaN and the decimal rendering of numbers in Lua and Redis: all arithmetic is on exact reals.
- Overflow of time.Duration for tiny rates, and the saturation of time differences: durations are unbounded integers.
- Limiters.WindowFor: the conversion of an infinite quotient when RPS is zero is left to the platform by Go; the model takes 0. Validated configurations never reach it.
- SlidingWindows.SlidingWindow.Allow: for a window of zero nanoseconds the code reports NaN as Remaining; the model reports 0. The denial is modelled.
- Limiters.ConfiguredRateBound: assumes that Burst / RPS is a whole number of nanoseconds, because the source's own claim is about window = Burst / RPS; for every window, cut or not, ConfiguredWindowRate gives the bound.
- RedisProtocol.AllowRepliesBounded: the readings that reach this client's script are assumed nondecreasing in script order; for readings in any order GrantsConserve gives the bound between deletions.
- RedisStores.RedisStore.RunScript: the EXPIRE it ends with is not part of the keyspace; what expiry does is in RedisRuns and RedisProtocol.
- ClientRuns.WindowRateInEveryInterleaving: the clock is assumed not to go back between the making of the limiter and its calls, and from one call to the next; so are the interval bounds of the token bucket.
- RedisStores.RedisStore.RecordDecision: the refresh of the TTL of the counts is not part of the keyspace; ExpireStats in RedisProtocol may remove them at any time.
- Linearization.Linearizable: the time from the start of a process to its crash; after a crash a new process starts from nothing. The counts, which are no reply, are in EveryDecisionIsCountedOnce.
- CrashRecovery.AllSurvivorsAreOneRun: a client that has a limiter when the interval begins and is not reconfigured in it.
- The refresh of the TTL of a client's counts, and when exactly Redis expires a key: expiry is a step that may happen at any time in RedisProtocol, and happens exactly ttl after the last script in RedisRuns.
- Writing and reading the snapshot file: taken as the identity on the persisted state.
- RedisStore.Stats and the order of SCAN: a read-only report.
- HTTP routing, headers other than the rounding of waits, JSON, environment, signals and logging.
- Sliding window in Redis: the source runs the token-bucket script for such clients, and so does the model.
- The load tester, the dashboard and the deployment files.
