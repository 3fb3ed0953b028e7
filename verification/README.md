# SoulBox: verified models of its stateful cores

SoulBox runs untrusted code in sandboxes. Around the I/O (Docker, Redis, SurrealDB, HTTP)
sit several algorithms with real state, interleaving and arithmetic. This project models
them in Dafny and proves what they keep over every run.

| module | models |
|---|---|
| `SandboxPool` | acquire and release on a shared queue, map and compare-and-swap counter, as atomic steps of any number of callers |
| `EvictingCache` | the bounded cache against an unbounded one |
| `CircuitBreaker`, `ErrorRecovery`, `RunningAverage`, `HealthMonitor` | the three-state breaker with its pruned window, the retry loop with capped backoff, the floored running average, the health hysteresis |
| `LockedBreaker`, `BreakerDeadlock`, `BillingRecovery` | the billing breaker, split over two locks and an atomic: as steps of any number of callers that call any number of times, exactly when these can deadlock, and as the code one caller runs |
| `HourRounding`, `UsageAggregation`, `BucketStore`, `HourWalk` | routing to hourly buckets, flushing, aggregating and merging summaries, the periodic walk over hours |
| `Precision`, `Discounts`, `CostCalculator` | half-even rounding, checked money arithmetic, sequential discounts, bills and estimates |
| `StreamChunker` | cutting a stream into chunks as reads come in |
| `AuditStorage` | the ring of audit logs and its filtered, sorted, paged queries |
| `MetricCollector` | the drop-oldest metrics buffer, its processor with re-queue, and the timed and final flushes |
| `Prelude`, `Bags`, `Totals`, `BillingModels` | shared values, reordered sequences, sums over maps, billing data |

Conventions. Each operation that updates state in place is a class method proved against a
specification function or a run of a step machine; the laws are lemmas about those. Decimals
are reals with explicit rounding, times are integers, identifiers are naturals, and the
clock, the outcome of a store or an operation, and the order in which a hash map yields its
entries are parameters. Arithmetic that overflows in the code is an explicit outcome.

Where the code differs from its comments or tests, the model follows the code:

- A recycled sandbox handle reports that it is not in use, because `reset` clears the flag
  and acquire never sets it (src/lockfree.rs:50-53, 118-121); the test at
  src/lockfree.rs:319 expects the opposite.
- `active_count` is never decremented, so it bounds creations, not active sandboxes
  (src/lockfree.rs:55-68, 75-82).
- The cache stamps an entry only when it is inserted, so it evicts by insertion and not by
  use, and re-inserting a held key into a full cache shrinks it (src/lockfree.rs:258-279).
- `apply_discount` returns what is left, but `calculate_discount` treats it as the discount
  (src/billing/precision.rs:219-227, src/billing/cost_calculator.rs:40-42): ten per cent off
  10.00 takes 9.00, where the test at src/billing/cost_calculator.rs:377 expects 1.00.
  It also fails once the amount times the kept percentage exceeds 1,000,000, so at zero
  per cent above 10,000.00.
- `validate_amount` rounds rates to four decimals and refuses allowances above 1,000,000, so
  at the default prices no bill with memory or network usage can be made, and storage is free
  (src/billing/precision.rs:85-95, src/billing/models.rs:143, 151-153).
- Hours are rounded to the nearest, so the bucket of hour h covers [h - 30 min, h + 30 min)
  (src/billing/usage_aggregator.rs:48).
- The collector's processor tests `running`, which starts false
  (src/billing/simple_collector.rs:96, 239): the model describes it while it runs.
- A breaker rejection is itself recorded as a failure by the retry loop
  (src/container/error_recovery.rs:409-415); an open breaker ignores it.
- The billing breaker takes its two locks in both orders, so it can deadlock
  (src/billing/error_handling.rs:175-211). Two callers that go on calling can at every
  threshold and timeout. If each caller may only make so many calls, it takes two callers, and
  two calls more in all than the failures that open the breaker (a threshold of zero counts as
  one); so at the defaults of five failures and three attempts three executions of the retry
  loop can, and two cannot (src/billing/error_handling.rs:93, 226, 245-246).
- A retry whose operation has the container's own id starts the next attempt on a fresh
  breaker once a recovery has reset it (src/container/error_recovery.rs:534-541, 545-553).
- The delay computation overflows from the 33rd attempt on, or sooner for long base delays
  (src/container/error_recovery.rs:607-611).
- Merging a live with a stored summary divides by the merged count unchecked
  (src/billing/usage_aggregator.rs:579). That is zero only if both sides hold a record of no
  samples; the aggregator makes no such record of raw metrics or by merging, so its own
  summaries are merged safely with whatever is stored.
- The periodic walk calls `aggregate_hour`, which only logs
  (src/billing/simple_aggregator.rs:191-206): that an hour is walked means that this call is made.
  The model also lets the call fail.

## Model

| member | source | states |
|---|---|---|
| `SandboxPool.EverySandboxInOnePlace` | src/lockfree.rs:48-94 | in every interleaving each created sandbox is in exactly one place: once in the queue, or with exactly one caller |
| `SandboxPool.NoSandboxHeldTwice` | src/lockfree.rs:48-82 | no sandbox is ever with two callers, held or in transit, and what a caller holds is in the active map |
| `SandboxPool.RunKeepsInv` | src/lockfree.rs:48-127 | ownership, the active map, the counter and the flags stay consistent in every reachable state |
| `SandboxPool.StepKeepsComplete` | src/lockfree.rs:48-94 | no atomic step loses a sandbox |
| `SandboxPool.StepKeepsActive` | src/lockfree.rs:75-94 | the active map holds exactly what callers have acquired and not begun to release |
| `SandboxPool.CounterAccountsForCreations` | src/lockfree.rs:55-71 | the counter equals created plus failed plus creations in flight, and never exceeds the maximum |
| `SandboxPool.CounterNeverFalls` | src/lockfree.rs:55-82 | the counter of any prefix of a run is at most that of the run |
| `SandboxPool.RejectionExplained` | src/lockfree.rs:55-71 | a caller told there are no sandboxes read a full count in that attempt, or its exchange came after another caller's increment since that attempt's load |
| `SandboxPool.LostExchangeRejects` | src/lockfree.rs:55-71 | a full counter or a lost exchange rejects the caller and changes nothing else |
| `SandboxPool.CreationErrorExplained` | src/lockfree.rs:59-68 | only a caller whose creation failed is told so |
| `SandboxPool.RecycledHandleLooksIdle` | src/lockfree.rs:50-53 | a handle's flag is up on acquire exactly when it was just created |
| `SandboxPool.FlagUpIffNeverReleased` | src/lockfree.rs:75-82 | in every reachable state a created handle's flag is up exactly while no release has cleared it, so also while it is held |
| `SandboxPool.RecycledHandleIsHeld` | src/lockfree.rs:48-82 | acquire, release and acquire again end with a held handle whose flag is down |
| `SandboxPool.LockFreeSandboxPool.constructor` | src/lockfree.rs:32-45 | an empty pool, the start of every run |
| `SandboxPool.LockFreeSandboxPool.AcquireSandbox` | src/lockfree.rs:48-72 | alone, it answers the queue's head, a rejection, a creation error or a new sandbox, by a run of the atomic steps |
| `SandboxPool.LockFreeSandboxPool.CreateCounted` | src/lockfree.rs:59-68 | from the exchange on, a new sandbox or a creation error that stays counted |
| `SandboxPool.LockFreeSandboxPool.ReleaseSandbox` | src/lockfree.rs:75-82 | the handle leaves the active map, its flag goes down, and it goes to the end of the queue |
| `EvictingCache.LockFreeCache.constructor` | src/lockfree.rs:250-256 | an empty cache agrees with an empty log |
| `EvictingCache.LockFreeCache.Get` | src/lockfree.rs:258-264 | answers what an unbounded map would for every held key, whatever the stamps, and counts the access; no stamp or value changes |
| `EvictingCache.LockFreeCache.Insert` | src/lockfree.rs:266-281 | held keys keep their latest values, an oldest entry at most goes, and only from a full cache; while every stamp is later than the one before, the cache holds exactly the newest distinct keys, and its new size is known |
| `EvictingCache.LockFreeCache.FindOldestKey` | src/lockfree.rs:284-289 | a least stamp, whatever order the map yields, and none only if empty |
| `EvictingCache.EvictionAgrees` | src/lockfree.rs:270-273 | evicting the oldest stamp leaves the newest keys, one fewer |
| `EvictingCache.InsertionAgrees` | src/lockfree.rs:275-280 | inserting keeps agreement with the unbounded map |
| `EvictingCache.NewestAfterInsert` | src/lockfree.rs:275-280 | inserting a held key keeps the set of newest keys, another one extends it |
| `EvictingCache.SizeAfter` | src/lockfree.rs:266-281 | the size never exceeds max(1, bound) or the number of distinct keys |
| `EvictingCache.DistinctKeysFillTheCache` | src/lockfree.rs:266-281 | without repeated keys nothing is evicted before the bound is reached |
| `CircuitBreaker.CircuitBreaker.constructor` | src/container/error_recovery.rs:261-271 | a closed breaker with no history |
| `CircuitBreaker.CircuitBreaker.RecordSuccess` | src/container/error_recovery.rs:273-294 | a closed breaker forgets its failures, an open one is left alone, a half-open one counts and closes at its quota |
| `CircuitBreaker.CircuitBreaker.RecordFailure` | src/container/error_recovery.rs:296-324 | a closed breaker opens at its threshold, with the window pruned in place, a half-open one at once |
| `CircuitBreaker.CircuitBreaker.Retain` | src/container/error_recovery.rs:305-307 | pruning keeps exactly the failures inside the window, in order |
| `CircuitBreaker.InWindowKeeps` | src/container/error_recovery.rs:305-307 | a failure stays, as often as it is there, exactly if it is no older than the window |
| `CircuitBreaker.CircuitBreaker.CanExecute` | src/container/error_recovery.rs:326-345 | admits unless open before the timeout; a late check starts probing |
| `CircuitBreaker.PrunedWindowRefinesHistory` | src/container/error_recovery.rs:296-314 | with a clock that never runs back, the pruned list is always the whole history since the last reset, cut to the window ending at the latest failure; a reset is a success that meets a closed breaker or closes a half-open one |
| `CircuitBreaker.OpensExactlyAtThreshold` | src/container/error_recovery.rs:296-314 | a closed breaker opens on exactly the failure that brings the recent failures since the last reset to the threshold |
| `CircuitBreaker.ClosedIsBelowThreshold` | src/container/error_recovery.rs:296-314 | while closed the list is shorter than the threshold |
| `CircuitBreaker.ClosesOnlyAfterRecovery` | src/container/error_recovery.rs:273-294 | it closes only on the success that completes the quota since a check made after the timeout, with no failure between |
| `CircuitBreaker.OpenIsUndisturbed` | src/container/error_recovery.rs:296-344 | nothing before the timeout, rejected calls included, changes an open breaker |
| `CircuitBreaker.FirstCheckAfterTimeoutAdmitted` | src/container/error_recovery.rs:326-344 | after any rejected calls, a check is admitted exactly from the timeout on |
| `CircuitBreaker.SuccessesClose` | src/container/error_recovery.rs:273-294 | a quota of successes while probing closes it with a clean window |
| `CircuitBreaker.HalfOpenIsProbing` | src/container/error_recovery.rs:273-344 | a half-open breaker has counted exactly the successes since the check that reopened it |
| `RunningAverage.AverageIsBelowMean` | src/container/error_recovery.rs:613-621 | n samples of 64 bits average to at most their mean, and below it by at most (n-1)/2 |
| `RunningAverage.NeverAboveMean` | src/container/error_recovery.rs:613-621 | the average never exceeds the mean, even where the quotient is cut |
| `RunningAverage.BoundIsTight` | src/container/error_recovery.rs:613-621 | for every n some samples reach the bound |
| `RunningAverage.CutLosesTheAverage` | src/container/error_recovery.rs:613-621 | samples beyond 64 bits, 584 years and so more than any elapsed time, can average to zero |
| `HealthMonitor.Monitor.PerformHealthChecks` | src/container/error_recovery.rs:644-699 | after a round every container's record is the fold of its own results |
| `HealthMonitor.Monitor.constructor` | src/container/error_recovery.rs:359-371 | no container known |
| `HealthMonitor.UnhealthyIffDown` | src/container/error_recovery.rs:677-697 | unhealthy exactly when a full streak of failures has not been followed by a full streak of successes |
| `HealthMonitor.CountersAreStreaks` | src/container/error_recovery.rs:677-697 | the two counters are the lengths of the current streaks |
| `HealthMonitor.TotalsCount` | src/container/error_recovery.rs:677-697 | the totals count all checks and all failed ones |
| `ErrorRecovery.DelaysAreMonotoneAndCapped` | src/container/error_recovery.rs:607-611 | the sleeps of a run never get shorter and never exceed the cap |
| `ErrorRecovery.TotalDelayBound` | src/container/error_recovery.rs:607-611 | the sleeps between m attempts last at most base * (2^(m-1) - 1), and exactly that below the cap |
| `ErrorRecovery.RetryDelayIs` | src/container/error_recovery.rs:607-611 | each delay is the base times a power of two, up to the cap, or overflows |
| `ErrorRecovery.NoOverflowIff` | src/container/error_recovery.rs:607-611 | no delay between the attempts overflows exactly when there are at most 33 attempts and the last doubled delay fits a duration |
| `ErrorRecovery.OverflowedIff` | src/container/error_recovery.rs:393-460 | an execution never overflows when the delays fit, and otherwise does unless it is refused or succeeds first |
| `ErrorRecovery.EndingIsRight` | src/container/error_recovery.rs:407-452 | at most the allowed calls, all but a last success failed; stopped by the first success, refusal or overflow, or when all have failed; each call admitted by the breaker it met, and a refusal given by it |
| `ErrorRecovery.OnlyRightEnding` | src/container/error_recovery.rs:407-452 | and no other ending has these properties |
| `ErrorRecovery.MetIsRun` | src/container/error_recovery.rs:409-449 | as long as recovery does not reset the operation's own breaker, the breakers the attempts meet are one run of one breaker |
| `ErrorRecovery.MetAfterReset` | src/container/error_recovery.rs:534-553 | after a reset of its own breaker the next attempt meets a closed one without failures |
| `ErrorRecovery.AnswerMeans` | src/container/error_recovery.rs:409-434 | an attempt is refused exactly if its breaker does not admit it, and else ends as the operation does |
| `ErrorRecovery.FirstWorkingIsFirst` | src/container/error_recovery.rs:463-490 | the strategy that recovers is the first in order that works |
| `ErrorRecovery.RecoversIff` | src/container/error_recovery.rs:463-543 | a recovery fails only if every strategy is a restart that is not done or a recreation that fails |
| `ErrorRecovery.ResetsIff` | src/container/error_recovery.rs:463-543 | it resets the breaker exactly if a reset is the first strategy that does not fail |
| `ErrorRecovery.ErrorRecoverySystem.constructor` | src/container/error_recovery.rs:359-371 | no breakers, nothing counted |
| `ErrorRecovery.ErrorRecoverySystem.CanExecute` | src/container/error_recovery.rs:545-553 | asks the operation's breaker, made on first use |
| `ErrorRecovery.ErrorRecoverySystem.RecordSuccess` | src/container/error_recovery.rs:555-568 | one more sample in the average, one success for the breaker |
| `ErrorRecovery.ErrorRecoverySystem.RecordFailure` | src/container/error_recovery.rs:571-588 | one more error, one failure for the breaker, and an opening counted when it opens |
| `ErrorRecovery.ErrorRecoverySystem.UpdateRecoveryMetrics` | src/container/error_recovery.rs:590-599 | the recovered count is always the number of samples averaged |
| `ErrorRecovery.ErrorRecoverySystem.AttemptRecovery` | src/container/error_recovery.rs:463-543 | the first working strategy, its counters, its sample and its breaker reset; nothing when none works |
| `ErrorRecovery.ErrorRecoverySystem.TryCall` | src/container/error_recovery.rs:409-434 | one pass: refused exactly if the breaker does not admit it, else as the operation ends, and the breaker told so |
| `ErrorRecovery.ErrorRecoverySystem.PauseAndRecover` | src/container/error_recovery.rs:436-449 | the sleep is the next of the backoff; recovery leaves every breaker alone, but a reset that works removes the container's |
| `ErrorRecovery.ErrorRecoverySystem.TryOnce` | src/container/error_recovery.rs:407-449 | one attempt and its pause: the breaker met decides and is told, unless the pause resets it, whose next use makes a fresh one |
| `ErrorRecovery.ErrorRecoverySystem.TakeTurn` | src/container/error_recovery.rs:407-451 | one turn of the loop ends the execution as it should, or leaves the breaker that the next attempt meets, resets included |
| `ErrorRecovery.ErrorRecoverySystem.UpdateFailedRecoveryMetrics` | src/container/error_recovery.rs:601-604 | one more failed recovery |
| `ErrorRecovery.ErrorRecoverySystem.RetryCalls` | src/container/error_recovery.rs:407-452 | the retry loop: how and after how many calls it ends, what it counts, samples and sleeps, and what its breaker was told, resets included |
| `ErrorRecovery.ErrorRecoverySystem.ExecuteWithRecovery` | src/container/error_recovery.rs:393-460 | it ends as `ErrorRecovery.EndingIsRight` says, for every operation and container; backoff sleeps; errors counted once per failed or blocked call, failed recoveries exactly when all ran and failed |
| `LockedBreaker.MutualExclusion` | src/billing/error_handling.rs:175-211 | at most one caller holds each lock in every interleaving |
| `LockedBreaker.RunKeepsInv` | src/billing/error_handling.rs:175-211 | the locks' owners are exactly the callers at the points that hold them |
| `LockedBreaker.StepHistory` | src/billing/error_handling.rs:245-246 | every further call of a caller is recorded, and whether it follows a success |
| `LockedBreaker.StuckIffEmbrace` | src/billing/error_handling.rs:175-211 | some call is under way and none that is can move, exactly when one caller holds `state` awaiting the failure time, another the reverse, and every other call waits or has finished |
| `LockedBreaker.EmbraceIsForever` | src/billing/error_handling.rs:175-211 | two such callers never leave, and the locked cells never change again |
| `LockedBreaker.StuckIsForever` | src/billing/error_handling.rs:175-211 | once stuck, no call under way ever takes another step, and a call begun later waits for `state` for good |
| `BreakerDeadlock.DeadlockIff` | src/billing/error_handling.rs:146-211 | callers that may call any number of times can deadlock exactly when there are two of them, at every threshold and timeout |
| `BreakerDeadlock.DeadlockWithinIff` | src/billing/error_handling.rs:146-211 | whatever number of calls each caller is limited to, some interleaving deadlocks exactly when there are two callers and max(1, threshold) + 2 calls in all; and the same if callers only repeat a call that was refused or failed |
| `BreakerDeadlock.RetryLoopsDeadlockIff` | src/billing/error_handling.rs:245-271 | n executions of the retry loop, of m attempts each, can deadlock exactly when n >= 2 and n * m >= max(1, threshold) + 2 |
| `BreakerDeadlock.SingleCallsDeadlockIff` | src/billing/error_handling.rs:146-211 | callers that make one call each can deadlock exactly when there are max(1, threshold) + 2 of them |
| `BreakerDeadlock.StuckNeedsTwoMore` | src/billing/error_handling.rs:175-211 | a run that gets stuck had two callers, and that many calls allowed |
| `BreakerDeadlock.EnoughCallsEmbrace` | src/billing/error_handling.rs:146-211 | with two callers and that many calls allowed, a run that gets stuck is built, without a success |
| `BreakerDeadlock.RunKeepsCounted` | src/billing/error_handling.rs:201-211 | every draw of a count that opens the breaker comes on top of the failed calls that it takes, in every interleaving |
| `BillingRecovery.SoloCallFinishes` | src/billing/error_handling.rs:146-211 | an undisturbed call reaches its end by steps in which its operation ends as it does, and does what the sequential code does |
| `BillingRecovery.CallMeans` | src/billing/error_handling.rs:146-211 | a call is refused exactly while open within the timeout and then changes nothing; else a success closes and forgets, and a failure counts, is stamped, and opens from the threshold on |
| `BillingRecovery.CircuitBreaker.constructor` | src/billing/error_handling.rs:136-144 | closed, no failure counted or stamped |
| `BillingRecovery.ErrorRecoveryService.constructor` | src/billing/error_handling.rs:223-230 | nothing counted |
| `BillingRecovery.CircuitBreaker.CheckOpen` | src/billing/error_handling.rs:175-193 | open, closed, or turned half-open after the timeout |
| `BillingRecovery.CircuitBreaker.OnSuccess` | src/billing/error_handling.rs:195-199 | closes and forgets the failures |
| `BillingRecovery.CircuitBreaker.OnFailure` | src/billing/error_handling.rs:201-211 | counts and stamps the failure and opens from the threshold on |
| `BillingRecovery.CircuitBreaker.Call` | src/billing/error_handling.rs:146-172 | refuses exactly while open within the timeout, and else returns exactly what succeeds and raises what fails, with the cells to match |
| `BillingRecovery.ErrorRecoveryService.ExecuteWithRecovery` | src/billing/error_handling.rs:233-271 | retries until the first success or the last attempt, each earlier attempt refused or failed, reports the last error, and counts errors and recoveries |
| `BillingRecovery.SequentialCallsSettle` | src/billing/error_handling.rs:146-211 | one caller at a time never leaves the breaker half-open, closed at its threshold, or open without a failure time |
| `BillingRecovery.RefusedWhileOpen` | src/billing/error_handling.rs:146-211 | so one caller's call is refused exactly while open before the timeout, then changes nothing, and a failure after the timeout reopens at once |
| `HourRounding.RoundHourWindow` | src/billing/usage_aggregator.rs:46-48 | an hour's timestamps are exactly those within half an hour before and less than half an hour after it |
| `HourRounding.OneHourWindow` | src/billing/usage_aggregator.rs:46-48 | no timestamp belongs to two hours |
| `UsageAggregation.MergeIsAggregation` | src/billing/usage_aggregator.rs:563-612 | merging the summaries of two parts gives total, count, extremes and average of all their metrics |
| `UsageAggregation.OrderIsIrrelevant` | src/billing/usage_aggregator.rs:119-162 | aggregation depends only on which metrics there are |
| `UsageAggregation.AnyMergeOrderAgrees` | src/billing/usage_aggregator.rs:563-612 | any split and any order of merging gives the summary of all the metrics |
| `UsageAggregation.SessionsRightIffDisjoint` | src/billing/usage_aggregator.rs:589-596 | merged session counts never fall short, and are right exactly when no merged parts share a session |
| `UsageAggregation.SessionOvercount` | src/billing/usage_aggregator.rs:589-596 | two parts over-count by exactly the sessions they share |
| `UsageAggregation.ListMergeIsAggregation` | src/billing/simple_aggregator.rs:288-343 | merging a list of stored summaries is aggregating all the metrics afresh |
| `UsageAggregation.AggregateBounds` | src/billing/usage_aggregator.rs:126-148 | maximum and minimum bound the values and occur among them; the total is their sum, the count their number, and average times count the total |
| `UsageAggregation.MetricsOfSums` | src/billing/usage_aggregator.rs:119-162 | a type is listed exactly if it has metrics, with the sum, number and average of their values and of no others |
| `UsageAggregation.MetricsOfBounds` | src/billing/usage_aggregator.rs:119-162 | and with the least and the greatest of them |
| `UsageAggregation.MergedEntry` | src/billing/usage_aggregator.rs:573-587 | whatever two records hold, they merge to the sums of totals and counts and the wider bounds |
| `UsageAggregation.TotalSessionsAdd` | src/billing/simple_aggregator.rs:288-343 | merged summaries have the sum of the session counts |
| `UsageAggregation.AggregateMetricsForPeriod` | src/billing/simple_aggregator.rs:214-285 | one pass over raw metrics gives their aggregates and session count |
| `UsageAggregation.AggregateGroups` | src/billing/simple_aggregator.rs:246-268 | one aggregate per type with values, in whatever order the groups come |
| `UsageAggregation.MergeInto` | src/billing/simple_aggregator.rs:313-330 | folds one summary into another, in whatever order its entries come |
| `UsageAggregation.MergeSummaries` | src/billing/simple_aggregator.rs:288-343 | merged metrics, summed sessions and the hull of the periods |
| `UsageAggregation.MergeActiveAndStored` | src/billing/usage_aggregator.rs:563-612 | the merge of live and stored; it can divide by zero only if neither is an aggregation of metrics |
| `UsageAggregation.AggregatesNeverDivideByZero` | src/billing/usage_aggregator.rs:573-587 | merging the aggregates of any metrics with any stored records never divides by zero |
| `BucketStore.RoutesIsRounding` | src/billing/usage_aggregator.rs:454-458 | a metric's bucket is that of the only hour window it lies in |
| `BucketStore.BucketSummary` | src/billing/usage_aggregator.rs:119-162 | a bucket's summary is the aggregation of the raw metrics added to it |
| `BucketStore.ConservedIffFlushedOnce` | src/billing/usage_aggregator.rs:242-276 | stored plus live is everything ever added exactly when no flush of the key failed or came second |
| `BucketStore.TotalsBalance` | src/billing/usage_aggregator.rs:352-371 | for every type the totals of stored, live and lost metrics add up to the sum of the values added, and the counts to their number |
| `BucketStore.RunBalances` | src/billing/usage_aggregator.rs:242-276 | over every run of adds and flushes nothing is in two places or none, and the adds of a key are what was added |
| `BucketStore.PunctualFlushesOnce` | src/billing/usage_aggregator.rs:352-371 | if no metric is added over half an hour late and the clock never runs back, a flushed bucket is never reopened |
| `BucketStore.PunctualRunsConserve` | src/billing/usage_aggregator.rs:242-276 | then, with stores that succeed, stored and live merged are the summary of every metric of the hour |
| `BucketStore.FlushSetKeepsAll` | src/billing/usage_aggregator.rs:352-371 | flushing any set of buckets keeps every key's bucket, stored summary and account in agreement |
| `BucketStore.UsageAggregator.constructor` | src/billing/usage_aggregator.rs:177-193 | no buckets, nothing stored, the empty run |
| `BucketStore.UsageAggregator.AddMetric` | src/billing/usage_aggregator.rs:242-276 | the metric is accounted to the key it is routed to, and to no other |
| `BucketStore.UsageAggregator.GetBucketKey` | src/billing/usage_aggregator.rs:454-458 | the key whose hour window the metric lies in |
| `BucketStore.UsageAggregator.InsertMetric` | src/billing/usage_aggregator.rs:248-270 | the bucket, made if missing, takes the metric; no other bucket changes |
| `BucketStore.UsageAggregator.StoreFlushed` | src/billing/usage_aggregator.rs:373-386 | each drained bucket is summarized and stored, or lost, whatever their order |
| `BucketStore.UsageAggregator.FlushExpired` | src/billing/usage_aggregator.rs:343-391 | exactly the buckets whose period is over leave, and are stored or lost |
| `BucketStore.UsageAggregator.FlushAll` | src/billing/usage_aggregator.rs:615-636 | every bucket leaves, and is stored or lost |
| `BucketStore.UsageAggregator.GetActiveBucketSummary` | src/billing/usage_aggregator.rs:460-524 | the aggregation of the live metrics of all the user's buckets that overlap the range, and none if there are none |
| `BucketStore.LiveSummaryIgnoresOrder` | src/billing/usage_aggregator.rs:460-524 | which is the same in whatever order the map yields the buckets |
| `BucketStore.LiveInMeans` | src/billing/usage_aggregator.rs:472-475 | the metrics it takes are those live in a bucket of the user whose hour overlaps the range |
| `HourWalk.SimpleUsageAggregator.constructor` | src/billing/simple_aggregator.rs:72-80 | nothing walked yet |
| `HourWalk.SimpleUsageAggregator.RunPeriodicAggregation` | src/billing/simple_aggregator.rs:157-188 | walks the hours from the last tick to this one, counts the successes, and remembers this tick |
| `HourWalk.AggregateHours` | src/billing/simple_aggregator.rs:170-186 | calls `aggregate_hour` once for every hour of the range, failed ones included |
| `HourWalk.SuccessesSnoc` | src/billing/simple_aggregator.rs:170-186 | an hour is counted exactly if its call succeeds |
| `HourWalk.WalkIsExactIffOneWay` | src/billing/simple_aggregator.rs:157-188 | the ticks of a run walk exactly the hours from start to end if and only if the rounded clock moved one way only |
| `HourWalk.EachHourOnce` | src/billing/simple_aggregator.rs:157-188 | under a clock that never runs back `aggregate_hour` is called once for the hour of every timestamp in range, never for any other |
| `Precision.RoundIntIsNearest` | src/billing/precision.rs:50-82 | rounding is to the one nearest integer, or the even one of two |
| `Precision.RoundIntReflects` | src/billing/precision.rs:50-82 | rounding commutes with reflection in an even integer |
| `Precision.RoundAtIsNear` | src/billing/precision.rs:50-82 | the result is on the scale and at most half a unit away |
| `Precision.RoundAtFixes` | src/billing/precision.rs:50-82 | unchanged exactly when already on the scale |
| `Precision.RoundAtIdempotent` | src/billing/precision.rs:50-82 | rounding twice is rounding once |
| `Precision.RoundAtMonotone` | src/billing/precision.rs:50-82 | rounding preserves order |
| `Precision.SafeAddIsExact` | src/billing/precision.rs:98-109 | sums of monetary amounts are exact, and fail exactly above the maximum |
| `Precision.SafeSubtractIsExact` | src/billing/precision.rs:98-109 | so are differences |
| `Precision.UsageDecimals` | src/billing/precision.rs:156-168 | how many decimals each kind of usage keeps |
| `Precision.CostInContext` | src/billing/precision.rs:197-205 | a context with limits refuses a negative cost |
| `Precision.FinancialContext.SumCosts` | src/billing/precision.rs:208-216 | the checked sum from the left, stopping at the first failure |
| `Precision.SafeSumIsExact` | src/billing/precision.rs:208-216 | it is the exact sum, and fails exactly when the whole sum is too large, in any order |
| `Precision.DiscountFormula` | src/billing/precision.rs:219-227 | the discounted share is rounded before and after the division, and which errors come when |
| `Precision.DiscountKeepsPart` | src/billing/precision.rs:219-227 | it fails exactly outside 0 to 100 or above the maximum, and else leaves a monetary part of the amount |
| `Precision.RestIsShareIff` | src/billing/precision.rs:219-227 | what a discount leaves is the discounted percentage itself exactly when there is a discount and both round to half of the amount |
| `Discounts.TenPercentTakesNinety` | src/billing/cost_calculator.rs:36-42 | ten per cent of 10.00 is taken as 9.00 |
| `Discounts.DiscountKinds` | src/billing/cost_calculator.rs:36-65 | promotions end when they expire, volume discounts begin at their threshold, first-time ones are percentages, a fixed amount is taken as far as it goes |
| `Discounts.PercentageIsItsShareIff` | src/billing/cost_calculator.rs:36-42 | for every amount and percentage: the discount is that percentage of the amount, rounded, exactly when the percentage is in 0 to 100, the share kept is not too large, and the percentage rounds to half; it never is once it is 0.0000505 away from half |
| `Discounts.DiscountWithinAmount` | src/billing/cost_calculator.rs:36-65 | every kind of discount is a monetary amount between nothing and what is there |
| `Discounts.RuleIsSound` | src/billing/cost_calculator.rs:36-65 | so the code's rule is one of those the next three rows are about |
| `Discounts.DiscountMovesMoney` | src/billing/cost_calculator.rs:331-339 | one turn moves exactly the discount from the remainder to the total, for every rule that stays within the amount |
| `Discounts.DiscountsConserve` | src/billing/cost_calculator.rs:327-343 | for every list of discounts total plus remainder is the subtotal, both non-negative |
| `Discounts.MoreDiscountsTakeMore` | src/billing/cost_calculator.rs:327-343 | appending discounts never lowers the total discount |
| `Discounts.NextDiscount` | src/billing/cost_calculator.rs:331-342 | while something is left a bad discount is an error; once nothing is, the rest of the list is not looked at |
| `Discounts.TakeInTurn` | src/billing/cost_calculator.rs:331-342 | the loop with its early exit computes the fold over all discounts, or its first error |
| `Discounts.CalculateTotalDiscounts` | src/billing/cost_calculator.rs:327-343 | the same under the code's rule |
| `CostCalculator.ItemCost` | src/billing/cost_calculator.rs:195-231 | an item is billed exactly when its prices and exact cost are in range, at the exact cost rounded once |
| `CostCalculator.ItemIsPriced` | src/billing/cost_calculator.rs:195-231 | a billed item is priced at the rounded usage, rate and allowance of its metric |
| `CostCalculator.AllowanceIsFree` | src/billing/cost_calculator.rs:210-231 | usage up to the allowance is free, and what goes beyond costs its rate, rounded once; the item lists what it was billed at |
| `CostCalculator.ItemErrors` | src/billing/cost_calculator.rs:204-212 | the rate is checked first, then the allowance, then the cost |
| `CostCalculator.Unpriced` | src/billing/cost_calculator.rs:196-202 | a metric without a price or an allowance has none |
| `CostCalculator.ItemCostIsMonotone` | src/billing/cost_calculator.rs:204-212 | more usage never costs less, and less usage can be billed whenever more can |
| `CostCalculator.BillingIsExact` | src/billing/cost_calculator.rs:195-236 | billing fails exactly on an invalid item or a full sum above the maximum; the subtotal is the exact sum |
| `CostCalculator.BillingIgnoresOrder` | src/billing/cost_calculator.rs:195-236 | success, subtotal and the bag of line items do not depend on the order of the map |
| `CostCalculator.BillAddsUp` | src/billing/cost_calculator.rs:239-261 | discounts lie between nothing and the subtotal and the total is exactly the rest |
| `CostCalculator.BillErrors` | src/billing/cost_calculator.rs:239-261 | only a discount keeps a sum in range from becoming a bill, with its own error |
| `CostCalculator.BillsAddUpInAnyOrder` | src/billing/cost_calculator.rs:185-262 | the same for whole bills, for every order of the usage map |
| `CostCalculator.AddItems` | src/billing/cost_calculator.rs:195-236 | the loop accumulates items and subtotal up to the first error |
| `CostCalculator.CalculateCostWithStructure` | src/billing/cost_calculator.rs:185-262 | the whole bill, or the error that stops it |
| `CostCalculator.CalculateEstimatedCost` | src/billing/cost_calculator.rs:265-297 | the unrounded sum over projected usage |
| `CostCalculator.EstimateAdds` | src/billing/cost_calculator.rs:276-294 | every entry adds what its usage, over the duration if it accumulates, costs beyond the allowance |
| `CostCalculator.ItemNearEstimate` | src/billing/cost_calculator.rs:195-231 | whatever is billed differs from its estimate by at most the slack of the roundings of usage, prices and cost |
| `CostCalculator.Rounding.SlackIsSmall` | src/billing/cost_calculator.rs:195-231 | that slack is at most (1 + billable usage + rate)/20000, and the rate for what the usage was rounded by |
| `CostCalculator.SubtotalNearEstimate` | src/billing/cost_calculator.rs:265-297 | for every usage, prices and duration, the bill of the projected usage is within the sum of the slacks of the estimate |
| `CostCalculator.ExactSlacks` | src/billing/cost_calculator.rs:265-297 | which is n/20000 for n items with usage and prices at their decimals |
| `CostCalculator.Settle` | src/billing/cost_calculator.rs:239-261 | takes the discounts and leaves the rest, or the error that stops it |
| `CostCalculator.DefaultBill` | src/billing/models.rs:136-165 | a bill at the default prices can be made exactly without memory and network usage, and with items and sum in range |
| `CostCalculator.DefaultItem` | src/billing/models.rs:136-165 | memory and network usage at the default prices is an error of the allowance, whatever the amount |
| `CostCalculator.DefaultStorageIsFree` | src/billing/models.rs:143 | storage at the default rate costs nothing |
| `StreamChunker.ZeroCopyStreamProcessor.constructor` | src/zero_copy.rs:74-79 | an empty buffer |
| `StreamChunker.ZeroCopyStreamProcessor.ProcessStream` | src/zero_copy.rs:82-111 | the chunks of the reads up to the end; a failed read gives up the chunks and keeps the buffer |
| `StreamChunker.HeardIsUpToTheEnd` | src/zero_copy.rs:82-111 | what counts are the reads up to the first failure or end, and it fails exactly at a failure |
| `StreamChunker.ChunksAreTheStream` | src/zero_copy.rs:82-111 | the chunks are the leftover buffer and the input, for every chunk size and fragmentation |
| `StreamChunker.CanonicalIffBacklogFits` | src/zero_copy.rs:97-108 | the output is the canonical chunking exactly when the backlog left by the reads fits one chunk |
| `StreamChunker.ShortReadsLeaveLittle` | src/zero_copy.rs:97-108 | reads no longer than a chunk leave less than a chunk |
| `StreamChunker.FragmentationIsInvisible` | src/zero_copy.rs:82-111 | so the output does not depend on how such reads cut the stream |
| `AuditStorage.AuditStorage.constructor` | src/audit/service.rs:49-54 | an empty ring |
| `AuditStorage.AuditStorage.AddLog` | src/audit/service.rs:56-61 | the ring stays the newest part of everything ever added, one log at least |
| `AuditStorage.AuditStorage.CleanupOldLogs` | src/audit/service.rs:316-329 | it stays so, the oldest go until no more than asked are left, and the number removed is right |
| `AuditStorage.AuditStorage.QueryLogs` | src/audit/service.rs:63-90 | the page of the sorted matches, or the overflow of its first index |
| `AuditStorage.MatchingCounts` | src/audit/service.rs:92-156 | the filter keeps each matching log as often as stored and no other |
| `AuditStorage.CriteriaNarrow` | src/audit/service.rs:92-156 | each criterion lets through exactly what meets it, and none lets through everything |
| `AuditStorage.SortIsStable` | src/audit/service.rs:70-77 | newest first or oldest first as asked, and within one timestamp in the order stored |
| `AuditStorage.StableSortIsUnique` | src/audit/service.rs:70-77 | any stable sort gives the same list |
| `AuditStorage.PagesAreComplete` | src/audit/service.rs:63-90 | successive pages give every matching log once, stably sorted |
| `AuditStorage.PageMeans` | src/audit/service.rs:78-90 | a page holds the sorted matches from its first index on, up to the limit |
| `AuditStorage.QueryDefaults` | src/audit/service.rs:70-90 | page one, a hundred a page, newest first, unless asked otherwise |
| `MetricCollector.SimpleMetricBuffer.AddMetric` | src/billing/simple_collector.rs:38-52 | the new metric last, the oldest dropped if full, and whether to flush |
| `MetricCollector.SimpleMetricBuffer.Flush` | src/billing/simple_collector.rs:54-58 | everything, in order, and an empty buffer |
| `MetricCollector.SimpleMetricBuffer.constructor` | src/billing/simple_collector.rs:30-36 | an empty buffer |
| `MetricCollector.SimpleMetricsCollector.constructor` | src/billing/simple_collector.rs:80-109 | the start of every run |
| `MetricCollector.SimpleMetricsCollector.ProcessMetric` | src/billing/simple_collector.rs:240-267 | alone, one turn of the processor is its receive, store and re-queue steps |
| `MetricCollector.SimpleMetricsCollector.PutBack` | src/billing/simple_collector.rs:259-263 | a failed batch is pushed metric by metric |
| `MetricCollector.SimpleMetricsCollector.FlushBuffer` | src/billing/simple_collector.rs:287-298 | a timed or final flush is its take and finish steps |
| `MetricCollector.EveryMetricInOnePlace` | src/billing/simple_collector.rs:232-315 | in every interleaving each received metric is stored, buffered, in flight, dropped or lost, and in one of these only |
| `MetricCollector.StepConserves` | src/billing/simple_collector.rs:232-315 | no single step loses or repeats a metric |
| `MetricCollector.NothingLostWithoutFailures` | src/billing/simple_collector.rs:232-315 | without a failed store nothing is dropped or lost, at any capacity |
| `MetricCollector.RequeueIsLossless` | src/billing/simple_collector.rs:259-263 | putting a batch back never drops anything and keeps its order |
| `MetricCollector.DropsNeedFailures` | src/billing/simple_collector.rs:38-58 | a drop needs the processor to have failed often enough in a row to fill the buffer |
| `MetricCollector.StreakCounts` | src/billing/simple_collector.rs:249-264 | what a row of failures is: it grows with each failed store of the processor and ends with a success |
| `MetricCollector.DropBoundIsTight` | src/billing/simple_collector.rs:38-58 | at every capacity that many failures suffice |
| `MetricCollector.LossIsFailedFlush` | src/billing/simple_collector.rs:287-315 | metrics are lost exactly when a timed or final flush fails |

## Left out

- Redis, SurrealDB, Docker, HTTP, gRPC, the CLI, log and alert senders: I/O; a store is a call that succeeds or fails.
- Relaxed memory: every queue, map, lock or atomic operation is one sequentially consistent step.
- Racing cache calls: length check, eviction and insertion are separate in the code, so concurrent inserts can exceed the bound; cache calls are atomic here.
- An add that holds a bucket across its flush (src/billing/usage_aggregator.rs:242-276): adds and flushes are atomic here, so a metric added to a bucket already drained is not modelled.
- A store of a summary that succeeds in part, and the expiry of stored summaries.
- Weekly, daily and monthly periods: calendar arithmetic of a library. The fallback of hour rounding outside the range of 64-bit nanoseconds.
- The rounding of the decimal type to 28 digits: averages, and products of more digits, are exact here. Overflow of the unchecked decimal operations in estimates and sums of raw metrics.
- Counters of the code are 64-bit and wrap; here they do not, except where a row says so.
- Builds without overflow checks, in which the retry power and the page index wrap.
- The sleep lengths of the billing retry, which are floating point, and its test for retryable messages.
- The final aggregation on stop (src/billing/simple_aggregator.rs:207-211), which only moves the last tick.
- Custom rates, tier tables, currencies, descriptions, display names and parsing: finite tables.
- Audit statistics: counts over the filtered logs, which would add only easy members.
- Float metrics, identifiers, wall-clock reads and log messages.
- ErrorRecovery.ErrorRecoverySystem.ExecuteWithRecovery: one caller of the recovery system at a time; concurrent calls share breakers and metrics in the code.
- UsageAggregation.MergeActiveAndStored: states the merge as the code computes it; that it means aggregation is `UsageAggregation.MergeIsAggregation`.
- BillingRecovery.ErrorRecoveryService.ExecuteWithRecovery: one caller at a time, without the sleeps between attempts.
