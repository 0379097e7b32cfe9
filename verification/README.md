# resilience4py: a verified model of its four engines

A Dafny model of the stateful parts of resilience4py, with proofs about whole runs of interleaved
calls. `dafny verify dfyconfig.toml` checks all of it.

**Circuit breaker.** `BreakerCore` holds the atomic reactions as functions, `CircuitBreakers` and
`SlidingWindow` the mutable objects proved to perform them. `BreakerRuns` puts many calls in flight
at once: an action is the code between two suspension points (a call begins, ends or is cancelled,
time passes, reset, manual transition, metrics are read), and calls admitted by one state object may
end under another. The trail of a run records who was admitted by which state object and how each
call ended; the theorems compare the breaker's data with that trail. `Evidence` restates the decisions
in terms of the calls as their callers saw them.

**Rate limiter.** `RateLimiter` is the object; `RateLimiterRuns` proves that lazy refresh with integer
cycle arithmetic refines a specification by history, and the interval bounds that follow.

**Bulkheads.** Objects at suspension-point granularity, and tasks with program counters for every
line-level interleaving of the semaphore, its shadow counter and the executor's workers and queue.

**Retry and backoff.** Both loops against one specification by the decisive attempt, the totals
slept, and the Fibonacci memo table.

Conventions: clock readings are parameters, frozen within one action, `real` seconds for the breaker
and `int` nanoseconds for the limiter. Rates, waits and totals use exact arithmetic. An exception is
the set of classes it is an instance of. Values returned by protected functions are integers.

## Where the code differs from its description

- OPEN and FORCED_OPEN call `on_success` and `on_error` something that should not happen
  (states.py:147-153, 264-270), but a call admitted earlier reaches them whenever it ends there, and
  its caller gets a RuntimeError instead of its own result (`Transparency.ReplyExact`); this can happen
  in every configuration that can open at all (`TripReachability.CanLoseResultIff`).
- A cancelled probe never returns its permit. HALF_OPEN can therefore be stuck for good when no
  maximum wait is configured: `Wedge.WedgedIffStarved` gives the stuck states, and
  `WedgeReachability.CanWedgeIff` the configurations that reach one.
- `validate` accepts a count-based window smaller than the minimum number of calls, which disables the
  breaker (`TripReachability.CanOpenIff`).
- Closing after HALF_OPEN keeps the window that had opened the breaker (`Recovery.RecoveredWindow`), so
  with a count-based window the next bad call opens it again (`Recovery.NextBadCallReopens`). Only a
  time-based window shorter than the wait in OPEN is always empty by then (`Recovery.ForgottenIff`).
- The HALF_OPEN time limit is looked at only when a call arrives, so without calls the state outlives it,
  and a late verdict can still close (`ProbationLimit.HalfOpenUntilEnded`, `LateVerdictCloses`).
- A caller of the rate limiter that is told to wait takes no permission of the next cycle, so
  `limit_for_period` bounds executions only with timeout 0 (`RateLimiterRuns.LimitBoundsExecutionsIff`).
- Cancelling a call gives its bulkhead permit back while a synchronous function runs on in its thread,
  or its work item stays queued. `SemaphoreBulkheads.CancellationExceedsMaxIff` and
  `ThreadPoolBulkheads.CancellationExceedsQueueIff` say by how much the documented bounds can then fail.
  With queue capacity 0 a dead item can never be queued while all workers run uncancelled calls.
- Negative waits make the synchronous retry loop fail with ValueError while the asynchronous one
  goes on (`Retries.AlwaysAgreeIff`). The library's own deterministic intervals have none (`Backoff.WaitNonNegative`).

## Model

| member | source | states |
|---|---|---|
| `CallMetrics.CountFailed` | src/resilience4py/circuitbreaker/metrics.py:138 | the failed count is the number of positions holding a failed call |
| `CallMetrics.CountSlow` | src/resilience4py/circuitbreaker/metrics.py:139 | the slow count is the number of positions holding a slow call |
| `CallMetrics.SnapshotIsExact` | src/resilience4py/circuitbreaker/metrics.py:127-153 | total, failed and slow of a snapshot are the cardinalities of the stored calls, and its rates meet the thresholds iff 100 * part >= threshold * total |
| `CallMetrics.AverageIsExact` | src/resilience4py/circuitbreaker/metrics.py:140-144 | the average duration is the number that, taken once for each call, gives the sum of all durations |
| `CallMetrics.TotalDurationAdds` | src/resilience4py/circuitbreaker/metrics.py:140 | the total duration is additive over calls |
| `CallMetrics.DropOldIsSince` | src/resilience4py/circuitbreaker/metrics.py:171-181 | on sorted timestamps, popping expired entries from the left leaves exactly the entries not before the window start, even after earlier prunings |
| `CallMetrics.PruneAgrees` | src/resilience4py/circuitbreaker/metrics.py:116-125 | pruning at any later time yields exactly the window of the full history, and keeps the deque in agreement with it |
| `CallMetrics.AddAgrees` | src/resilience4py/circuitbreaker/metrics.py:160-169 | appending an outcome yields the last `size` outcomes, or those not expired, of the extended history |
| `SlidingWindow.SlidingWindowMetrics.AddCall` | src/resilience4py/circuitbreaker/metrics.py:160-169 | the deque becomes the pruned deque with the outcome appended, evicting the oldest at the maximum length |
| `SlidingWindow.SlidingWindowMetrics.CleanupOldEntries` | src/resilience4py/circuitbreaker/metrics.py:171-181 | the while loop terminates and removes the maximal expired prefix of a time-based deque; a count-based one is untouched |
| `SlidingWindow.SlidingWindowMetrics.GetSnapshot` | src/resilience4py/circuitbreaker/metrics.py:116-153 | prunes, then summarises what is left |
| `SlidingWindow.SlidingWindowMetrics.RecordSuccess` | src/resilience4py/circuitbreaker/metrics.py:84-98 | adds an outcome stamped now with success true, slow iff its duration reaches the threshold |
| `SlidingWindow.SlidingWindowMetrics.RecordFailure` | src/resilience4py/circuitbreaker/metrics.py:100-114 | adds an outcome stamped now with success false, slow iff its duration reaches the threshold |
| `SlidingWindow.SlidingWindowMetrics.Reset` | src/resilience4py/circuitbreaker/metrics.py:155-158 | empties the deque |
| `SlidingWindow.HalfOpenMetrics.Record` | src/resilience4py/circuitbreaker/metrics.py:203-227 | appends the outcome, with the success flag it is given, unless all permitted calls are already recorded |
| `BreakerConfig.ValidIffNoComplaint` | src/resilience4py/circuitbreaker/config.py:64-108 | the configurations the theorems cover are exactly those in which no check of validate fails |
| `BreakerConfig.RecordedExactly` | src/resilience4py/circuitbreaker/config.py:110-141 | an ignored exception is never recorded; of the others a record list lets through exactly its classes, else the record predicate decides, else all are recorded |
| `CircuitBreakers.CircuitBreaker.TransitionToState` | src/resilience4py/circuitbreaker/circuit_breaker.py:240-271 | installs a fresh state object and publishes the transition, or does nothing if the type is the same; metrics are untouched |
| `CircuitBreakers.CircuitBreaker.Reset` | src/resilience4py/circuitbreaker/circuit_breaker.py:273-278 | clears the window, installs CLOSED, publishes a reset |
| `CircuitBreakers.CircuitBreaker.AcquirePermission` | src/resilience4py/circuitbreaker/states.py:133-145 | per state: permission and state change agree with the reaction function, including OPEN to HALF_OPEN |
| `CircuitBreakers.CircuitBreaker.AcquireHalfOpen` | src/resilience4py/circuitbreaker/states.py:174-190 | time limit first, then the permit count |
| `CircuitBreakers.CircuitBreaker.CheckThresholds` | src/resilience4py/circuitbreaker/states.py:100-117 | minimum number, then failure rate, then slow rate, with the events in order |
| `CircuitBreakers.CircuitBreaker.CheckTransition` | src/resilience4py/circuitbreaker/states.py:206-224 | verdict on a complete set of half-open outcomes |
| `CircuitBreakers.CircuitBreaker.OnSuccess` | src/resilience4py/circuitbreaker/states.py:85-289 | per state reaction to a success, or the refusal of OPEN and FORCED_OPEN |
| `CircuitBreakers.CircuitBreaker.OnError` | src/resilience4py/circuitbreaker/states.py:90-296 | per state reaction to an error, ignored exceptions being recorded as successes |
| `CircuitBreakers.CircuitBreaker.BeginCall` | src/resilience4py/circuitbreaker/circuit_breaker.py:192-198 | a call is let through, or rejected with an event and the name of the state it left behind |
| `CircuitBreakers.CircuitBreaker.EndCall` | src/resilience4py/circuitbreaker/circuit_breaker.py:201-221 | what the breaker records and what the caller gets when the function ends, an on_success refusal being caught by the error path |
| `CircuitBreakers.CircuitBreaker.HandleError` | src/resilience4py/circuitbreaker/circuit_breaker.py:223-238 | ignored-error event, state reaction, error event, and the exception that leaves the call |
| `CircuitBreakers.CircuitBreaker.GetMetrics` | src/resilience4py/circuitbreaker/circuit_breaker.py:357-374 | reading the metrics prunes the window and summarises it |
| `BreakerReactions.Permission` | src/resilience4py/circuitbreaker/states.py:133-145 | permission is granted iff the state accepts calls, has a probe left within its time limit, or is OPEN with the cool-down over; a grant never leaves OPEN or FORCED_OPEN behind |
| `BreakerReactions.AdmissionAnnounced` | src/resilience4py/circuitbreaker/circuit_breaker.py:192-198 | asking for permission publishes the automatic transition if there is one and then exactly the rejection |
| `BreakerReactions.VerdictExact` | src/resilience4py/circuitbreaker/states.py:206-224 | a complete set goes to OPEN iff a reference rate meets its threshold, else to CLOSED |
| `BreakerReactions.ProbeCompletion` | src/resilience4py/circuitbreaker/states.py:192-224 | a completion in HALF_OPEN adds one outcome and either keeps the state or delivers the verdict |
| `BreakerReactions.ClosedCompletion` | src/resilience4py/circuitbreaker/states.py:85-117 | a completion in CLOSED opens iff it is checked and the pruned window is large enough and unhealthy |
| `BreakerReactions.TripAnnounced` | src/resilience4py/circuitbreaker/states.py:108-117 | opening publishes the transition, then the exceeded rate (failure first), then the call's own outcome |
| `BreakerReactions.CompletionAnnounced` | src/resilience4py/circuitbreaker/circuit_breaker.py:214-238 | a completion publishes, in order, that the exception is ignored, the replacement of the state object, and the outcome unless the state refuses |
| `BreakerReactions.RefusedCompletion` | src/resilience4py/circuitbreaker/states.py:147-153 | late completions in OPEN or FORCED_OPEN change neither state nor window and yield the RuntimeError of on_error |
| `BreakerReactions.AcceptedCompletion` | src/resilience4py/circuitbreaker/circuit_breaker.py:214-238 | otherwise the caller gets the function's own result and the last event announces it |
| `BreakerRuns.LedgerAdmit` | src/resilience4py/circuitbreaker/circuit_breaker.py:192-198 | admission keeps the ledger: admitted = in flight + ended + cancelled, per state object |
| `BreakerRuns.LedgerLeave` | src/resilience4py/circuitbreaker/circuit_breaker.py:201-238 | the end or cancellation of a call keeps the ledger |
| `BreakerInvariant.InvStep` | src/resilience4py/circuitbreaker/circuit_breaker.py:177-278 | every action of every interleaving keeps ledger, half-open and window invariants |
| `BreakerInvariant.ReachableInv` | src/resilience4py/circuitbreaker/circuit_breaker.py:177-278 | hence they hold in every reachable state |
| `HalfOpenTheorems.PermitLedger` | src/resilience4py/circuitbreaker/states.py:174-190 | in every run used permits = own probes in flight + own completions + own cancellations, recorded < permitted, and exhausted permits without cancellations imply an own probe in flight |
| `HalfOpenTheorems.Verdict` | src/resilience4py/circuitbreaker/states.py:192-224 | in every run each completion adds exactly one outcome; the state is left with the last one, to CLOSED iff both rates are below threshold |
| `HalfOpenTheorems.OnlyAVerdictCloses` | src/resilience4py/circuitbreaker/states.py:206-224 | no other automatic step leads from HALF_OPEN to CLOSED |
| `Wedge.StarvedForever` | src/resilience4py/circuitbreaker/states.py:174-190 | a starved HALF_OPEN state rejects every call in every continuation without reset or manual transition |
| `Wedge.WedgedIffStarved` | src/resilience4py/circuitbreaker/states.py:174-224 | a reachable HALF_OPEN state is stuck iff permits are exhausted, there is no time limit, and fewer calls are in flight than outcomes missing |
| `Wedge.CancelledProbesWedge` | src/resilience4py/circuitbreaker/circuit_breaker.py:202-223 | without a time limit, cancelling as many probes as permitted reaches such a state: cancellation bypasses `except Exception`, so the permit is lost |
| `WedgeReachability.StarvationNeedsCancellation` | src/resilience4py/circuitbreaker/states.py:174-190 | a reachable starved state has lost at least as many own probes to cancellation as outcomes can no longer come |
| `WedgeReachability.CanWedgeIff` | src/resilience4py/circuitbreaker/states.py:174-190 | a valid configuration can get stuck in HALF_OPEN for good without manual calls iff there is no time limit, the automatic transition is on, and it can open |
| `EventLog.StepGrows` | src/resilience4py/circuitbreaker/circuit_breaker.py:240-278 | every action only extends the replayed sequence of states and keeps the log chained |
| `EventLog.LogReplays` | src/resilience4py/circuitbreaker/circuit_breaker.py:247-278 | in every run replaying transitions and resets from CLOSED gives one state per installed object and ends in the current one; without manual calls only the four automatic edges occur |
| `EventLog.PublishedTransition` | src/resilience4py/circuitbreaker/circuit_breaker.py:268-271 | each published transition starts where the log before it ended, ends where the log then stands, and is no self-loop |
| `EventLog.AdmissionCap` | src/resilience4py/circuitbreaker/states.py:186-190 | every state object that ever was HALF_OPEN admitted at most the permitted calls |
| `WindowTheorems.DequeIsWindow` | src/resilience4py/circuitbreaker/metrics.py:80-82 | in every run the deque is the last `size`, or the unexpired, outcomes completed in CLOSED or METRICS_ONLY since the last reset, and reading the metrics counts exactly those |
| `WindowTheorems.FrozenOutsideClosed` | src/resilience4py/circuitbreaker/circuit_breaker.py:252-266 | outside CLOSED and METRICS_ONLY only a reset changes the history and only a reset or reading the metrics changes the deque, so closing after HALF_OPEN keeps the old outcomes |
| `WindowTheorems.TripExact` | src/resilience4py/circuitbreaker/states.py:85-117 | in every run a completion in CLOSED opens iff it is checked and the reference window, this outcome included, has the minimum size and meets a threshold |
| `Evidence.OutcomeTells` | src/resilience4py/circuitbreaker/circuit_breaker.py:214-225 | a stored outcome is a failure iff the call raised an exception that counts, and slow iff it took slow_call_duration in seconds |
| `Evidence.TripOnCalls` | src/resilience4py/circuitbreaker/states.py:85-117 | in every run a completion in CLOSED opens iff it is a success or counts as a failure and, of the last calls as their callers saw them, enough ended and too many failed or took too long |
| `Evidence.VerdictOnCalls` | src/resilience4py/circuitbreaker/states.py:192-224 | in every run the verdict of HALF_OPEN is decided by the calls that ended under it, as their callers saw them |
| `Evidence.IgnoredNeverOpens` | src/resilience4py/circuitbreaker/config.py:119-127 | an exception of an ignored class never opens a CLOSED breaker, is announced as ignored, counts as no failure, and reaches its caller |
| `FailureReachability.CanOpenAtOnceIff` | src/resilience4py/circuitbreaker/states.py:108-111 | with calls that take no time a valid configuration can open iff its window can hold the minimum and it counts some exception as a failure |
| `CoolDown.OpenStep` | src/resilience4py/circuitbreaker/states.py:133-153 | in OPEN a due call becomes the first probe of a new HALF_OPEN state; nothing else changes the state or admits a call |
| `CoolDown.OpenUntilDueCall` | src/resilience4py/circuitbreaker/states.py:133-145 | without reset or manual transition an OPEN state object lives exactly until the first due call and admits nobody before |
| `CoolDown.CoolDownRejects` | src/resilience4py/circuitbreaker/states.py:133-145 | no admission before opened_at + wait duration, and none ever without the automatic transition |
| `Transparency.ReplyExact` | src/resilience4py/circuitbreaker/circuit_breaker.py:201-238 | in every interleaving the caller gets its own result, except in OPEN or FORCED_OPEN, where it gets a RuntimeError and nothing is recorded |
| `Transparency.SerialIsAccepted` | src/resilience4py/circuitbreaker/states.py:147-153 | in serial runs without manual transitions the refusing handlers are unreachable |
| `Transparency.SerialIsTransparent` | src/resilience4py/circuitbreaker/circuit_breaker.py:201-238 | so every serial caller gets exactly its function's result or exception |
| `TripReachability.NeverOpens` | src/resilience4py/circuitbreaker/config.py:80-88 | a count-based window smaller than minimum_number_of_calls never leaves CLOSED and rejects no call in any run without manual transitions |
| `TripReachability.CanOpenIff` | src/resilience4py/circuitbreaker/config.py:64-108 | a valid configuration can reach OPEN without manual help iff it is not such a one |
| `TripReachability.CanLoseResultIff` | src/resilience4py/circuitbreaker/circuit_breaker.py:201-238 | and iff so, some run without manual transitions has a call in flight whose result would be replaced by the RuntimeError |
| `TripReachability.ForcedOpenLosesResult` | src/resilience4py/circuitbreaker/states.py:264-270 | in any configuration a call in flight loses its result to a manual FORCED_OPEN |
| `Recovery.RecoveredWindow` | src/resilience4py/circuitbreaker/circuit_breaker.py:252-266 | whenever the breaker trips from CLOSED and returns there by itself, the window in force is what is left of the tripping one: the same unfit window if count-based, its unexpired part if time-based |
| `Recovery.NextBadCallReopens` | src/resilience4py/circuitbreaker/states.py:85-117 | with such a count-based window the next checked completion of a kind whose rate meets its threshold opens the breaker at once |
| `Recovery.CanRecoverIff` | src/resilience4py/circuitbreaker/states.py:133-145 | a valid configuration can trip and recover without manual help iff it can open and the automatic transition is on |
| `Recovery.ForgottenIff` | src/resilience4py/circuitbreaker/config.py:64-108 | every such recovery starts with an empty window iff a time-based window is shorter than the wait in OPEN; otherwise some recovery starts with a window that is large enough and unfit |
| `ProbationLimit.ProbationStep` | src/resilience4py/circuitbreaker/states.py:174-224 | in HALF_OPEN a call after the time limit opens, the last missing outcome delivers the verdict whatever the time, and nothing else replaces the state object |
| `ProbationLimit.HalfOpenUntilEnded` | src/resilience4py/circuitbreaker/states.py:174-224 | without reset or manual transition a HALF_OPEN state object lives exactly until the first such call or outcome |
| `ProbationLimit.LateVerdictCloses` | src/resilience4py/circuitbreaker/states.py:206-224 | with any time limit a verdict after it can close the breaker |
| `RateLimiter.AtomicRateLimiter.ReservePermission` | src/resilience4py/ratelimiter/atomic_rate_limiter.py:160-208 | refresh, grant, wait or denial as one atomic change of the state |
| `RateLimiter.AtomicRateLimiter.Execute` | src/resilience4py/ratelimiter/atomic_rate_limiter.py:140-158 | denied, or executed at once or after the wait |
| `RateLimiter.AtomicRateLimiter.Reset` | src/resilience4py/ratelimiter/atomic_rate_limiter.py:300-307 | back to the initial state, with active cycle 0 |
| `RateLimiterRuns.RunCoupled` | src/resilience4py/ratelimiter/atomic_rate_limiter.py:176-195 | in every run permissions left + grants of the active cycle since the last reset = limit, and no cycle has more |
| `RateLimiterRuns.ReserveExact` | src/resilience4py/ratelimiter/atomic_rate_limiter.py:176-208 | after every run with resets a reservation is granted iff fewer than limit grants were made in the current cycle since the last reset; else it waits for, or is denied with, the time to the next cycle |
| `RateLimiterRuns.ExecuteExact` | src/resilience4py/ratelimiter/atomic_rate_limiter.py:140-158 | after every run a call starts at once if fewer than limit grants were made in the cycle, else with the next cycle, or is denied with the time to it if that exceeds the timeout |
| `RateLimiterRuns.FreshGrantsIff` | src/resilience4py/ratelimiter/atomic_rate_limiter.py:178-182 | a fresh limiter grants its first reservation iff the clock reading is not negative |
| `RateLimiterRuns.EarlierReading` | src/resilience4py/ratelimiter/atomic_rate_limiter.py:172-182 | a clock reading from an earlier cycle leaves limit permissions too few for every cycle it misses, and grants nothing |
| `RateLimiter.ValidIffNoComplaint` | src/resilience4py/ratelimiter/config.py:26-40 | the configurations the theorems cover are exactly those validate accepts |
| `RateLimiterRuns.SlidingBound` | src/resilience4py/ratelimiter/atomic_rate_limiter.py:172-208 | grants in a closed interval of length T are at most limit * (ceil(T / cycle) + 1), and with timeout 0 so are executions |
| `RateLimiterRuns.ZeroTimeoutExecutesGrants` | src/resilience4py/ratelimiter/atomic_rate_limiter.py:140-158 | with timeout 0 executions and immediate grants coincide |
| `RateLimiterRuns.LimitBoundsExecutionsIff` | src/resilience4py/ratelimiter/atomic_rate_limiter.py:197-208 | the limit bounds the executions per cycle in all runs iff the timeout is 0; iff it is not, any number of executions can fall into one cycle, for every pattern of oversleeping within a bound |
| `SemaphoreBulkheads.SemaphoreBulkhead.AcquirePermission` | src/resilience4py/bulkhead/semaphore_bulkhead.py:71-84 | zero wait: refused iff max permits are held, and semaphore and counter stay equal |
| `SemaphoreBulkheads.SemaphoreBulkhead.AwaitSemaphore` | src/resilience4py/bulkhead/semaphore_bulkhead.py:65-70 | timed wait: granted or timed out; a grant leaves the counter one behind until CountAcquired |
| `SemaphoreBulkheads.SemaphoreBulkhead.CountAcquired` | src/resilience4py/bulkhead/semaphore_bulkhead.py:79-81 | the granted permit is subtracted from the counter |
| `SemaphoreBulkheads.SemaphoreBulkhead.ReleasePermission` | src/resilience4py/bulkhead/semaphore_bulkhead.py:89-96 | gives the permit back to both counters |
| `SemaphoreBulkheads.StepConserves` | src/resilience4py/bulkhead/semaphore_bulkhead.py:54-96 | every line of every task, timeouts and cancellations included, keeps semaphore = max - (acquired uncounted + held) and counter = max - (held + released uncounted), and no more workers busy than there are |
| `SemaphoreBulkheads.StepChanges` | src/resilience4py/bulkhead/semaphore_bulkhead.py:128-156 | exactly which steps take and give back permits, start and end functions, and occupy and free workers |
| `SemaphoreBulkheads.CallLife` | src/resilience4py/bulkhead/semaphore_bulkhead.py:140-155 | the places of an admitted call, in the loop or on a worker, up to giving the semaphore back |
| `SemaphoreBulkheads.TimedArrival` | src/resilience4py/bulkhead/semaphore_bulkhead.py:65-70 | a timed call is not refused by the counter: it takes the semaphore as soon as that is free, or gives up without a trace |
| `SemaphoreBulkheads.NeverMoreThanMax` | src/resilience4py/bulkhead/semaphore_bulkhead.py:128-156 | in every line-level interleaving at most max permits are held, so at most max functions run besides those whose call was cancelled on a worker thread, and those are never more than workers; both counters are back at max when idle |
| `SemaphoreBulkheads.CancellationExceedsMaxIff` | src/resilience4py/bulkhead/semaphore_bulkhead.py:144-155 | the bound is exact: max + n functions can run at once, n of them after cancellation, iff the default executor has n workers |
| `SemaphoreBulkheads.BlockedOnlyMidAcquire` | src/resilience4py/bulkhead/semaphore_bulkhead.py:74-81 | a task stuck on the semaphore with the counter lock held implies another between its two acquisition steps |
| `SemaphoreBulkheads.LineLevelDeadlock` | src/resilience4py/bulkhead/semaphore_bulkhead.py:74-81 | for every size line granularity allows a deadlock of that kind; one event loop never schedules it (AtomicAcquire) |
| `SemaphoreBulkheads.AtomicAcquire` | src/resilience4py/bulkhead/semaphore_bulkhead.py:71-78 | at suspension-point granularity acquisition never blocks and is refused iff exactly max permits are held |
| `SemaphoreBulkheads.AtomicAcquireSettles` | src/resilience4py/bulkhead/semaphore_bulkhead.py:77-84 | and otherwise its lines can all be executed and end with both counters equal again |
| `SemaphoreBulkheads.AtomicRelease` | src/resilience4py/bulkhead/semaphore_bulkhead.py:89-95 | so does release, after a return, a raise or a cancellation |
| `ThreadPoolBulkheads.ThreadPoolBulkhead.AcquirePermission` | src/resilience4py/bulkhead/threadpool_bulkhead.py:73-91 | refused iff all threads + queue permits are held |
| `ThreadPoolBulkheads.ThreadPoolBulkhead.ReleasePermission` | src/resilience4py/bulkhead/threadpool_bulkhead.py:93-97 | gives the permit back to both counters |
| `ThreadPoolBulkheads.StepConserves` | src/resilience4py/bulkhead/threadpool_bulkhead.py:82-97 | every line of every submission, cancellations and the executor's own steps included, keeps the permit equations and at most `threads` workers busy |
| `ThreadPoolBulkheads.StepChanges` | src/resilience4py/bulkhead/threadpool_bulkhead.py:141-158 | exactly which steps take and give back permits, occupy and free workers, and lengthen and shorten the queue |
| `ThreadPoolBulkheads.CallLife` | src/resilience4py/bulkhead/threadpool_bulkhead.py:139-192 | the places of an admitted call, in the loop or through queue and worker, up to its release |
| `ThreadPoolBulkheads.Capacity` | src/resilience4py/bulkhead/threadpool_bulkhead.py:53-59 | in every line-level interleaving at most threads + queue permits are held despite the gap; the executor queue exceeds the queue capacity at most by the idle workers and by what cancelled submissions left in the executor, and holds a dead item only while fewer calls than permits run on threads |
| `ThreadPoolBulkheads.QueueMoves` | src/resilience4py/bulkhead/threadpool_bulkhead.py:148-152 | an idle worker can always take the first item off the queue |
| `ThreadPoolBulkheads.CancellationExceedsQueueIff` | src/resilience4py/bulkhead/threadpool_bulkhead.py:148-158 | with all workers busy, o of them with orphans, and d dead items in the first-in-first-out queue, its length can exceed the capacity by o + d iff o <= threads and a dead item has an orphan or queue capacity beside it |
| `ThreadPoolBulkheads.AtomicAcquire` | src/resilience4py/bulkhead/threadpool_bulkhead.py:82-91 | at suspension-point granularity acquisition is refused iff all permits are held, and otherwise never blocks |
| `ThreadPoolBulkheads.AtomicAcquireSettles` | src/resilience4py/bulkhead/threadpool_bulkhead.py:86-91 | and it ends with both counters equal again |
| `ThreadPoolBulkheads.AtomicRelease` | src/resilience4py/bulkhead/threadpool_bulkhead.py:156-158 | so does release |
| `Retries.Retry.ExecuteSync` | src/resilience4py/retry/retry.py:162-208 | calls, sleeps and end follow the first decisive attempt, or the first negative wait; the code after the loop is unreachable |
| `Retries.Retry.ExecuteWithRetry` | src/resilience4py/retry/retry.py:242-310 | calls, sleeps and end follow the first decisive attempt; on_retry for each earlier one, then one terminal event; the code after the loop is unreachable |
| `Retries.LoopsAgreeIff` | src/resilience4py/retry/retry.py:162-310 | the two loops agree on calls, sleeps and end iff no wait before the decisive attempt is negative |
| `Retries.AlwaysAgreeIff` | src/resilience4py/retry/retry.py:162-310 | they agree on every script iff the configuration has no negative wait between attempts, or retries nothing |
| `Retries.DecisiveUnique` | src/resilience4py/retry/retry.py:245-306 | every script has exactly one decisive attempt |
| `Retries.ValidIffNoComplaint` | src/resilience4py/retry/config.py:56-76 | the configurations the theorems cover are exactly those validate accepts |
| `Retries.RetriedExactly` | src/resilience4py/retry/config.py:78-104 | an exception is retried iff it is of no abort class, of some retry class if there is a list, and the predicate says so |
| `Retries.HopelessEndsCall` | src/resilience4py/retry/retry.py:182-187 | in both loops an exception the lists rule out ends the call at that attempt and leaves it unchanged |
| `Retries.PredicateDecides` | src/resilience4py/retry/retry.py:186-194 | before the last attempt any other exception is followed by one more iff the predicate wants it, in the synchronous loop only after a wait that is not negative |
| `Retries.LastExceptionExact` | src/resilience4py/retry/retry.py:274-278 | the success event carries the exception of the latest attempt that raised one, or none if none did |
| `Retries.TerminalEventTellsEnd` | src/resilience4py/retry/retry.py:265-306 | the terminal event determines whether a value, the original exception or MaxRetriesExceeded leaves the call |
| `Backoff.ExponentialTotal` | src/resilience4py/retry/interval_functions.py:113-125 | uncapped exponential waits satisfy total * (m - 1) = initial * (m^n - 1) |
| `Backoff.FibonacciTotal` | src/resilience4py/retry/interval_functions.py:328-343 | uncapped Fibonacci waits total initial * (F(n+2) - 1) |
| `Backoff.FixedTotal` | src/resilience4py/retry/interval_functions.py:56-66 | fixed waits total n times the interval |
| `Backoff.LinearTotal` | src/resilience4py/retry/interval_functions.py:163-181 | uncapped linear waits with an increment that is not negative total n * initial + increment * n * (n - 1) / 2 |
| `Backoff.WaitRecurrence` | src/resilience4py/retry/interval_functions.py:113-343 | without a cap a fixed wait never changes, the exponential is multiplied, the linear incremented but not below 0, and each Fibonacci wait is the sum of the two before |
| `Backoff.CappedWait` | src/resilience4py/retry/interval_functions.py:122-125 | below its cap the wait is that of the same interval without one, and it is the cap iff that reaches it |
| `Backoff.ValidIffNoComplaint` | src/resilience4py/retry/interval_functions.py:44-306 | the intervals the theorems cover are exactly those whose constructor accepts its parameters |
| `Backoff.WaitsGrowToCap` | src/resilience4py/retry/interval_functions.py:122-125 | with growing intervals waits never decrease over any number of attempts, never exceed the cap and stay at it |
| `Backoff.GrowsIff` | src/resilience4py/retry/interval_functions.py:113-343 | without a cap the waits never decrease iff the multiplier is at least 1 or the increment is not negative |
| `Backoff.WaitNonNegative` | src/resilience4py/retry/interval_functions.py:27-343 | no deterministic interval whose parameters its constructor accepts yields a negative wait, whether it grows or not |
| `Backoff.SyncMeetsAsync` | src/resilience4py/retry/retry.py:162-208 | with such an interval or the plain wait_duration the synchronous loop meets the specification of the asynchronous one |
| `Backoff.CapBoundsTotal` | src/resilience4py/retry/interval_functions.py:340-343 | a cap bounds the total of n waits by n times the cap |
| `Backoff.ExponentialRun` | src/resilience4py/retry/retry.py:162-306 | a run of either loop with n calls sleeps initial * (m^(n-1) - 1) / (m - 1) in total |
| `Backoff.FibonacciRun` | src/resilience4py/retry/retry.py:162-306 | a run of either loop with n calls sleeps initial * (F(n+1) - 1) in total |
| `Backoff.CappedRun` | src/resilience4py/retry/retry.py:162-306 | a run of either loop with n calls sleeps at most (n - 1) * max_interval |
| `Backoff.FibonacciBackoff.Number` | src/resilience4py/retry/interval_functions.py:311-326 | the memo holds exactly 1..m with correct values; a query for n > m inserts n - m entries in 2(n - m) + 1 invocations |
| `Backoff.FibonacciBackoff.WaitFor` | src/resilience4py/retry/interval_functions.py:328-343 | the smaller of max_interval and initial interval times the Fibonacci number of max(1, attempt) |

## Left out

- SemaphoreBulkheads.SemaphoreBulkhead.AwaitSemaphore: the race inside `wait_for` between a grant and the timeout, and a cancellation that arrives between a grant and the protected function or while a permit is given back, are not modelled.
- ThreadPoolBulkheads.StepConserves: cancellation during acquisition or release is not modelled.
- SemaphoreBulkheads.CancellationExceedsMaxIff: the default executor is taken to serve this bulkhead alone, and the order of its queue is not modelled; other users only take workers away.
- Listeners that suspend, raise or re-enter the breaker, and listener registration: the event log stands for them.
- Running synchronous functions from asynchronous code and the reverse (`_decorate_sync`, executors, new event loops), and one object shared by several event loops or threads.
- Fairness of locks and semaphores, and the order in which waiters wake up.
- Rounding of rates, of durations in float seconds, and of the timedelta to nanosecond conversion; a cycle length of at least one nanosecond is a precondition.
- Clock readings below zero for the rate limiter in whole runs: `FreshGrantsIff` says what a negative first reading does.
- Exceptions outside the class Exception in the retry loops; for the breaker they are the cancellations.
- Exceptions raised by predicates, by interval functions or by `retry_on_result`.
- Reporting dictionaries, BulkheadMetrics, event dataclasses, registries and naming are omitted.
- RandomInterval and ExponentialRandomBackoff: their waits are drawn at random.
- src/resilience4py/core and the Flask examples.
