# Verified model of the evaluation engine

This project models the parts of the RAG evaluation engine whose correctness depends on more than one function, and
proves what they promise.

**Crash recovery of one case** (`Lifecycle`, `Recovery`, `RetryPolicy`, `CaseProtocol`, `ProtocolInvariants`,
`ProtocolTheorems`, `ProtocolExactness`, `ProtocolDurability`, `ProtocolSteps`, `CaseWorker`). A case is driven by short
transactions: persist the attempt, call the target, persist the raw response, persist the observation. `Lifecycle` gives
the durable rows and one function per transaction, `Recovery` the decision a restarted worker takes, and `CaseProtocol`
a step machine whose states are the durable rows plus the live worker's program counter, and whose events include the
passing of time, the target's answers and a crash at any point. An invariant of every reachable state is proved step by
step, and the promises are proved over all runs with any number of crashes and restarts. `ProtocolSteps` says what each
decision, restart, retry and call comes to, in terms of the rows alone. `CaseWorker` is the worker as it is written,
with rows updated in place, the retry loop and its calls on the circuit breaker; every method is proved to perform a run
of the step machine that answers as the world does and breaks off only where the world makes it, so the theorems hold of
it. Where a promise depends on the configuration, the exact condition is proved: the proof of the failing half builds
the run that breaks it.

**The shared circuit breaker** (`CircuitBreaker`): lock bodies as methods, and any interleaving of requests, recorded
outcomes, waiters and wake-ups as a history. No lock body awaits, so what a waiter does before its sleep is one step and
its wake-up another. The worker's calls extend such a history, so the theorems about histories hold of the breaker it
drives.

**The worker pool and the run** (`WorkerPool`, `EngineRun`): a FIFO queue with sentinels under every interleaving, the
benchmark executor's own way through one case, and the run status it derives.

**Metric loops** (`Spans`, `SpansReversed`, `Evidence`, `Tokens`, `Percentile`) against mathematical specifications: a
set of covered positions, a best match, a multiset intersection, an interpolated order statistic.

**Configuration and formats** (`DeepMerge`, `Matrix`, `MatrixPayload`, `MatrixExpansion`, `MatrixSharing`, `Bundle`):
layered merging and matrix expansion described by paths, the same expansion over nested dictionaries that are written in
place and shared, and the checksummed bundle's writer and reader. `Wrappers`, `Sorting` and `Strings` hold what several
of them share.

`dafny verify dfyconfig.toml` checks everything.

## Where the code and its descriptions differ

- The worker replays an attempt under the predecessor's request id, while the attempts table declares request ids unique
  (`migrations/versions/20260914_0001_initial_persistence.py:30`). Both are modelled, by the flag `uniqueRequestIds`.
  With unique ids a replay is always rolled back, so the case keeps its uncertain attempt (`UniqueIdsBlockReplay`);
  `CanReplay` is idempotency without unique ids.
- "Once expensive target output has been durably captured, downstream failures must not require regenerating it" holds
  of every stored response exactly when the worker cannot replay, or stored responses parse again and none comes from
  request recovery (`CapturedDurableExactly`). A response obtained by request recovery is stored but attached to
  nothing, so a crash before the next commit makes a replaying worker call again (`CallAfterRecovered`). For responses
  attached to an attempt it is enough that they parse again (`DurableExactly`).
- "Limited probes" in HALF_OPEN: the code admits every request there.
- A waiter that wakes up does not look at the clock again, so it can end a newer opening early (`EarlyExitExactly`,
  `EarlyExitHappens`).
- The maximum delay is no cap for the exponential strategy, whose jitter is added after capping
  (`MaximumExceededExactly`). A Retry-After value, for errors flagged retryable, replaces the computed delay even when
  it is shorter; which configurations and attempts that can happen in, and in which it must, is
  `RetryAfterReplacesBackoff`.
- max_attempts bounds the attempts of a case over all restarts exactly when the worker cannot replay
  (`RetryBudgetExactly`).
- The benchmark executor does not honour MARK_UNKNOWN: it resets the case and calls the target again (`CallsTarget`,
  `DecisionExactly`, `ExecuteCase`). It also drops the artifact row of a recovered response, because that session is
  never committed, so the observation of such a COMPLETE case points at no stored artifact (`ExecuteCase`).
- A bundle member name with a NUL is accepted by the writer, but the ZIP container cuts it there, so the reader rejects
  the bundle; so it does when a name contains a line break (`RoundTripExactly`).
- Merging three layers is associative under a weaker condition than "no mapping is replaced by a non-mapping in the
  middle": it is enough that the third layer decides everything the first one has there (`AssociativeByPaths`).
- The union length counts covered positions only when every span that ends before it starts begins inside, or at the end
  of, a span sorted before it (`UnionLengthOfInput`). Answer spans are validated, so such spans do not arrive there.

## Model

| member | source | states |
|---|---|---|
| `RetryPolicy.RetryIgnoresJitter` | src/rag_eval/execution/retry.py:47-121 | the verdict never depends on the random draw, and a refusal never sleeps |
| `RetryPolicy.RetriedExactly` | src/rag_eval/execution/retry.py:47-138 | below the maximum a failure is retried exactly when it is flagged, when it carries a listed status, or when it carries none and its category is configured or NETWORK, CONNECTION, TIMEOUT, RATE_LIMIT or RESOURCE_EXHAUSTED |
| `RetryPolicy.AlwaysRetriedExactly` | src/rag_eval/execution/retry.py:122-138 | an unflagged failure without a status is retried under every configuration exactly when its category is one of those five |
| `RetryPolicy.WaitExactly` | src/rag_eval/execution/retry.py:72-116 | a retried failure waits for the backoff of its own attempt number, and for its Retry-After only when it is flagged |
| `RetryPolicy.BackoffExactly` | src/rag_eval/execution/retry.py:157-176 | at the middle of the draw the first backoff is the initial delay; an exponential one then doubles up to the maximum, a linear one grows by the initial delay up to it, any other stays |
| `RetryPolicy.DelayExactly` | src/rag_eval/execution/retry.py:140-176 | the draw moves an exponential backoff by up to a quarter, in proportion, and no other; a positive Retry-After, in milliseconds, replaces it, capped |
| `RetryPolicy.DelayBound` | src/rag_eval/execution/retry.py:140-176 | every backoff lies in [0, 1.25 * maximum], and the maximum caps Retry-After and the strategies without jitter |
| `RetryPolicy.MaximumExceededExactly` | src/rag_eval/execution/retry.py:150-176 | some draw lifts the delay above the maximum exactly for an exponential delay, not taken from Retry-After, whose capped value is above four fifths of the maximum |
| `RetryPolicy.RetryAfterReplacesBackoff` | src/rag_eval/execution/retry.py:62-121 | Retry-After counts exactly for errors flagged retryable and then replaces the computed backoff; some draw makes that shorter exactly when the capped Retry-After is below the longest backoff the strategy can draw for that attempt, and every draw does exactly when it is below the shortest |
| `ProtocolInvariants.InitInv` | src/rag_eval/execution/worker.py:148-190 | a registered case without attempts satisfies the invariant |
| `ProtocolInvariants.DecideOk` | src/rag_eval/execution/recovery.py:129-321 | in every invariant state the recovery decision comes with what its branch needs: an observation of the latest attempt, an attached response, or an uncertain attempt, and the fallback matches the target's idempotency |
| `ProtocolSteps.DecisionTable` | src/rag_eval/execution/recovery.py:129-321 | each of the seven actions, exactly, in terms of the rows and the clock: a result in the rows goes before everything but COMPLETE, a RUNNING case is skipped exactly until its attempt has been silent for longer than the threshold, and the decision carries the result or fallback it names |
| `ProtocolSteps.LiveAttemptIsLeftAlone` | src/rag_eval/execution/recovery.py:231-239 | until the threshold has passed since its row was last written, no number of restarts changes a row of, or calls the target for, a case whose call may still be live |
| `ProtocolSteps.SilentAttemptIsTakenUp` | src/rag_eval/execution/recovery.py:244-300 | once it has passed, the next restart asks the target, replays, or marks the case UNKNOWN, as the capabilities say |
| `ProtocolSteps.WrittenRowsAreStamped` | src/rag_eval/execution/recovery.py:578-596 | every row a step writes carries the time of the step, which is what staleness is measured from, and so do the times of the case |
| `ProtocolInvariants.StepKeepsInv` | src/rag_eval/execution/worker.py:296-1001 | every step, a crash included, keeps row shapes, status coupling, artifact provenance, identity chains, call records and the retry budget, and rewrites no frozen history |
| `ProtocolInvariants.RunKeepsInv` | src/rag_eval/execution/worker.py:148-1001 | the invariant holds after every run |
| `ProtocolTheorems.RunExtends` | src/rag_eval/execution/worker.py:720-987 | over any run attempts and artifacts are append-only, attempts that are not the latest and failures are frozen, and the latest keeps its identity and its attached results |
| `ProtocolTheorems.LifecycleCoupling` | src/rag_eval/execution/worker.py:720-1001 | at every commit point attempts are numbered 1..n and the case status says exactly what the latest attempt recorded |
| `ProtocolTheorems.FinishedIsAbsorbing` | src/rag_eval/execution/recovery.py:150-300 | TARGET_COMPLETE and FAILED are never left and never followed by another target call |
| `ProtocolTheorems.CommittedResponseIsFinal` | src/rag_eval/execution/worker.py:693-716 | after a raw response is committed no continuation calls the target again, that attempt stays the latest and its response pointer never moves |
| `ProtocolTheorems.FinishAfterRaw` | src/rag_eval/execution/recovery.py:163-200 | when stored responses parse again, any worker run that finishes after the commit leaves TARGET_COMPLETE with the observation of that very response |
| `ProtocolTheorems.ResumeCompletes` | src/rag_eval/execution/recovery.py:163-200 | a restart reaches that with its decision and one commit |
| `ProtocolSteps.AnswerIsObserved` | src/rag_eval/execution/worker.py:693-718 | a call's answer is stored, attached to its attempt and observed as it was given, and no other row is written |
| `ProtocolSteps.FailureIsRecorded` | src/rag_eval/execution/worker.py:518-560 | a call's error is recorded as reported, with the policy's verdict, and the case waits for the retry or has failed |
| `ProtocolSteps.RecoveredIsObserved` | src/rag_eval/execution/worker.py:384-400 | a recovered response is stored, marked as recovered, and observed as it was given, but attached to no attempt |
| `ProtocolSteps.RecordedObservationStays` | src/rag_eval/execution/worker.py:868-906 | recording a recovered or reparsed result fills an empty observation, keeps one that is there, and touches no other attempt |
| `ProtocolTheorems.EarlierAttemptsFailed` | src/rag_eval/execution/worker.py:402-446 | where replay is impossible, every attempt but the latest is a committed retryable failure, in every state of every run |
| `ProtocolTheorems.OneCallPerAttempt` | src/rag_eval/execution/worker.py:592-718 | no attempt calls the target twice, over any number of restarts |
| `ProtocolTheorems.UnknownIsSilent` | src/rag_eval/execution/recovery.py:244-300 | without replay an UNKNOWN case is never called again and can only complete |
| `ProtocolTheorems.UnknownStays` | src/rag_eval/execution/recovery.py:244-300 | without replay, request recovery or an attached response, UNKNOWN is for ever |
| `ProtocolTheorems.RetryBudget` | src/rag_eval/execution/worker.py:502-578 | attempts never exceed max_attempts plus the interrupted ones over any number of restarts, and never max_attempts where replay is impossible |
| `ProtocolExactness.RetryBudgetExactly` | src/rag_eval/execution/worker.py:502-578 | over all runs attempts stay within max_attempts exactly when the worker cannot replay |
| `ProtocolTheorems.ReplayKeepsIdentity` | src/rag_eval/execution/worker.py:617-658 | a replay or in-loop retry carries its predecessor's request id, key and hash; any other attempt heads a new chain with an unused request id |
| `ProtocolSteps.RestartBeginsFresh` | src/rag_eval/execution/worker.py:430-436 | a restart over a PENDING or RETRY_PENDING case reaches an attempt under a new request id and its own key, whatever the target's idempotency |
| `ProtocolSteps.RetryAfterBackoff` | src/rag_eval/execution/worker.py:556-566 | a retry within the loop begins an attempt under its own identity without idempotency; with it, under that of the failed attempt, exactly while the payload is unchanged and request ids may recur |
| `ProtocolTheorems.UniqueIdsBlockReplay` | src/rag_eval/db/test_models.py:538-542 | with unique request ids every replay insert fails and leaves the rows as they were |
| `ProtocolTheorems.SharedIdentitySharesPayload` | src/rag_eval/execution/requests.py:34-86 | under an injective hash, calls that share an idempotency key or a request id carry the same payload |
| `ProtocolTheorems.HashCheckNeverBlocksUnchangedCase` | src/rag_eval/execution/requests.py:69-86 | a case whose payload never changes is never refused by the canonical-hash check, because the hash is taken before the request id is filled in |
| `ProtocolTheorems.ReplayRefusedExactly` | src/rag_eval/execution/worker.py:617-658 | a replay is refused exactly when the payload hash differs from the one on the attempt it replays |
| `ProtocolExactness.SecondUncertainCall` | src/rag_eval/execution/recovery.py:244-300 | a replaying worker has a run that starts a second call while the first attempt has no recorded outcome |
| `ProtocolExactness.AtMostOneUncertainCallExactly` | src/rag_eval/execution/worker.py:402-446 | every call starts after committed failures only, exactly when the worker cannot replay |
| `ProtocolExactness.CallAfterRaw` | src/rag_eval/execution/recovery.py:384-447 | when stored responses may fail to parse, a replaying worker has a run that calls again after a committed response |
| `ProtocolExactness.DurableExactly` | src/rag_eval/execution/worker.py:693-716 | over all crashing runs no call follows a response attached to an attempt, exactly when stored responses parse again or the worker cannot replay |
| `ProtocolDurability.CapturedRun` | src/rag_eval/execution/worker.py:31-34 | where that is safe, a stored response, attached or not, leaves the worker unable to begin a call in every continuation |
| `ProtocolDurability.CallAfterRecovered` | src/rag_eval/execution/recovery.py:449-480 | a replaying worker has a run that calls again although the recovered answer to the same request is stored |
| `ProtocolDurability.CapturedDurableExactly` | src/rag_eval/execution/worker.py:31-34 | over all crashing runs no call follows any stored response, exactly when the worker cannot replay, or stored responses parse again and none comes from request recovery |
| `ProtocolExactness.LeaveUnknownExactly` | src/rag_eval/execution/recovery.py:244-300 | an UNKNOWN case can move on exactly with request recovery, an attached response, or replay |
| `CaseWorker.CaseStore.PersistAttemptBeforeCall` | src/rag_eval/execution/worker.py:720-778 | the attempt, its raw request and the RUNNING status commit together, or nothing changes on a clash |
| `CaseWorker.CaseStore.PersistRaw` | src/rag_eval/execution/worker.py:780-831 | the response artifact and the attempt's pointer to it commit together |
| `CaseWorker.CaseStore.PersistCompleted` | src/rag_eval/execution/worker.py:833-866 | the observation, the attempt status and TARGET_COMPLETE commit together |
| `CaseWorker.CaseStore.PersistRecovered` | src/rag_eval/execution/worker.py:868-906 | the same, keeping an observation that is already there |
| `CaseWorker.CaseStore.Repair` | src/rag_eval/execution/worker.py:908-934 | reusing an observation repairs the attempt and case status and nothing else |
| `CaseWorker.CaseStore.PersistFailed` | src/rag_eval/execution/worker.py:936-987 | the failed attempt, its verdict and RETRY_PENDING or FAILED commit together |
| `CaseWorker.ResilientCaseWorker.Execute` | src/rag_eval/execution/worker.py:148-190 | one execution is a run of the protocol in which the target and recovery answer as the world says, each retry comes when the policy's backoff is over, and which raises only after a recovery that breaks, a call that never returns or a response that cannot be normalized; a finished one reports success exactly when the case is TARGET_COMPLETE |
| `CaseWorker.ResilientCaseWorker.ExecuteWithRecovery` | src/rag_eval/execution/worker.py:296-449 | each of the seven decisions performs the machine's branch to its end, or to where the world breaks it, and the result agrees with where it ends |
| `CaseWorker.ResilientCaseWorker.FinishFromRows` | src/rag_eval/execution/worker.py:310-369 | skipping, reusing, renormalizing and giving up reach the end of their branch without contacting the target |
| `CaseWorker.ResilientCaseWorker.RecoverRequest` | src/rag_eval/execution/worker.py:371-417 | a recovered response is stored and then recorded; it raises only when recovery breaks or its response cannot be normalized, and when nothing is recovered the fallback replays or marks the case UNKNOWN |
| `CaseWorker.BreakerGate.Await` | src/rag_eval/execution/worker.py:580-590 | the breaker is asked once and otherwise slept out, and never left while OPEN; the steps extend a history of the breaker |
| `CaseWorker.ResilientCaseWorker.ExecuteWithRetry` | src/rag_eval/execution/worker.py:493-578 | the retry loop terminates, with max_attempts minus the attempt number decreasing, and is a run of the protocol that breaks off only where the world makes it; each retry sleeps as long as the policy says; the breaker is asked once before every attempt and learns of every adapter error and of the success, and of nothing else |
| `CaseWorker.ResilientCaseWorker.TryOnce` | src/rag_eval/execution/worker.py:505-560 | one turn of the loop: the breaker, the attempt, the report to the breaker, and the commit of a failure before any sleep |
| `CaseWorker.ResilientCaseWorker.CommitFailure` | src/rag_eval/execution/worker.py:518-560 | the failure and its verdict are committed before any sleep, and a retry leaves room below max_attempts |
| `CaseWorker.ResilientCaseWorker.BackOff` | src/rag_eval/execution/worker.py:556-562 | the worker sleeps for the policy's delay, rounded up to the clock's seconds, and reads the latest attempt again |
| `CaseWorker.ResilientCaseWorker.ExecuteAttempt` | src/rag_eval/execution/worker.py:592-718 | request, call, raw response and observation are committed in that order; the attempt escapes only on a refused replay, a failed insert, a call that never returns or a response that cannot be normalized |
| `CaseWorker.ResilientCaseWorker.PersistRequest` | src/rag_eval/execution/worker.py:617-669 | the identity is the machine's choice, and a refused replay or a failed insert begins no attempt |
| `CaseWorker.ResilientCaseWorker.CallTarget` | src/rag_eval/execution/worker.py:671-718 | an adapter error, and nothing else, is handed to the retry policy; a response is stored and attached whether or not it can be normalized |
| `CaseWorker.ResilientCaseWorker.HandleResponse` | src/rag_eval/execution/worker.py:693-718 | the raw response is committed before anything can go wrong with it, and an observation follows exactly when it normalizes |
| `CircuitBreaker.CircuitBreaker.CanExecute` | src/rag_eval/execution/circuit_breaker.py:79-104 | the lock body's new state, and admission exactly when the breaker is not OPEN afterwards |
| `CircuitBreaker.CircuitBreaker.RecordSuccess` | src/rag_eval/execution/circuit_breaker.py:106-115 | the lock body's whole new state |
| `CircuitBreaker.CircuitBreaker.RecordFailure` | src/rag_eval/execution/circuit_breaker.py:117-136 | the lock body's whole new state |
| `CircuitBreaker.CircuitBreaker.BeginWait` | src/rag_eval/execution/circuit_breaker.py:152-178 | a waiter either passes or sleeps until the cooldown of the opening it read is over |
| `CircuitBreaker.CircuitBreaker.EndWait` | src/rag_eval/execution/circuit_breaker.py:178-184 | after the sleep OPEN becomes HALF_OPEN whatever happened meanwhile |
| `CircuitBreaker.OpeningTimes` | src/rag_eval/execution/circuit_breaker.py:138-150 | in every history the opening time exists exactly outside CLOSED and never lies in the future |
| `CircuitBreaker.ClosedCountsFailures` | src/rag_eval/execution/circuit_breaker.py:106-136 | in CLOSED the counter is the run of failures since the last success and stays below the threshold |
| `CircuitBreaker.FailuresRemembered` | src/rag_eval/execution/circuit_breaker.py:106-136 | in every state the failure counter is the number of failures since a success last left the breaker CLOSED |
| `CircuitBreaker.OpensExactly` | src/rag_eval/execution/circuit_breaker.py:117-142 | CLOSED is left exactly by the failure that completes the threshold, and to OPEN |
| `CircuitBreaker.HalfOpenCountsSuccesses` | src/rag_eval/execution/circuit_breaker.py:106-136 | in HALF_OPEN no failure was recorded since it was entered and the counter is the successes since then, below the threshold |
| `CircuitBreaker.SuccessesOnlyInHalfOpen` | src/rag_eval/execution/circuit_breaker.py:79-150 | outside HALF_OPEN the success counter is zero in every history |
| `CircuitBreaker.ClosesExactly` | src/rag_eval/execution/circuit_breaker.py:106-150 | HALF_OPEN closes exactly at the success that completes the threshold and reopens exactly at a failure |
| `CircuitBreaker.OpeningStep` | src/rag_eval/execution/circuit_breaker.py:117-142 | outside CLOSED the opening time is the time of the last step that opened the breaker, a failure |
| `CircuitBreaker.SleeperEntered` | src/rag_eval/execution/circuit_breaker.py:159-177 | a sleeper entered an OPEN breaker at an earlier step, has slept since, and sleeps out the opening it read there |
| `CircuitBreaker.NeverAdmitsWhileOpen` | src/rag_eval/execution/circuit_breaker.py:79-104 | in every history no request or waiter passes while the breaker is OPEN |
| `CircuitBreaker.AdmittedExactly` | src/rag_eval/execution/circuit_breaker.py:79-184 | outside OPEN every request is admitted and changes nothing; in OPEN a request or waiter is admitted exactly from a full cooldown after the last opening step on, a sleeper whenever it wakes, and each takes the breaker to HALF_OPEN |
| `CircuitBreaker.AdmittedDuringCooldown` | src/rag_eval/execution/circuit_breaker.py:79-184 | until a full cooldown after the last opening step, the only attempts admitted are those of sleepers that entered before that step |
| `CircuitBreaker.LeavesOpenAfterCooldown` | src/rag_eval/execution/circuit_breaker.py:86-184 | OPEN is left to HALF_OPEN by a request a full cooldown after the last opening step, or by a waiter a full cooldown after the opening step in force when it entered |
| `CircuitBreaker.EarlyExitExactly` | src/rag_eval/execution/circuit_breaker.py:159-184 | the current cooldown is cut short exactly when a waiter wakes that had read an earlier opening |
| `CircuitBreaker.EarlyExitHappens` | src/rag_eval/execution/circuit_breaker.py:159-184 | a history in which that happens, for all thresholds and every positive cooldown |
| `WorkerPool.StepKeepsInv` | src/rag_eval/execution/engine.py:376-403 | queue order and execution counts are kept by every step of every worker |
| `WorkerPool.NoWorkerBlocks` | src/rag_eval/execution/engine.py:376-403 | a worker that has not finished can always take a step |
| `WorkerPool.EveryInterleaving` | src/rag_eval/execution/engine.py:348-403 | under every interleaving cases start once and in order, no sentinel is taken while a case is queued, and at most min(concurrency, cases) run at once |
| `WorkerPool.EveryScheduleTerminates` | src/rag_eval/execution/engine.py:348-403 | no schedule has more than 2 * cases + workers steps, and it has that many exactly when all workers have finished |
| `WorkerPool.FinishedPool` | src/rag_eval/execution/engine.py:348-403 | at the end the queue is empty, every case was executed exactly as often as it was queued, and the summed failures are the executions that raised |
| `WorkerPool.WorkerPool.TakeItem` | src/rag_eval/execution/engine.py:385-399 | taking an item is the machine's step |
| `WorkerPool.WorkerPool.EndExecution` | src/rag_eval/execution/engine.py:393-403 | an execution that raised is counted, and only then |
| `WorkerPool.RunWorkers` | src/rag_eval/execution/engine.py:348-374 | under an arbitrary scheduler each case is executed as often as it was selected, and the pass has failed exactly when some selected case raised |
| `EngineRun.DecisionExactly` | src/rag_eval/execution/engine.py:430-464 | the decision skips exactly COMPLETE cases and those without a result that are FAILED or RUNNING with an attempt written no longer ago than the threshold, asks the target exactly for a stale uncertain attempt of a recovering target, reuses exactly an available result, and MARK_UNKNOWN is left neither alone nor with a result |
| `EngineRun.FourCommitsSuffice` | src/rag_eval/execution/engine.py:423-488 | no execution makes more than four commits, and a PENDING case is never left alone |
| `EngineRun.EngineCase.ExecuteCase` | src/rag_eval/execution/engine.py:423-488 | from any rows and dying before any commit: the outcome is exactly the one the rows, the surroundings and the commits left determine; a COMPLETE case is untouched, the target is called at most once, only under a fresh attempt and exactly when `CallsTarget` says, UNKNOWN cases included; a completed case observes the stored result, what the target handed out, or the answer to the new attempt, which is stored and attached to it; a failed call is recorded as reported; earlier attempts and artifacts are kept |
| `EngineRun.EngineCase.ExecuteNewAttempt` | src/rag_eval/execution/engine.py:440-464 | every other decision, MARK_UNKNOWN included, calls again exactly when its commits survive and the id is new, dies exactly when commits run out, and completes exactly when the target answers, the answer normalizes and scoring works, observing that answer, stored and attached to the new attempt |
| `EngineRun.EngineCase.HandleResponse` | src/rag_eval/execution/engine.py:743-768 | the answer is stored and attached before it is normalized, and a completed case observes that answer |
| `EngineRun.EngineCase.RegisterAttempt` | src/rag_eval/execution/engine.py:551-640 | the next attempt, under a fresh request id, its own key and the hash of the blank request, is appended with its raw request, or nothing changes |
| `EngineRun.EngineCase.Complete` | src/rag_eval/execution/engine.py:801-859 | observation and COMPLETE commit together, exactly when a commit is left and scoring does not raise |
| `EngineRun.EngineCase.Fail` | src/rag_eval/execution/engine.py:861-912 | the failure path keeps an attached response and observation, records the error on its attempt, and dies exactly when no commit is left |
| `EngineRun.ExecuteRun` | src/rag_eval/execution/engine.py:200-251 | a pass ends with a status exactly when no selected execution runs out of commits; unselected and COMPLETE cases are untouched and every selected case is executed once, as it was when the pass began; the run ends COMPLETE exactly when all cases are, FAILED exactly when there are cases and all failed, with errors exactly when all are finished and both kinds occur, and finished_at is unset exactly while a case is unfinished |
| `EngineRun.ExecuteSelected` | src/rag_eval/execution/engine.py:334-374 | the selected cases are the PENDING ones of a requested subset, or all that are not COMPLETE; in any order each is executed once and has called its target exactly when `CallsTarget` says of it, the others are untouched, and the pass survives exactly when every selected execution does |
| `EngineRun.PassExactly` | src/rag_eval/execution/engine.py:334-346 | case by case: without a requested subset every case that is not COMPLETE is executed, with one exactly its PENDING cases, and no other case is touched |
| `EngineRun.FinishRun` | src/rag_eval/execution/engine.py:914-964 | for arbitrary counts and failure flag: exactly when each run status results |
| `EngineRun.FinishAfterPass` | src/rag_eval/execution/engine.py:914-964 | with one executor the failure flag cannot spoil an all-COMPLETE run |
| `Spans.MergeSorted` | src/rag_eval/metrics/helpers.py:301-311 | the merge loop, on any list; on spans sorted by start it keeps what they cover and leaves gaps |
| `Spans.ComputeSpanUnionLength` | src/rag_eval/metrics/helpers.py:286-314 | for spans with start <= end the result is the number of positions covered by at least one of them |
| `Spans.UnionLengthExactly` | src/rag_eval/metrics/helpers.py:286-314 | for arbitrary spans it never exceeds that number, and equals it exactly when no reversed span survives the merging |
| `SpansReversed.UnionLengthOfInput` | src/rag_eval/metrics/helpers.py:286-314 | in terms of the input: it equals that number exactly when every reversed span has a span placed before it, by start and then by position, that reaches its start |
| `Spans.UnionLaws` | src/rag_eval/metrics/helpers.py:286-314 | hence adding spans never shrinks it, and order and repetition do not matter |
| `Spans.ReversedSpanSubtracts` | src/rag_eval/metrics/helpers.py:313-314 | a single span is counted right exactly when it is not reversed |
| `Spans.CitationResolution` | src/rag_eval/metrics/citations.py:427-445 | the covered fraction of the answer: for proper spans inside it, in [0, 1], and 1 exactly when every position is covered |
| `Evidence.OverlapSharesPosition` | src/rag_eval/metrics/helpers.py:135-157 | two half-open spans overlap exactly when they share a position |
| `Evidence.MatchOne` | src/rag_eval/metrics/helpers.py:192-269 | a gold item gets the first overlapping span, else the last matching page, else the first same document; the two fallbacks in between find nothing |
| `Evidence.BestMatchIsUnique` | src/rag_eval/metrics/helpers.py:172-283 | that specification leaves no choice |
| `Evidence.MoreItemsNeverLessSpecific` | src/rag_eval/metrics/helpers.py:172-283 | retrieving more never makes a match less specific |
| `Evidence.MatchGoldEvidence` | src/rag_eval/metrics/helpers.py:190-283 | one best match per gold item, in gold order |
| `Tokens.CountTokens` | src/rag_eval/metrics/helpers.py:95-107 | the dictionary is the multiset of the tokens |
| `Tokens.TokenOverlap` | src/rag_eval/metrics/helpers.py:110-132 | the size of the multiset intersection, and both lengths |
| `Tokens.OverlapSymmetric` | src/rag_eval/metrics/helpers.py:110-132 | symmetric, and at most the length |
| `Tokens.TokenPrecision` | src/rag_eval/metrics/answer.py:249-322 | unavailable exactly without prediction tokens, in [0, 1], and 1 exactly when the reference has every prediction token |
| `Tokens.TokenRecall` | src/rag_eval/metrics/answer.py:363-436 | the same with the roles exchanged |
| `Tokens.TokenF1` | src/rag_eval/metrics/answer.py:480-544 | in [0, 1], and 1 exactly when the token multisets are equal and not empty |
| `Tokens.F1IsHarmonicMean` | src/rag_eval/metrics/answer.py:523-530 | with positive overlap F1 is the harmonic mean of precision and recall |
| `Percentile.PercentileBounds` | src/rag_eval/metrics/aggregation.py:191-221 | between the smallest and the largest value, which are the results at 0 and 100 |
| `Percentile.PercentileMonotone` | src/rag_eval/metrics/aggregation.py:191-221 | monotone in the percentile |
| `Percentile.PercentileOfPermutation` | src/rag_eval/metrics/aggregation.py:204-221 | independent of the order of the values |
| `Percentile.PercentileAtIndex` | src/rag_eval/metrics/aggregation.py:211-216 | at `100 * i / (n - 1)` percent of n values it is the order statistic at i |
| `Percentile.PercentileBetween` | src/rag_eval/metrics/aggregation.py:204-221 | between two such percentiles it moves on the straight line from one order statistic to the next |
| `Percentile.Median` | src/rag_eval/metrics/aggregation.py:204-221 | at 50 percent it is the middle value, or the mean of the two in the middle |
| `DeepMerge.DeepMerge` | src/rag_eval/config/target_resolver.py:185-208 | the loop over the override's keys, in any order, computes the merge, whose keys are the union at every merged level |
| `DeepMerge.PathsOfMerge` | src/rag_eval/config/target_resolver.py:185-208 | what every path of the merge holds, in terms of what the two layers hold there |
| `DeepMerge.OverrideLeavesWin` | src/rag_eval/config/target_resolver.py:204-206 | every leaf of the override is read back unchanged |
| `DeepMerge.UntouchedPathsStay` | src/rag_eval/config/target_resolver.py:193-195 | every path the override does not touch keeps the base value |
| `DeepMerge.MergeIdempotent` | src/rag_eval/config/target_resolver.py:185-208 | merging the same override twice is merging it once |
| `DeepMerge.SubsumedExactly` | src/rag_eval/config/target_resolver.py:185-208 | exactly when a merge gives the override itself |
| `DeepMerge.AssociativeExactly` | src/rag_eval/config/target_resolver.py:92-110 | exactly when merging three layers from the left and from the right agrees |
| `DeepMerge.AssociativeByPaths` | src/rag_eval/config/target_resolver.py:92-110 | the same condition as a statement about paths |
| `DeepMerge.ResolveProtocol` | src/rag_eval/config/target_resolver.py:92-110 | what every path of the three layers holds; leaves of the overrides win, leaves of the declared protocol survive where the overrides say and replace nothing, and paths neither touches keep the adapter's default |
| `Matrix.SetExactly` | src/rag_eval/config/matrix.py:60-80 | a path can be set exactly when each component but the last leads into a mapping and the last exists or is allowed |
| `Matrix.VerdictExactly` | src/rag_eval/config/matrix.py:60-80 | in terms of what the payload holds: a path can be set exactly when something stands there or it names a new key of target.parameters or target.corpus.parameters, and which of the two errors it raises otherwise |
| `Matrix.SetReadsBack` | src/rag_eval/config/matrix.py:60-75 | the value is read back at its path |
| `Matrix.SetElsewhere` | src/rag_eval/config/matrix.py:60-75 | every path apart from it holds what it held |
| `Matrix.SetCommutes` | src/rag_eval/config/matrix.py:60-75 | assignments to paths that are apart commute |
| `Matrix.SetAllExactly` | src/rag_eval/config/matrix.py:45-48 | a prefix-free combination can be set exactly when every path can be set in the base |
| `Matrix.PayloadReadsBack` | src/rag_eval/config/matrix.py:45-48 | it reads back every chosen value and equals the base elsewhere |
| `Matrix.OrderDoesNotMatter` | src/rag_eval/config/matrix.py:38-48 | any rearrangement of its assignments gives the same verdict and the same payload |
| `MatrixPayload.SetMatrixPath` | src/rag_eval/config/matrix.py:60-75 | walking and writing nested dictionaries in place has exactly the effect of the path assignment; only dictionaries on the way are written, mappings at paths apart from it stay where they are, and an error changes nothing |
| `MatrixPayload.PlacedValuesStay` | src/rag_eval/config/matrix.py:46-48 | no dictionary on that way belongs to a mapping placed at a path apart from it |
| `MatrixPayload.Dict.Put` | src/rag_eval/config/matrix.py:68-72 | one in-place write changes its dictionary at that key alone |
| `MatrixSharing.ApplyInPlace` | src/rag_eval/config/matrix.py:47-48 | the loop over a combination's paths, in place, is the combination's assignment up to the first error; the payload then holds the very dictionaries of the values, and with prefix-free paths none of those is written |
| `MatrixSharing.DeepCopy` | src/rag_eval/config/matrix.py:46 | the copy means what the base means and shares no dictionary with it |
| `MatrixSharing.BuildPayloads` | src/rag_eval/config/matrix.py:45-48 | with prefix-free paths, payloads of all combinations, built over one base and shared values, write nothing that existed before, and each still is its own combination's when all are built; otherwise the error is that of the first combination that raises |
| `MatrixExpansion.ProductAt` | src/rag_eval/config/matrix.py:45 | every choice of one value per dimension stands at its rank in the product, whose size is the product of the sizes |
| `MatrixExpansion.ProductOnto` | src/rag_eval/config/matrix.py:45 | every position of the product is the rank of a choice |
| `MatrixExpansion.RankOrders` | src/rag_eval/config/matrix.py:45 | the order of the product is the lexicographic order of the choices |
| `MatrixExpansion.SortedPaths` | src/rag_eval/config/matrix.py:38 | the matrix's paths, each once, in order |
| `Strings.StringLeExactly` | src/rag_eval/config/matrix.py:38 | that order is the code-point order: a prefix first, otherwise by the first difference |
| `MatrixExpansion.ListingUnique` | src/rag_eval/config/matrix.py:38 | that arrangement is determined by the set of paths |
| `MatrixExpansion.ApplyCombination` | src/rag_eval/config/matrix.py:46-48 | the loop over the paths is the combination's assignment, up to the first error |
| `MatrixExpansion.ExpandMatrix` | src/rag_eval/config/matrix.py:24-57 | without a matrix the base alone; otherwise the error of the first combination that raises, or the first combination of each identity in lexicographic order |
| `MatrixExpansion.PlanCombinations` | src/rag_eval/config/matrix.py:45-57 | the loop keeps the first of each identity, in order, with distinct hashes |
| `MatrixExpansion.PlannedExactly` | src/rag_eval/config/matrix.py:53-56 | a combination is planned exactly when no earlier one has its identity |
| `MatrixExpansion.EveryChoiceIsPlanned` | src/rag_eval/config/matrix.py:45-57 | every choice of values has its identity in the plan, which is no longer than the product of the sizes |
| `MatrixExpansion.PayloadOfChoice` | src/rag_eval/config/matrix.py:45-48 | for prefix-free dotted paths only the base decides whether a payload can be built, and it reads back every chosen value whatever the order of the paths |
| `Bundle.SafeNameExactly` | src/rag_eval/bundles/format.py:42-50 | a name is accepted exactly when it is "." or all its components are real names without a backslash |
| `Bundle.BundleWriter.AddBytes` | src/rag_eval/bundles/format.py:136-141 | exactly the safe unreserved names enter, and a refused name changes nothing |
| `Bundle.BundleWriter.Build` | src/rag_eval/bundles/format.py:151-174 | building raises exactly when some name is not ASCII or its stored part does not fit into a ZIP header, and otherwise stores the entries and the envelope in name order with their checksum file |
| `Bundle.BuiltNames` | src/rag_eval/bundles/format.py:151-174 | the archive holds exactly the entry names up to their first NUL, the envelope and the checksum file; without NULs everything reads back as it was added |
| `Bundle.OpenBundle` | src/rag_eval/bundles/format.py:180-188 | opening succeeds exactly when names, envelope and checksum coverage are right, and returns the envelope; exactly when a name or a missing reserved member is blamed |
| `Bundle.VerifyPackage` | src/rag_eval/bundles/format.py:214-239 | exactly when the envelope and the checksums are accepted, and exactly when format, schema, a missing field, the resources or a checksum entry is blamed |
| `Bundle.ParseChecksums` | src/rag_eval/bundles/format.py:227-232 | the loop over the lines parses the checksum file, or stops at the first bad entry |
| `Bundle.ParsedExactly` | src/rag_eval/bundles/format.py:226-231 | the file parses exactly when every line is 64 characters, the first double space and a safe name, to the last digest of each name |
| `Strings.PartitionExactly` | src/rag_eval/bundles/format.py:228 | the first double space divides the line; a line without one is not divided |
| `Strings.NextLine` | src/rag_eval/bundles/format.py:227 | each ASCII line break ends a line, a carriage return and the line feed behind it being one |
| `Bundle.RoundTripExactly` | src/rag_eval/bundles/format.py:136-239 | the reader accepts what the writer built exactly when no entry name contains a line break or a NUL |
| `Bundle.ShippedIsValid` | src/rag_eval/bundles/format.py:23-24 | the two reserved names meet what the model asks of them |
| `Bundle.SameChecksumsSameMembers` | src/rag_eval/bundles/format.py:227-239 | two accepted archives with the same checksum file have identical members, or exhibit a digest collision |

## Left out

- CaseWorker.ResilientCaseWorker.ExecuteWithRetry: uses the breaker alone; what other workers do to it meanwhile is what the histories of `CircuitBreaker` cover.
- CaseWorker.ResilientCaseWorker.BackOff: the clock shows whole seconds, so a sleep ends at the first one not before the policy's delay is over.
- CaseWorker.ResilientCaseWorker.Execute: assumes one live worker per case, because staleness is only a guess of it; two workers on one case are not modelled.
- CaseWorker.CaseStore.PersistFailed: folds the separate error row into the attempt row.
- ProtocolTheorems.RetryBudget: counts an attempt as interrupted when the process dies after its row is committed, even if the call itself had not started.
- EngineRun.EngineCase.ExecuteCase: a process dies before a commit; one that dies between registering an attempt and the call counts as having called.
- EngineRun.ExecuteRun: executes the cases of a pass in any order but one at a time; each touches its own rows only, and their interleaving is what `WorkerPool` covers.
- EngineRun.EngineCase.Complete: takes whether scoring raises as given; metric results are not modelled.
- EngineRun.ExecuteSelected: starts from the loaded case executions; the checks that benchmark and run list the same cases, and claiming the run, are not modelled.
- Spans.CitationResolution: starts from the extracted spans, before rounding.
- Tokens.TokenF1: starts from the two token lists, before rounding; tokenizing and Unicode normalization are not modelled.
- Percentile.PercentileBounds: works over exact reals; rounding to six digits can leave the bounds by up to 5e-7.
- DeepMerge.DeepMerge: does not model the order of keys in a dictionary, nor that values are deep copies.
- MatrixPayload.SetMatrixPath: walks by one call per component where the source loops.
- MatrixSharing.ApplyInPlace: takes the mapping values of one combination to share no dictionary with each other or with the base, as parsed values do unless the document uses aliases.
- MatrixExpansion.ExpandMatrix: treats values as copies; with paths that are not prefix-free the source writes into mapping values that combinations share, so an earlier planned configuration can change. With prefix-free paths it cannot (`MatrixSharing.BuildPayloads`).
- Bundle.BundleWriter.Build: takes ZIP, YAML and SHA-256 as given; timestamps and compression are not modelled.
- RetryPolicy.DelayBound: takes the jitter draw as a parameter in [-1, 1].
- Request bodies, headers and the adapters' network protocols: the target is an oracle that answers, fails or never returns.
- Pydantic validation of configurations and responses: a parameter that says whether it succeeds.
- Circuit breaker `_last_failure_time`, `reset` and logging: nothing reads or calls them in the modelled paths.
- Secret references, content hashes and import of bundles into the database.
- Judges, registries, retrieval and stage metrics, HTTP routes, CLI and frontend.
