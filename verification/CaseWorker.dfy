/** The worker as it runs: rows updated in place, one transaction after the other, and the retry loop. Each method is
    proved to perform a run of the step machine in `CaseProtocol`, so everything proved about runs holds of it, and a
    process death at any point is the machine's `Crash` after the events performed so far. */
module CaseWorker {
  import opened Wrappers
  import opened RetryPolicy
  import opened Lifecycle
  import opened Recovery
  import opened CaseProtocol
  import opened ProtocolInvariants
  import CB = CircuitBreaker

  /** The rows of one case execution; each method is one committed transaction. */
  class CaseStore {
    var status: CaseStatus
    var startedAt: Option<int>
    var finishedAt: Option<int>
    var attempts: seq<Attempt>
    var artifacts: seq<Artifact>

    function Snapshot(): Db
      reads this
    {
      Db(status, startedAt, finishedAt, attempts, artifacts)
    }

    constructor ()
      ensures Snapshot() == INITIAL_DB
    {
      status, startedAt, finishedAt, attempts, artifacts := PENDING, None, None, [], [];
    }

    method PersistAttemptBeforeCall(unique: bool, number: nat, request: Request, id: Identity, now: int)
      returns (ok: bool)
      modifies this
      ensures ok == PersistAttempt(old(Snapshot()), unique, number, request, id, now).Some?
      ensures ok ==> PersistAttempt(old(Snapshot()), unique, number, request, id, now) == Some(Snapshot())
      ensures !ok ==> Snapshot() == old(Snapshot())
    {
      var i := 0;
      while i < |attempts|
        invariant 0 <= i <= |attempts| && unchanged(this)
        invariant forall j :: 0 <= j < i ==>
                    attempts[j].number != number && !(unique && attempts[j].requestId == id.requestId)
      {
        if attempts[i].number == number || (unique && attempts[i].requestId == id.requestId) {
          return false;
        }
        i := i + 1;
      }
      attempts := attempts + [Attempt(number, id.requestId, Some(id.key), Some(id.hash), ATTEMPT_RUNNING, Some(now),
                                      None, now, None, None, Some(|artifacts|), None, None)];
      artifacts := artifacts + [RawRequest(request, number)];
      status, startedAt, finishedAt := RUNNING, Some(now), None;
      ok := true;
    }

    /** `UPDATE attempts ... WHERE attempt_number = number`, row by row. */
    method UpdateRow(number: nat, f: Attempt -> Attempt)
      modifies this`attempts
      ensures attempts == UpdateAttempt(old(attempts), number, f)
    {
      var i := 0;
      while i < |attempts|
        invariant 0 <= i <= |attempts| == |old(attempts)|
        invariant attempts[..i] == UpdateAttempt(old(attempts), number, f)[..i]
        invariant attempts[i..] == old(attempts)[i..]
      {
        assert attempts[i] == attempts[i..][0] == old(attempts)[i];
        if attempts[i].number == number {
          attempts := attempts[i := f(attempts[i])];
        }
        i := i + 1;
      }
    }

    method PersistRaw(number: nat, requestId: RequestId, body: string, now: int) returns (artifact: nat)
      modifies this
      ensures Snapshot() == PersistRawResponse(old(Snapshot()), number, requestId, body, now)
      ensures artifact == |old(artifacts)|
    {
      artifact := |artifacts|;
      UpdateRow(number, (a: Attempt) => Received(a.(rawResponse := Some(artifact)), now));
      artifacts := artifacts + [RawResponse(requestId, body, false)];
    }

    method PersistCompleted(number: nat, obs: Observation, now: int)
      modifies this
      ensures Snapshot() == PersistCompletedObservation(old(Snapshot()), number, obs, now)
    {
      UpdateRow(number, (a: Attempt) => Received(a.(observation := Some(obs)), now));
      status, finishedAt := TARGET_COMPLETE, Some(now);
    }

    method PersistRecovered(number: nat, obs: Observation, now: int)
      modifies this
      ensures Snapshot() == PersistRecoveredObservation(old(Snapshot()), number, obs, now)
    {
      UpdateRow(number, (a: Attempt) =>
        Received(if a.observation.None? then a.(observation := Some(obs)) else a, now));
      status, finishedAt := TARGET_COMPLETE, Some(now);
    }

    method Repair(number: nat, now: int)
      modifies this
      ensures Snapshot() == RepairTargetComplete(old(Snapshot()), number, now)
    {
      UpdateRow(number, (a: Attempt) => Received(a, now));
      status, finishedAt := TARGET_COMPLETE, Some(now);
    }

    method PersistFailed(number: nat, error: ErrorRecord, willRetry: bool, now: int)
      modifies this
      ensures Snapshot() == PersistFailedAttempt(old(Snapshot()), number, error, willRetry, now)
    {
      UpdateRow(number, (a: Attempt) =>
        a.(status := if willRetry then RETRYABLE_FAILURE else PERMANENT_FAILURE,
           finishedAt := Some(now), updatedAt := now, retryable := Some(willRetry), error := Some(error)));
      status := if willRetry then RETRY_PENDING else FAILED;
      finishedAt := if willRetry then None else Some(now);
    }

    method SetUnknown()
      modifies this`status
      ensures Snapshot() == MarkUnknown(old(Snapshot()))
    {
      status := UNKNOWN;
    }

    method StoreRecovered(requestId: RequestId, body: string) returns (artifact: nat)
      modifies this`artifacts
      ensures Snapshot() == StoreRecoveredResponse(old(Snapshot()), requestId, body)
      ensures artifact == |old(artifacts)|
    {
      artifact := |artifacts|;
      artifacts := artifacts + [RawResponse(requestId, body, true)];
    }
  }

  /** What a target call does: answer, fail with an adapter error, or never return to this process. `normalizes` is
      false when normalizing the answer raises; times are in whole seconds. */
  datatype TargetOutcome =
    | Responds(body: string, normalizes: bool, seconds: nat)
    | Fails(error: ErrorRecord, seconds: nat)
    | Dies

  datatype WorkerResult =
    | Finished(success: bool, attemptsMade: nat)
    | Raised

  /** How one attempt ended: an escaping exception, an observation, or a failure for the retry policy. */
  datatype AttemptOutcome =
    | Escaped
    | Observed
    | FailedWith(error: ErrorRecord)

  /** What the target does with the call of each attempt and when asked for an attempt's earlier request, and the random
      draw for the backoff after each. */
  datatype World = World(target: nat -> TargetOutcome, earlier: nat -> RecoveryAnswer, jitter: nat -> real)

  /** The clock shows whole seconds: the first one at which a sleep of `delay` seconds is over. */
  function Seconds(delay: real): (seconds: nat)
    ensures delay <= seconds as real && (seconds == 0 || (seconds - 1) as real < delay)
  {
    if delay <= 0.0 then 0 else if delay.Floor as real == delay then delay.Floor else delay.Floor + 1
  }

  function Sleep(c: Config, w: World, number: nat, error: ErrorRecord): nat
    requires number >= 1
  {
    Seconds(Evaluate(c.retry, error, number, w.jitter(number)).delaySeconds)
  }

  /** In its backoff the worker has slept, since the failure was committed, as long as the policy said. */
  predicate Rested(c: Config, w: World, s: State) {
    s.pc.Backoff? && s.pc.number >= 1 ==>
      forall i :: 0 <= i < |s.db.attempts| ==>
        var a := s.db.attempts[i];
        a.number == s.pc.number && a.error.Some? ==> s.now == a.updatedAt + Sleep(c, w, s.pc.number, a.error.value)
  }

  /** The run is the world's doing: attempt `n` is answered as `target(n)` says, an earlier request as `earlier(n)`
      says, a retry comes when its backoff is over, and the process dies or raises only where the world makes it: in a
      recovery that breaks, in a call that never returns, or on a response that cannot be normalized. */
  predicate Answered(c: Config, w: World, s: State, e: Event) {
    match e
    case Respond(body) => s.pc.Calling? && w.target(s.pc.number).Responds? && w.target(s.pc.number).body == body
    case Fail(error) => s.pc.Calling? && w.target(s.pc.number).Fails? && w.target(s.pc.number).error == error
    case Recover(result) =>
      var answer := w.earlier(AttemptsMade(Latest(s.db.attempts)));
      if result.Some? then answer == RecoveredResponse(result.value) else answer.NothingRecovered?
    case Advance => Rested(c, w, s)
    case Tick(_) => s.pc.Idle? || s.pc.Done? || s.pc.LoopTop? || s.pc.Calling? || s.pc.Backoff?
    case Crash =>
      || (s.pc.Recovering? && w.earlier(AttemptsMade(Latest(s.db.attempts))).RecoveryRaises?)
      || (s.pc.Calling? && w.target(s.pc.number).Dies?)
      || (s.pc.Normalizing? && w.target(s.pc.number).Responds? && !w.target(s.pc.number).normalizes)
    case _ => true
  }

  predicate Follows(c: Config, w: World, s: State, es: seq<Event>)
    decreases |es|
  {
    es == [] || (Enabled(c, s, es[0]) && Answered(c, w, s, es[0]) && Follows(c, w, Apply(c, s, es[0]), es[1..]))
  }

  lemma {:induction false} FollowsSnoc(c: Config, w: World, s: State, es: seq<Event>, e: Event)
    requires Follows(c, w, s, es) && Run(c, s, es)
    requires Enabled(c, After(c, s, es), e) && Answered(c, w, After(c, s, es), e)
    ensures Follows(c, w, s, es + [e]) && Run(c, s, es + [e])
    ensures After(c, s, es + [e]) == Apply(c, After(c, s, es), e)
    decreases |es|
  {
    if es == [] {
      var s' := Apply(c, s, e);
      assert [e][1..] == [] && es + [e] == [e];
      assert Run(c, s', []) && Follows(c, w, s', []);
    } else {
      assert (es + [e])[0] == es[0] && (es + [e])[1..] == es[1..] + [e];
      FollowsSnoc(c, w, Apply(c, s, es[0]), es[1..], e);
    }
  }

  /** How often an operation was performed. */
  function Times(history: seq<CB.Op>, op: CB.Op): nat {
    if history == [] then 0
    else Times(history[..|history| - 1], op) + if history[|history| - 1] == op then 1 else 0
  }

  /** `op` happened once more, and no other question or report did. */
  predicate Counts(now: seq<CB.Op>, before: seq<CB.Op>, op: CB.Op) {
    && Times(now, CB.Ask) == Times(before, CB.Ask) + (if op == CB.Ask then 1 else 0)
    && Times(now, CB.Failure) == Times(before, CB.Failure) + (if op == CB.Failure then 1 else 0)
    && Times(now, CB.Success) == Times(before, CB.Success) + (if op == CB.Success then 1 else 0)
  }

  /** A worker's use of the breaker, under the name `who`. What it does extends the breaker's history, so everything
      proved about histories holds of the breaker it drives. */
  class BreakerGate {
    const breaker: CB.CircuitBreaker
    const who: nat
    ghost const start: int
    ghost var history: seq<CB.Op>

    /** The history is one the breaker can have, the breaker is where it leads, and this worker is awake in it. */
    ghost predicate Linked()
      reads this, breaker
    {
      && CB.Run(breaker.config, start, history)
      && CB.After(breaker.config, start, history).view == breaker.Current()
      && who !in CB.After(breaker.config, start, history).sleepers
    }

    ghost function Clock(): int
      reads this
    {
      CB.After(breaker.config, start, history).now
    }

    /** A gate onto a breaker with a past; a new breaker has none. */
    constructor (breaker: CB.CircuitBreaker, who: nat, ghost start: int, ghost history: seq<CB.Op>)
      requires CB.Run(breaker.config, start, history)
      requires CB.After(breaker.config, start, history).view == breaker.Current()
      requires who !in CB.After(breaker.config, start, history).sleepers
      ensures Linked() && this.breaker == breaker && this.history == history
    {
      this.breaker, this.who, this.start, this.history := breaker, who, start, history;
    }

    ghost method Note(op: CB.Op)
      requires CB.Run(breaker.config, start, history)
      requires CB.Enabled(breaker.config, CB.After(breaker.config, start, history), op)
      modifies this`history
      ensures history == old(history) + [op] && Counts(history, old(history), op)
      ensures CB.Run(breaker.config, start, history)
      ensures CB.After(breaker.config, start, history)
              == CB.Step(breaker.config, CB.After(breaker.config, start, old(history)), op)
    {
      history := history + [op];
      CB.Snoc(breaker.config, start, old(history), op);
      assert history[..|history| - 1] == old(history);
    }

    /** Time passes until `now`. */
    ghost method PassTo(now: int)
      requires CB.Run(breaker.config, start, history) && Clock() <= now
      modifies this`history
      ensures old(history) <= history && CB.Run(breaker.config, start, history) && Clock() == now
      ensures Times(history, CB.Ask) == Times(old(history), CB.Ask)
      ensures Times(history, CB.Failure) == Times(old(history), CB.Failure)
      ensures Times(history, CB.Success) == Times(old(history), CB.Success)
      ensures CB.After(breaker.config, start, history)
              == CB.After(breaker.config, start, old(history)).(now := now)
    {
      Note(CB.Tick(now - Clock()));
    }

    method Ask(now: int) returns (admitted: bool)
      requires Linked() && Clock() <= now
      modifies this, breaker
      ensures Linked() && Clock() == now && old(history) <= history && Counts(history, old(history), CB.Ask)
      ensures admitted <==> breaker.state != CB.OPEN
    {
      PassTo(now);
      admitted := breaker.CanExecute(now);
      Note(CB.Ask);
    }

    /** `wait_for_cooldown`: the lock body, the sleep, and the second lock body. */
    method Sleep(now: int) returns (slept: nat)
      requires Linked() && Clock() == now
      modifies this, breaker
      ensures Linked() && Clock() == now + slept && old(history) <= history && breaker.state != CB.OPEN
      ensures Times(history, CB.Ask) == Times(old(history), CB.Ask)
      ensures Times(history, CB.Failure) == Times(old(history), CB.Failure)
      ensures Times(history, CB.Success) == Times(old(history), CB.Success)
    {
      CB.OpeningTimes(breaker.config, start, history);
      var seconds := breaker.BeginWait(now);
      Note(CB.Enter(who));
      slept := 0;
      if seconds.Some? {
        slept := seconds.value;
        PassTo(now + slept);
        breaker.EndWait();
        Note(CB.Wake(who));
      }
    }

    /** `_wait_for_circuit_breaker`: ask once, and otherwise sleep out the cooldown. It never returns while OPEN. */
    method Await(now: int) returns (slept: nat)
      requires Linked() && Clock() <= now
      modifies this, breaker
      ensures Linked() && Clock() == now + slept && old(history) <= history
      ensures breaker.state != CB.OPEN && Counts(history, old(history), CB.Ask)
    {
      slept := 0;
      var admitted := Ask(now);
      if !admitted {
        slept := Sleep(now);
      }
    }

    method Failed(now: int)
      requires Linked() && Clock() <= now
      modifies this, breaker
      ensures Linked() && Clock() == now && old(history) <= history && Counts(history, old(history), CB.Failure)
    {
      PassTo(now);
      breaker.RecordFailure(now);
      Note(CB.Failure);
    }

    method Succeeded(now: int)
      requires Linked() && Clock() <= now
      modifies this, breaker
      ensures Linked() && Clock() == now && old(history) <= history && Counts(history, old(history), CB.Success)
    {
      PassTo(now);
      breaker.RecordSuccess();
      Note(CB.Success);
    }
  }

  /** The machine's report at the end of an execution is right. */
  lemma ReportIsRight(c: Config, s: State)
    requires Inv(c, s) && s.pc.Done?
    ensures s.pc.attemptsMade == |s.db.attempts| && (s.pc.success <==> s.db.status == TARGET_COMPLETE)
  {
  }

  class ResilientCaseWorker {
    const c: Config
    const payload: Payload
    const store: CaseStore
    const world: World
    const gate: BreakerGate
    var nextUuid: nat
    var now: int

    ghost const origin: State
    ghost var s: State
    ghost var trace: seq<Event>

    /** The events so far are a run from `origin` to `s`, and `s` agrees with the rows and the local counters. */
    ghost predicate Linked()
      reads this, store
    {
      && Follows(c, world, origin, trace) && Run(c, origin, trace) && After(c, origin, trace) == s
      && s.db == store.Snapshot() && s.nextUuid == nextUuid && s.now == now
      && (s.pc.Idle? || s.pc.Done? || s.payload == payload)
    }

    /** The breaker's history does not run ahead of this worker's clock. */
    ghost predicate Gated()
      reads this, gate, gate.breaker
    {
      gate.Linked() && gate.Clock() <= now
    }

    ghost method Log(e: Event)
      requires Follows(c, world, origin, trace) && Run(c, origin, trace) && After(c, origin, trace) == s
      requires Enabled(c, s, e) && Answered(c, world, s, e)
      modifies this`s, this`trace
      ensures Follows(c, world, origin, trace) && Run(c, origin, trace) && After(c, origin, trace) == s
      ensures s == Apply(c, old(s), e) && trace == old(trace) + [e]
    {
      FollowsSnoc(c, world, origin, trace, e);
      trace, s := trace + [e], Apply(c, s, e);
    }

    /** A new worker over existing rows, in a fresh process. */
    constructor (c: Config, payload: Payload, store: CaseStore, world: World, gate: BreakerGate,
                 nextUuid: nat, now: int, ghost origin: State)
      requires origin.pc.Idle? || origin.pc.Done?
      requires origin.db == store.Snapshot() && origin.nextUuid == nextUuid && origin.now == now
      ensures Linked() && this.c == c && this.payload == payload && this.store == store && this.world == world
      ensures this.origin == origin == s && trace == [] && this.gate == gate
    {
      this.c, this.payload, this.store, this.world, this.gate := c, payload, store, world, gate;
      this.nextUuid, this.now := nextUuid, now;
      this.origin, s, trace := origin, origin, [];
    }

    /** Execute or recover the case. Whatever the durable state and the target do, the execution is a run of the
        protocol, and a finished one reports success exactly when the case is TARGET_COMPLETE. */
    method Execute(parses: bool) returns (r: WorkerResult)
      requires Linked() && Inv(c, origin) && (s.pc.Idle? || s.pc.Done?) && (c.reparses ==> parses) && Gated()
      modifies this, store, gate, gate.breaker
      ensures old(trace) + [Start(payload, parses)] <= trace
      ensures Linked() && Inv(c, s) && (s.pc.Idle? || s.pc.Done?) && Gated()
      ensures r.Raised? ==> s.pc.Idle?
      ensures r.Finished? ==> s.pc == Done(r.success, r.attemptsMade)
      ensures r.Finished? ==> r.attemptsMade == |store.attempts| && (r.success <==> store.status == TARGET_COMPLETE)
    {
      Log(Start(payload, parses));
      var latest := Latest(store.attempts);
      var decision := DecideRecovery(c, store.Snapshot(), parses, now);
      r := ExecuteWithRecovery(decision, latest);
      RunKeepsInv(c, origin, trace);
      if s.pc.Done? {
        ReportIsRight(c, s);
      }
    }

    method ExecuteWithRecovery(decision: Decision, latest: Option<Attempt>) returns (r: WorkerResult)
      requires Linked() && s.pc == Decided(decision) && latest == Latest(store.attempts)
      requires Gated()
      modifies this, store, gate, gate.breaker
      ensures old(trace) <= trace
      ensures Gated()
      ensures Linked() && (if r.Raised? then s.pc.Idle? else s.pc == Done(r.success, r.attemptsMade))
    {
      var attemptsMade := AttemptsMade(latest);
      match decision.action
      case RECOVER_REQUEST =>
        r := RecoverRequest(decision, latest);
      case IDEMPOTENT_REPLAY =>
        Log(Advance);
        if latest.None? {
          return Raised;
        }
        r := ExecuteWithRetry(attemptsMade, latest, true);
      case EXECUTE_NEW =>
        Log(Advance);
        r := ExecuteWithRetry(attemptsMade, latest, false);
      case _ =>
        r := FinishFromRows(decision, latest);
    }

    /** The branches that end without contacting the target. */
    method FinishFromRows(decision: Decision, latest: Option<Attempt>) returns (r: WorkerResult)
      requires Linked() && s.pc == Decided(decision) && latest == Latest(store.attempts)
      requires decision.action in {SKIP, REUSE_OBSERVATION, RENORMALIZE_RAW, MARK_UNKNOWN}
      modifies this, store
      ensures old(trace) <= trace && now == old(now)
      ensures Linked() && (if r.Raised? then s.pc.Idle? else s.pc == Done(r.success, r.attemptsMade))
    {
      var attemptsMade := AttemptsMade(latest);
      if decision.action == SKIP {
        r := Finished(store.status == COMPLETE || store.status == TARGET_COMPLETE, attemptsMade);
      } else if decision.action == REUSE_OBSERVATION {
        r := Raised;
        if decision.observation.Some? {
          store.Repair(attemptsMade, now);
          r := Finished(true, attemptsMade);
        }
      } else if decision.action == RENORMALIZE_RAW {
        r := Raised;
        if decision.observation.Some? && latest.Some? {
          store.PersistRecovered(attemptsMade, decision.observation.value, now);
          r := Finished(true, attemptsMade);
        }
      } else {
        store.SetUnknown();
        r := Finished(false, attemptsMade);
      }
      Log(Advance);
    }

    /** Ask the target for the earlier request; fall back to replay, or give up and mark the case UNKNOWN. A
        response that cannot be normalized is rolled back with its session. */
    method RecoverRequest(decision: Decision, latest: Option<Attempt>) returns (r: WorkerResult)
      requires Linked() && s.pc == Decided(decision) && decision.action == RECOVER_REQUEST
      requires latest == Latest(store.attempts)
      requires Gated()
      modifies this, store, gate, gate.breaker
      ensures old(trace) <= trace
      ensures Gated()
      ensures Linked() && (if r.Raised? then s.pc.Idle? else s.pc == Done(r.success, r.attemptsMade))
      ensures latest.Some? && world.earlier(latest.value.number).RecoveryRaises? ==>
                r.Raised? && store.Snapshot() == old(store.Snapshot())
      ensures latest.Some? && world.earlier(latest.value.number).RecoveredResponse? ==>
                r == Finished(true, latest.value.number)
    {
      var attemptsMade := AttemptsMade(latest);
      if latest.None? {
        store.SetUnknown();
        Log(Advance);
        return Finished(false, attemptsMade);
      }
      Log(Advance);
      var recovery := world.earlier(latest.value.number);
      if recovery.RecoveryRaises? {
        Log(Crash);
        return Raised;
      }
      if recovery.RecoveredResponse? {
        RecordRecovered(latest.value, recovery.body);
        return Finished(true, attemptsMade);
      }
      r := FallBack(decision.fallback, latest);
    }

    /** Nothing was recovered: replay, or mark the case UNKNOWN. */
    method FallBack(fallback: Option<Action>, latest: Option<Attempt>) returns (r: WorkerResult)
      requires Linked() && s.pc == Recovering(fallback) && latest.Some? && latest == Latest(store.attempts)
      requires world.earlier(latest.value.number).NothingRecovered?
      requires Gated()
      modifies this, store, gate, gate.breaker
      ensures old(trace) <= trace && Gated()
      ensures Linked() && (if r.Raised? then s.pc.Idle? else s.pc == Done(r.success, r.attemptsMade))
    {
      Log(Recover(None));
      if fallback == Some(IDEMPOTENT_REPLAY) {
        r := ExecuteWithRetry(AttemptsMade(latest), latest, true);
      } else {
        store.SetUnknown();
        Log(Advance);
        r := Finished(false, AttemptsMade(latest));
      }
    }

    /** Two commits: the recovered response, then its observation. */
    method RecordRecovered(latest: Attempt, body: string)
      requires Linked() && s.pc.Recovering? && Some(latest) == Latest(store.attempts)
      requires world.earlier(latest.number) == RecoveredResponse(body)
      modifies this, store
      ensures old(trace) <= trace
      ensures Linked() && s.pc == Done(true, latest.number) && now == old(now)
    {
      var artifact := store.StoreRecovered(latest.requestId, body);
      Log(Recover(Some(body)));
      store.PersistRecovered(latest.number, Normalize(latest.requestId, body, artifact), now);
      Log(Advance);
    }

    /** What the breaker has been told since it held `asked`, `failed` and `won`. */
    ghost predicate Told(asked: nat, failed: nat, won: nat)
      reads gate
    {
      && Times(gate.history, CB.Ask) == asked
      && Times(gate.history, CB.Failure) == failed
      && Times(gate.history, CB.Success) == won
    }

    /** Attempts until success or until the policy refuses a retry; `max_attempts - attempt_number` decreases.
        Before each attempt the breaker is asked once, and it learns of every adapter error and of the success, and
        of nothing else. */
    method ExecuteWithRetry(initialAttemptNumber: nat, previousAttempt: Option<Attempt>, idempotentReplay: bool)
      returns (r: WorkerResult)
      requires Linked() && s.pc == LoopTop(initialAttemptNumber, previousAttempt, idempotentReplay)
      requires Gated()
      modifies this, store, gate, gate.breaker
      ensures old(trace) <= trace
      ensures Linked() && (if r.Raised? then s.pc.Idle? else s.pc == Done(r.success, r.attemptsMade))
      ensures Gated()
      ensures r.Finished? ==>
                var tried, won := r.attemptsMade - initialAttemptNumber, if r.success then 1 else 0;
                && tried > 0
                && Told(old(Times(gate.history, CB.Ask)) + tried,
                        old(Times(gate.history, CB.Failure)) + tried - won,
                        old(Times(gate.history, CB.Success)) + won)
    {
      var attemptNumber, previous, replay := initialAttemptNumber, previousAttempt, idempotentReplay;
      ghost var asked, failed := Times(gate.history, CB.Ask), Times(gate.history, CB.Failure);
      ghost var won := Times(gate.history, CB.Success);
      while true
        invariant Linked() && s.pc == LoopTop(attemptNumber, previous, replay) && old(trace) <= trace
        invariant Gated() && attemptNumber >= initialAttemptNumber
        invariant Told(asked + (attemptNumber - initialAttemptNumber),
                       failed + (attemptNumber - initialAttemptNumber), won)
        decreases c.retry.maxAttempts - attemptNumber
      {
        var made := attemptNumber;
        attemptNumber := attemptNumber + 1;
        var outcome, retry := TryOnce(made, previous, replay);
        if outcome.Escaped? {
          return Raised;
        } else if outcome.Observed? {
          return Finished(true, attemptNumber);
        } else if !retry {
          return Finished(false, attemptNumber);
        }
        previous := BackOff(attemptNumber, outcome.error);
        replay := c.idempotency;
      }
    }

    /** One turn of the retry loop up to the backoff: wait for the breaker, attempt, tell the breaker, commit a
        failure. */
    method TryOnce(made: nat, previous: Option<Attempt>, replay: bool) returns (outcome: AttemptOutcome, retry: bool)
      requires Linked() && s.pc == LoopTop(made, previous, replay) && Gated()
      modifies this, store, gate, gate.breaker
      ensures old(trace) <= trace && Linked() && Gated()
      ensures match outcome
              case Escaped => s.pc.Idle?
              case Observed => s.pc == Done(true, made + 1)
              case FailedWith(_) => s.pc == if retry then Backoff(made + 1) else Done(false, made + 1)
      ensures retry ==> made + 1 < c.retry.maxAttempts && FailedNow(made + 1, outcome)
      ensures Told(old(Times(gate.history, CB.Ask)) + 1,
                   old(Times(gate.history, CB.Failure)) + (if outcome.FailedWith? then 1 else 0),
                   old(Times(gate.history, CB.Success)) + (if outcome.Observed? then 1 else 0))
    {
      retry := false;
      outcome := GuardedAttempt(made, previous, replay);
      if outcome.Observed? {
        gate.Succeeded(now);
      } else if outcome.FailedWith? {
        gate.Failed(now);
        retry := CommitFailure(made + 1, outcome.error);
      }
    }

    method GuardedAttempt(made: nat, previous: Option<Attempt>, replay: bool) returns (outcome: AttemptOutcome)
      requires Linked() && s.pc == LoopTop(made, previous, replay) && Gated()
      modifies this, store, gate, gate.breaker
      ensures old(trace) <= trace && Linked() && Gated() && Counts(gate.history, old(gate.history), CB.Ask)
      ensures match outcome
              case Escaped => s.pc.Idle?
              case Observed => s.pc == Done(true, made + 1)
              case FailedWith(error) => s.pc == CallFailed(made + 1, error)
    {
      WaitForCircuitBreaker();
      outcome := ExecuteAttempt(made, previous, replay);
    }

    /** No attempt begins while the breaker is OPEN. */
    method WaitForCircuitBreaker()
      requires Linked() && s.pc.LoopTop? && Gated()
      modifies this`now, this`s, this`trace, gate, gate.breaker
      ensures Linked() && s.pc == old(s.pc) && old(trace) <= trace
      ensures Gated() && gate.breaker.state != CB.OPEN
      ensures Counts(gate.history, old(gate.history), CB.Ask)
    {
      var slept := gate.Await(now);
      now := now + slept;
      Log(Tick(slept));
    }

    /** The failure was committed on the rows with this number at this time. */
    ghost predicate FailedNow(number: nat, outcome: AttemptOutcome)
      reads this, store
    {
      outcome.FailedWith? && forall i :: 0 <= i < |store.attempts| && store.attempts[i].number == number ==>
        store.attempts[i].updatedAt == now && store.attempts[i].error == Some(outcome.error)
    }

    /** The failed attempt and its retry verdict are committed before any sleep or return. */
    method CommitFailure(number: nat, error: ErrorRecord) returns (retry: bool)
      requires Linked() && s.pc == CallFailed(number, error)
      modifies this, store
      ensures old(trace) <= trace && now == old(now)
      ensures Linked() && s.pc == if retry then Backoff(number) else Done(false, number)
      ensures retry ==> number < c.retry.maxAttempts
      ensures FailedNow(number, FailedWith(error))
    {
      retry := ShouldRetry(c.retry, error, number);
      store.PersistFailed(number, error, retry, now);
      Log(Advance);
    }

    /** Sleep as long as the policy says, with no transaction open, and read the latest attempt again. */
    method BackOff(number: nat, error: ErrorRecord) returns (previous: Option<Attempt>)
      requires Linked() && s.pc == Backoff(number) && number >= 1 && FailedNow(number, FailedWith(error))
      modifies this, store
      ensures old(trace) <= trace && now == old(now) + Sleep(c, world, number, error)
      ensures Linked() && s.pc == LoopTop(number, previous, c.idempotency)
    {
      var decision := Evaluate(c.retry, error, number, world.jitter(number));
      var seconds := Seconds(decision.delaySeconds);
      now := now + seconds;
      Log(Tick(seconds));
      previous := Latest(store.attempts);
      Log(Advance);
    }

    /** The identity of the next attempt; None when a replay is refused. */
    method PickIdentity(number: nat, previous: Option<Attempt>, replay: bool) returns (id: Option<Identity>)
      modifies this`nextUuid
      ensures id == ChooseIdentity(c, payload, old(nextUuid), number, previous, replay)
      ensures nextUuid == old(nextUuid) + 1
    {
      var requestId, key, hash := Uuid(nextUuid), AttemptKey(number), c.hash(Request(Blank, payload));
      nextUuid := nextUuid + 1;
      if replay && previous.Some? {
        var p := previous.value;
        if p.hash.None? || hash != p.hash.value || p.key.None? {
          return None;
        }
        requestId, key, hash := p.requestId, p.key.value, p.hash.value;
      }
      return Some(Identity(requestId, key, hash));
    }

    /** One attempt in the mandatory order: commit the request, call, commit the raw response, commit the
        observation. The number is the previous attempt's plus one. */
    method ExecuteAttempt(made: nat, previous: Option<Attempt>, replay: bool) returns (r: AttemptOutcome)
      requires Linked() && s.pc == LoopTop(made, previous, replay)
      modifies this, store
      ensures old(trace) <= trace && now >= old(now)
      ensures Linked()
      ensures match r
              case Escaped => s.pc.Idle?
              case Observed => s.pc == Done(true, made + 1)
              case FailedWith(error) => s.pc == CallFailed(made + 1, error)
    {
      var id := PersistRequest(made, previous, replay);
      if id.None? {
        return Escaped;
      }
      Log(Issue);
      r := CallTarget(made + 1, id.value);
    }

    /** Choose the identity and commit the attempt with its raw request. */
    method PersistRequest(made: nat, previous: Option<Attempt>, replay: bool) returns (id: Option<Identity>)
      requires Linked() && s.pc == LoopTop(made, previous, replay)
      modifies this, store
      ensures old(trace) <= trace && now == old(now)
      ensures Linked()
      ensures if id.None? then s.pc.Idle? else s.pc == Prepared(made + 1, id.value)
    {
      id := PickIdentity(made + 1, previous, replay);
      if id.Some? {
        var request := Request(id.value.requestId, payload);
        var ok := store.PersistAttemptBeforeCall(c.uniqueRequestIds, made + 1, request, id.value, now);
        if !ok {
          id := None;
        }
      }
      Log(Advance);
    }

    /** From the issued call to its committed result. Only an adapter error is handed back for a retry; a response
        whose normalization raises leaves the raw response committed. */
    method CallTarget(number: nat, id: Identity) returns (r: AttemptOutcome)
      requires Linked() && s.pc == Calling(number, id)
      modifies this, store
      ensures old(trace) <= trace && now >= old(now)
      ensures Linked()
      ensures match r
              case Escaped => s.pc.Idle?
              case Observed => s.pc == Done(true, number)
              case FailedWith(error) => s.pc == CallFailed(number, error)
      ensures world.target(number).Responds? ==> Attached(number, id, world.target(number).body, |old(store.artifacts)|)
    {
      match world.target(number)
      case Dies =>
        Log(Crash);
        return Escaped;
      case Fails(error, seconds) =>
        now := now + seconds;
        Log(Tick(seconds));
        Log(Fail(error));
        return FailedWith(error);
      case Responds(body, normalizes, seconds) =>
        now := now + seconds;
        Log(Tick(seconds));
        Log(Respond(body));
        r := HandleResponse(number, id, body, normalizes);
    }

    /** The response is stored as artifact `k`, and every row with this number points at it. */
    ghost predicate Attached(number: nat, id: Identity, body: string, k: nat)
      reads store
    {
      && k < |store.artifacts| && store.artifacts[k] == RawResponse(id.requestId, body, false)
      && forall i :: 0 <= i < |store.attempts| && store.attempts[i].number == number ==>
           store.attempts[i].rawResponse == Some(k)
    }

    /** The raw response is committed before anything can go wrong with it. */
    method HandleResponse(number: nat, id: Identity, body: string, normalizes: bool) returns (r: AttemptOutcome)
      requires Linked() && s.pc == Responded(number, id, body)
      requires world.target(number).Responds? && world.target(number).normalizes == normalizes
      modifies this, store
      ensures old(trace) <= trace && now == old(now)
      ensures Linked()
      ensures r == if normalizes then Observed else Escaped
      ensures if normalizes then s.pc == Done(true, number) else s.pc.Idle?
      ensures Attached(number, id, body, |old(store.artifacts)|)
    {
      var artifact := store.PersistRaw(number, id.requestId, body, now);
      Log(Advance);
      if !normalizes {
        Log(Crash);
        return Escaped;
      }
      RecordObservation(number, Normalize(id.requestId, body, artifact));
      return Observed;
    }

    method RecordObservation(number: nat, obs: Observation)
      requires Linked() && s.pc == Normalizing(number, obs)
      modifies this, store
      ensures old(trace) <= trace && Linked() && s.pc == Done(true, number) && now == old(now)
      ensures store.artifacts == old(store.artifacts) && |store.attempts| == |old(store.attempts)|
      ensures forall i :: 0 <= i < |store.attempts| ==>
                && store.attempts[i].number == old(store.attempts)[i].number
                && store.attempts[i].rawResponse == old(store.attempts)[i].rawResponse
    {
      store.PersistCompleted(number, obs, now);
      Log(Advance);
    }
  }
}
