/** The worker protocol for one case as a step machine. Durable state is `db`; `pc` and `payload` live in the
    worker process and vanish in a crash. `calls` and `interrupted` record what happened, and nothing reads them. */
module CaseProtocol {
  import opened Wrappers
  import opened RetryPolicy
  import opened Lifecycle
  import opened Recovery

  datatype Call = Call(number: nat, requestId: RequestId, key: Key, payload: Payload)

  datatype Pc =
    | Idle
    | Decided(decision: Decision)
    | Recovering(fallback: Option<Action>)
    | Recovered(obs: Observation)
    | LoopTop(made: nat, previous: Option<Attempt>, replay: bool)
    | Prepared(number: nat, id: Identity)
    | Calling(number: nat, id: Identity)
    | Responded(number: nat, id: Identity, body: string)
    | Normalizing(number: nat, obs: Observation)
    | CallFailed(number: nat, error: ErrorRecord)
    | Backoff(number: nat)
    | Done(success: bool, attemptsMade: nat)

  datatype State = State(
    db: Db, pc: Pc, payload: Payload, calls: seq<Call>, nextUuid: nat, now: int, interrupted: nat)

  /** `Crash` is a process death or any exception that leaves `execute`. `Advance` is the one local step the
      program counter allows: a decision branch, a commit, or the policy evaluation after a failed call. */
  datatype Event =
    | Tick(seconds: nat)
    | Start(payload: Payload, parses: bool)
    | Advance
    | Recover(result: Option<string>)
    | Issue
    | Respond(body: string)
    | Fail(error: ErrorRecord)
    | Crash

  function Init(payload: Payload, now: int): State {
    State(INITIAL_DB, Idle, payload, [], 0, now, 0)
  }

  /** An attempt has been created and its outcome is not yet committed. */
  predicate InFlight(pc: Pc) {
    pc.Prepared? || pc.Calling? || pc.Responded? || pc.Normalizing? || pc.CallFailed?
  }

  predicate Enabled(c: Config, s: State, e: Event) {
    match e
    case Tick(_) => true
    case Crash => true
    case Start(_, parses) => (s.pc.Idle? || s.pc.Done?) && (c.reparses ==> parses)
    case Advance =>
      s.pc.Decided? || s.pc.Recovered? || s.pc.LoopTop? || s.pc.Responded? || s.pc.Normalizing?
      || s.pc.CallFailed? || s.pc.Backoff?
    case Recover(_) => s.pc.Recovering?
    case Issue => s.pc.Prepared?
    case Respond(_) => s.pc.Calling?
    case Fail(_) => s.pc.Calling?
  }

  /** Identity of the next attempt. The fresh request id is drawn before the replay checks, as the source does. */
  function ChooseIdentity(
    c: Config, payload: Payload, uuid: nat, number: nat, previous: Option<Attempt>, replay: bool): Option<Identity>
  {
    var own := Identity(Uuid(uuid), AttemptKey(number), c.hash(Request(Blank, payload)));
    if !(replay && previous.Some?) then Some(own)
    else
      var p := previous.value;
      if p.hash.None? || own.hash != p.hash.value || p.key.None? then None
      else Some(Identity(p.requestId, p.key.value, p.hash.value))
  }

  /** Create the next attempt, or raise (a refused replay, or a failed insert). */
  function BeginAttempt(c: Config, s: State): State
    requires s.pc.LoopTop?
  {
    var number := s.pc.made + 1;
    var s' := s.(nextUuid := s.nextUuid + 1);
    var id := ChooseIdentity(c, s.payload, s.nextUuid, number, s.pc.previous, s.pc.replay);
    if id.None? then s'.(pc := Idle)
    else
      var request := Request(id.value.requestId, s.payload);
      var db := PersistAttempt(s.db, c.uniqueRequestIds, number, request, id.value, s.now);
      if db.None? then s'.(pc := Idle)
      else s'.(db := db.value, pc := Prepared(number, id.value))
  }

  /** The branch of `_execute_with_recovery` the decision selects. */
  function Dispatch(c: Config, s: State): State
    requires s.pc.Decided?
  {
    var d := s.pc.decision;
    var latest := Latest(s.db.attempts);
    var made := AttemptsMade(latest);
    match d.action
    case SKIP => s.(pc := Done(s.db.status == COMPLETE || s.db.status == TARGET_COMPLETE, made))
    case REUSE_OBSERVATION =>
      if d.observation.None? then s.(pc := Idle)
      else s.(db := RepairTargetComplete(s.db, made, s.now), pc := Done(true, made))
    case RENORMALIZE_RAW =>
      if d.observation.None? || latest.None? then s.(pc := Idle)
      else s.(db := PersistRecoveredObservation(s.db, made, d.observation.value, s.now), pc := Done(true, made))
    case RECOVER_REQUEST =>
      if latest.None? then s.(db := MarkUnknown(s.db), pc := Done(false, made))
      else s.(pc := Recovering(d.fallback))
    case IDEMPOTENT_REPLAY =>
      if latest.None? then s.(pc := Idle) else s.(pc := LoopTop(made, latest, true))
    case EXECUTE_NEW => s.(pc := LoopTop(made, latest, false))
    case MARK_UNKNOWN => s.(db := MarkUnknown(s.db), pc := Done(false, made))
  }

  /** After `execute_recovery`: a recovered response is committed as a loose artifact; otherwise the fallback runs. */
  function AfterRecovery(c: Config, s: State, result: Option<string>): State
    requires s.pc.Recovering?
  {
    var latest := Latest(s.db.attempts);
    if latest.None? then s.(pc := Idle)
    else if result.Some? then
      var artifact := |s.db.artifacts|;
      var requestId := latest.value.requestId;
      s.(db := StoreRecoveredResponse(s.db, requestId, result.value),
         pc := Recovered(Normalize(requestId, result.value, artifact)))
    else if s.pc.fallback == Some(IDEMPOTENT_REPLAY) then
      s.(pc := LoopTop(latest.value.number, latest, true))
    else s.(pc := Decided(Decide0(MARK_UNKNOWN)))
  }

  function Apply(c: Config, s: State, e: Event): State
    requires Enabled(c, s, e)
  {
    match e
    case Tick(seconds) => s.(now := s.now + seconds)
    case Crash =>
      s.(pc := Idle, interrupted := s.interrupted + if InFlight(s.pc) then 1 else 0)
    case Start(payload, parses) =>
      s.(payload := payload, pc := Decided(DecideRecovery(c, s.db, parses, s.now)))
    case Recover(result) => AfterRecovery(c, s, result)
    case Issue =>
      s.(calls := s.calls + [Call(s.pc.number, s.pc.id.requestId, s.pc.id.key, s.payload)],
         pc := Calling(s.pc.number, s.pc.id))
    case Respond(body) => s.(pc := Responded(s.pc.number, s.pc.id, body))
    case Fail(error) => s.(pc := CallFailed(s.pc.number, error))
    case Advance =>
      match s.pc
      case Decided(_) => Dispatch(c, s)
      case LoopTop(_, _, _) => BeginAttempt(c, s)
      case Recovered(obs) =>
        var made := AttemptsMade(Latest(s.db.attempts));
        s.(db := PersistRecoveredObservation(s.db, made, obs, s.now), pc := Done(true, made))
      case Responded(number, id, body) =>
        s.(db := PersistRawResponse(s.db, number, id.requestId, body, s.now),
           pc := Normalizing(number, Normalize(id.requestId, body, |s.db.artifacts|)))
      case Normalizing(number, obs) =>
        s.(db := PersistCompletedObservation(s.db, number, obs, s.now), pc := Done(true, number))
      case CallFailed(number, error) =>
        var willRetry := ShouldRetry(c.retry, error, number);
        s.(db := PersistFailedAttempt(s.db, number, error, willRetry, s.now),
           pc := if willRetry then Backoff(number) else Done(false, number))
      case Backoff(number) => s.(pc := LoopTop(number, Latest(s.db.attempts), c.idempotency))
  }

  // ----- runs -----

  predicate Run(c: Config, s: State, es: seq<Event>)
    decreases |es|
  {
    es == [] || (Enabled(c, s, es[0]) && Run(c, Apply(c, s, es[0]), es[1..]))
  }

  function After(c: Config, s: State, es: seq<Event>): State
    requires Run(c, s, es)
    decreases |es|
  {
    if es == [] then s else After(c, Apply(c, s, es[0]), es[1..])
  }

  /** Runs compose: what happens after a run is itself a run from the state reached. */
  lemma {:induction false} RunConcat(c: Config, s: State, es: seq<Event>, fs: seq<Event>)
    requires Run(c, s, es)
    ensures Run(c, s, es + fs) <==> Run(c, After(c, s, es), fs)
    ensures Run(c, s, es + fs) ==> After(c, s, es + fs) == After(c, After(c, s, es), fs)
    decreases |es|
  {
    if es == [] {
      assert es + fs == fs;
    } else {
      assert (es + fs)[0] == es[0] && (es + fs)[1..] == es[1..] + fs;
      RunConcat(c, Apply(c, s, es[0]), es[1..], fs);
    }
  }
}
