/** Durable-state-first recovery decisions. */
module Recovery {
  import opened Wrappers
  import opened RetryPolicy
  import opened Lifecycle

  datatype Action =
    | REUSE_OBSERVATION | RENORMALIZE_RAW | RECOVER_REQUEST | IDEMPOTENT_REPLAY
    | EXECUTE_NEW | SKIP | MARK_UNKNOWN

  datatype Decision = Decision(action: Action, observation: Option<Observation>, fallback: Option<Action>)

  /** Everything a worker is constructed with, plus two facts about its surroundings: whether stored raw
      responses always parse again, and whether the schema rejects a reused request id. */
  datatype Config = Config(
    retry: RetryConfig,
    idempotency: bool,
    requestRecovery: bool,
    stalenessThreshold: int,
    hash: Request -> Digest,
    reparses: bool,
    uniqueRequestIds: bool)
  {
    predicate Valid() {
      retry.Valid() && stalenessThreshold > 0
    }
  }

  /** What asking the target for an earlier request gives: nothing usable, a completed response, or a response that
      cannot be stored or normalized. */
  datatype RecoveryAnswer = NothingRecovered | RecoveredResponse(body: string) | RecoveryRaises

  function Decide0(action: Action): Decision {
    Decision(action, None, None)
  }

  /** The activity timestamp of an attempt is its last update, which every rewrite of the row stamps. */
  predicate IsAttemptStale(c: Config, latest: Option<Attempt>, now: int) {
    latest.None? || now - latest.value.updatedAt > c.stalenessThreshold
  }

  /** Renormalize the attached raw response; `parses` is false when reading or parsing it fails this time. */
  function TryRenormalize(db: Db, latest: Attempt, parses: bool): Option<Observation> {
    if latest.rawResponse.None? || !parses then None
    else
      var artifact := latest.rawResponse.value;
      if artifact < |db.artifacts| && db.artifacts[artifact].RawResponse? then
        Some(Normalize(latest.requestId, db.artifacts[artifact].body, artifact))
      else None
  }

  function DecideUncertain(c: Config, latest: Option<Attempt>): Decision {
    if latest.None? then Decide0(MARK_UNKNOWN)
    else if c.requestRecovery then
      Decision(RECOVER_REQUEST, None, Some(if c.idempotency then IDEMPOTENT_REPLAY else MARK_UNKNOWN))
    else if c.idempotency then Decide0(IDEMPOTENT_REPLAY)
    else Decide0(MARK_UNKNOWN)
  }

  function DecideRecovery(c: Config, db: Db, parses: bool, now: int): Decision {
    var latest := Latest(db.attempts);
    var renormalized := if latest.Some? then TryRenormalize(db, latest.value, parses) else None;
    if db.status == COMPLETE then Decide0(SKIP)
    else if latest.Some? && latest.value.observation.Some? then
      Decision(REUSE_OBSERVATION, latest.value.observation, None)
    else if renormalized.Some? then
      Decision(RENORMALIZE_RAW, renormalized, None)
    else if db.status == PENDING then Decide0(EXECUTE_NEW)
    else if db.status == RETRY_PENDING then Decide0(EXECUTE_NEW)
    else if db.status == RUNNING && !IsAttemptStale(c, latest, now) then Decide0(SKIP)
    else if db.status == UNKNOWN || db.status == INTERRUPTED || db.status == RUNNING then
      DecideUncertain(c, latest)
    else if db.status == FAILED then Decide0(SKIP)
    else Decide0(MARK_UNKNOWN)
  }
}
