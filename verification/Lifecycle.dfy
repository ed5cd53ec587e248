/** Durable state of one logical case execution and the short transactions that change it.
    One `Db` value is what a fresh session would read; one function below is one committed transaction. */
module Lifecycle {
  import opened Wrappers
  import opened RetryPolicy

  datatype CaseStatus =
    | PENDING | RUNNING | TARGET_COMPLETE | SCORING | COMPLETE
    | FAILED | RETRY_PENDING | INTERRUPTED | UNKNOWN

  datatype AttemptStatus =
    | CREATED | ATTEMPT_RUNNING | RESPONSE_RECEIVED | NORMALIZED | SUCCEEDED
    | RETRYABLE_FAILURE | PERMANENT_FAILURE | UNKNOWN_OUTCOME

  /** The base request carries a blank request id; generated ids are fresh. */
  datatype RequestId = Blank | Uuid(serial: nat)

  /** An idempotency key is the attempt id of the attempt that first used it. */
  datatype Key = AttemptKey(number: nat)

  datatype QueryMode = QUERY | RETRIEVAL

  datatype Payload = Payload(
    mode: QueryMode,
    corpusId: Option<string>,
    query: string,
    history: seq<string>,
    parameters: map<string, string>)

  datatype Request = Request(requestId: RequestId, payload: Payload)

  type Digest = string

  datatype Identity = Identity(requestId: RequestId, key: Key, hash: Digest)

  datatype Artifact =
    | RawRequest(request: Request, attempt: nat)
    | RawResponse(requestId: RequestId, body: string, recovered: bool)

  /** A normalized target observation; `artifact` points at the raw response behind it. */
  datatype Observation = Observation(requestId: RequestId, body: string, artifact: nat)

  datatype Attempt = Attempt(
    number: nat,
    requestId: RequestId,
    key: Option<Key>,
    hash: Option<Digest>,
    status: AttemptStatus,
    startedAt: Option<int>,
    finishedAt: Option<int>,
    updatedAt: int,
    retryable: Option<bool>,
    error: Option<ErrorRecord>,
    rawRequest: Option<nat>,
    rawResponse: Option<nat>,
    observation: Option<Observation>)

  datatype Db = Db(
    status: CaseStatus,
    startedAt: Option<int>,
    finishedAt: Option<int>,
    attempts: seq<Attempt>,
    artifacts: seq<Artifact>)

  const INITIAL_DB := Db(PENDING, None, None, [], [])

  // ----- queries -----

  /** The attempt with the highest number. */
  function Latest(attempts: seq<Attempt>): Option<Attempt> {
    if attempts == [] then None
    else
      var rest := Latest(attempts[..|attempts| - 1]);
      var last := attempts[|attempts| - 1];
      if rest.Some? && rest.value.number > last.number then rest else Some(last)
  }

  predicate HasAttempt(attempts: seq<Attempt>, number: nat) {
    exists i :: 0 <= i < |attempts| && attempts[i].number == number
  }

  predicate UsesRequestId(attempts: seq<Attempt>, requestId: RequestId) {
    exists i :: 0 <= i < |attempts| && attempts[i].requestId == requestId
  }

  function AttemptsMade(latest: Option<Attempt>): nat {
    if latest.Some? then latest.value.number else 0
  }

  function Normalize(requestId: RequestId, body: string, artifact: nat): Observation {
    Observation(requestId, body, artifact)
  }

  // ----- row updates -----

  function UpdateAttempt(attempts: seq<Attempt>, number: nat, f: Attempt -> Attempt): (r: seq<Attempt>)
    ensures |r| == |attempts|
    ensures forall i :: 0 <= i < |r| ==> r[i] == if attempts[i].number == number then f(attempts[i]) else attempts[i]
  {
    seq(|attempts|, i requires 0 <= i < |attempts| =>
      if attempts[i].number == number then f(attempts[i]) else attempts[i])
  }

  function Received(a: Attempt, now: int): Attempt {
    a.(status := RESPONSE_RECEIVED, finishedAt := Some(now), updatedAt := now, retryable := Some(false), error := None)
  }

  // ----- transactions -----

  /** Insert the RUNNING attempt and its raw request; an attempt-number clash, or a reused request id when the
      schema declares it unique, makes the whole transaction fail. */
  function PersistAttempt(db: Db, unique: bool, number: nat, request: Request, id: Identity, now: int): Option<Db> {
    if HasAttempt(db.attempts, number) || (unique && UsesRequestId(db.attempts, id.requestId)) then None
    else
      var a := Attempt(number, id.requestId, Some(id.key), Some(id.hash), ATTEMPT_RUNNING, Some(now), None, now,
                       None, None, Some(|db.artifacts|), None, None);
      Some(Db(RUNNING, Some(now), None, db.attempts + [a], db.artifacts + [RawRequest(request, number)]))
  }

  function PersistRawResponse(db: Db, number: nat, requestId: RequestId, body: string, now: int): Db {
    var artifact := |db.artifacts|;
    db.(attempts := UpdateAttempt(db.attempts, number,
                                  (a: Attempt) => Received(a.(rawResponse := Some(artifact)), now)),
        artifacts := db.artifacts + [RawResponse(requestId, body, false)])
  }

  function PersistCompletedObservation(db: Db, number: nat, obs: Observation, now: int): Db {
    db.(attempts := UpdateAttempt(db.attempts, number, (a: Attempt) => Received(a.(observation := Some(obs)), now)),
        status := TARGET_COMPLETE, finishedAt := Some(now))
  }

  /** An observation that is already there is kept. */
  function PersistRecoveredObservation(db: Db, number: nat, obs: Observation, now: int): Db {
    db.(attempts := UpdateAttempt(db.attempts, number, (a: Attempt) =>
          Received(if a.observation.None? then a.(observation := Some(obs)) else a, now)),
        status := TARGET_COMPLETE, finishedAt := Some(now))
  }

  function RepairTargetComplete(db: Db, number: nat, now: int): Db {
    db.(attempts := UpdateAttempt(db.attempts, number, (a: Attempt) => Received(a, now)),
        status := TARGET_COMPLETE, finishedAt := Some(now))
  }

  function PersistFailedAttempt(db: Db, number: nat, error: ErrorRecord, willRetry: bool, now: int): Db {
    db.(attempts := UpdateAttempt(db.attempts, number, (a: Attempt) =>
          a.(status := if willRetry then RETRYABLE_FAILURE else PERMANENT_FAILURE,
             finishedAt := Some(now), updatedAt := now, retryable := Some(willRetry), error := Some(error))),
        status := if willRetry then RETRY_PENDING else FAILED,
        finishedAt := if willRetry then None else Some(now))
  }

  function MarkUnknown(db: Db): Db {
    db.(status := UNKNOWN)
  }

  /** A response obtained by request recovery is stored but not attached to any attempt. */
  function StoreRecoveredResponse(db: Db, requestId: RequestId, body: string): Db {
    db.(artifacts := db.artifacts + [RawResponse(requestId, body, true)])
  }
}
