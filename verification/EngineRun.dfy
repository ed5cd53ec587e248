/** The benchmark executor: one execution of one case, with its own transactions and failure path, and the status a
    run gets from the durable states of its cases. */
module EngineRun {
  import opened Wrappers
  import opened RetryPolicy
  import opened Lifecycle
  import opened Recovery
  import opened CaseWorker
  import opened ProtocolInvariants

  // ----- one case -----

  /** What the engine relies on between executions: a COMPLETE case has a persisted observation, and the latest
      attempt's response pointer leads to a stored response. */
  predicate EngineOk(db: Db) {
    && Numbered(db.attempts)
    && (db.status == COMPLETE ==> db.attempts != [] && Last(db.attempts).observation.Some?)
    && (db.attempts != [] && Last(db.attempts).rawResponse.Some? ==>
          var i := Last(db.attempts).rawResponse.value;
          i < |db.artifacts| && db.artifacts[i].RawResponse?)
  }

  /** The result of the latest attempt can be had without calling the target again. */
  predicate ResultAvailable(db: Db, parses: bool) {
    db.attempts != [] && (Last(db.attempts).observation.Some? || (Last(db.attempts).rawResponse.Some? && parses))
  }

  datatype Answer = Answered(body: string, normalizes: bool) | CallRaises

  datatype EngineResult = Skipped | Completed | Failed | Died

  // ----- what an execution comes to -----

  /** Resetting the case, unless it is PENDING, and registering the attempt. */
  function CommitsBeforeCall(status: CaseStatus): nat {
    if status == PENDING then 1 else 2
  }

  predicate FreshId(c: Config, db: Db, uuid: nat) {
    !c.uniqueRequestIds || !UsesRequestId(db.attempts, Uuid(uuid))
  }

  /** One case as the process finds it: its rows, how many more commits the process survives, the next fresh id, and how
      often the target has been called for it. */
  datatype CaseState = CaseState(c: Config, db: Db, commits: nat, uuid: nat, calls: nat)

  /** What the surroundings do while the case is executed. */
  datatype Surroundings = Surroundings(
    parses: bool, recovered: RecoveryAnswer, answer: Answer, scores: bool, error: ErrorRecord, now: int)

  /** The outcome of the latest attempt is uncertain, and the target can be asked for it. */
  predicate AsksTarget(s: CaseState, w: Surroundings) {
    && s.c.requestRecovery && s.db.attempts != [] && !ResultAvailable(s.db, w.parses)
    && (s.db.status in {UNKNOWN, INTERRUPTED} || (s.db.status == RUNNING && IsStale(s, w)))
  }

  predicate IsStale(s: CaseState, w: Surroundings)
    requires s.db.attempts != []
  {
    w.now - Last(s.db.attempts).updatedAt > s.c.stalenessThreshold
  }

  /** COMPLETE, or without a result and either FAILED or freshly RUNNING. */
  predicate LeftAlone(s: CaseState, w: Surroundings) {
    s.db.status == COMPLETE
    || (!ResultAvailable(s.db, w.parses)
        && (s.db.status == FAILED || (s.db.status == RUNNING && s.db.attempts != [] && !IsStale(s, w))))
  }

  /** A result is stored, or the target hands out the earlier one. */
  predicate HasResult(s: CaseState, w: Surroundings) {
    ResultAvailable(s.db, w.parses) || (AsksTarget(s, w) && w.recovered.RecoveredResponse?)
  }

  predicate RecoveryBreaks(s: CaseState, w: Surroundings) {
    AsksTarget(s, w) && w.recovered.RecoveryRaises?
  }

  /** The target is called exactly when the case is not left alone, no result is available or recovered, the commits
      before the call survive, and the id is new. An UNKNOWN case is no exception. */
  predicate CallsTarget(s: CaseState, w: Surroundings) {
    && !LeftAlone(s, w) && !HasResult(s, w) && !RecoveryBreaks(s, w)
    && s.commits >= CommitsBeforeCall(s.db.status) && FreshId(s.c, s.db, s.uuid)
  }

  /** How many commits an execution makes that does not die. */
  function CommitsNeeded(s: CaseState, w: Surroundings): nat {
    if LeftAlone(s, w) then 0
    else if HasResult(s, w) || RecoveryBreaks(s, w) then 1
    else CommitsBeforeCall(s.db.status) + if !FreshId(s.c, s.db, s.uuid) || w.answer.CallRaises? then 1 else 2
  }

  /** Scoring works on a result, which is there, is recovered, or is the target's normalizable answer to a new
      attempt. */
  predicate Succeeds(s: CaseState, w: Surroundings) {
    && w.scores && !RecoveryBreaks(s, w)
    && (HasResult(s, w) || (FreshId(s.c, s.db, s.uuid) && w.answer.Answered? && w.answer.normalizes))
  }

  function Outcome(s: CaseState, w: Surroundings): EngineResult {
    if LeftAlone(s, w) then Skipped
    else if s.commits < CommitsNeeded(s, w) then Died
    else if Succeeds(s, w) then Completed
    else Failed
  }

  /** What the recovery decision comes to, in terms of the rows. */
  lemma DecisionExactly(s: CaseState, w: Surroundings)
    requires EngineOk(s.db)
    ensures var d := DecideRecovery(s.c, s.db, w.parses, w.now);
            && (d.action == SKIP <==> LeftAlone(s, w))
            && (d.action == SKIP <==>
                  || s.db.status == COMPLETE
                  || (!ResultAvailable(s.db, w.parses) && s.db.status == FAILED)
                  || (!ResultAvailable(s.db, w.parses) && s.db.status == RUNNING && s.db.attempts != []
                      && w.now - Last(s.db.attempts).updatedAt <= s.c.stalenessThreshold))
            && (d.action == RECOVER_REQUEST <==> AsksTarget(s, w))
            && (d.action != SKIP ==> (d.observation.Some? <==> ResultAvailable(s.db, w.parses)))
            && (d.action == MARK_UNKNOWN ==> !LeftAlone(s, w) && !HasResult(s, w) && !RecoveryBreaks(s, w))
  {
    LatestIsLast(s.db.attempts);
  }

  /** No execution makes more than four commits, and one that finds a case PENDING does not leave it alone. */
  lemma FourCommitsSuffice(s: CaseState, w: Surroundings)
    ensures s.commits >= 4 ==> Outcome(s, w) != Died
    ensures s.db.status == PENDING ==> Outcome(s, w) != Skipped
  {
  }

  /** The answer to the latest attempt is stored, attached to it, and observed as it was given. */
  predicate AnswerKept(db: Db, requestId: RequestId, body: string) {
    db.attempts != [] &&
    var a := Last(db.attempts);
    && a.requestId == requestId && a.rawResponse.Some?
    && var k := a.rawResponse.value;
       && k < |db.artifacts| && db.artifacts[k] == RawResponse(requestId, body, false)
       && a.observation == Some(Observation(requestId, body, k))
  }

  /** What a completed execution observes: the observation that is there; else the attached response, when it can be
      read; else what the target hands out; else its answer to a new attempt. */
  predicate Observes(before: CaseState, w: Surroundings, db: Db) {
    && db.attempts != []
    && if ResultAvailable(before.db, w.parses) && Last(before.db.attempts).observation.Some? then
         Last(db.attempts).observation == Last(before.db.attempts).observation
       else if ResultAvailable(before.db, w.parses) then
         var k := Last(before.db.attempts).rawResponse.value;
         && k < |before.db.artifacts| && before.db.artifacts[k].RawResponse?
         && Last(db.attempts).observation ==
            Some(Observation(Last(before.db.attempts).requestId, before.db.artifacts[k].body, k))
       else if AsksTarget(before, w) && w.recovered.RecoveredResponse? then
         Last(db.attempts).observation ==
           Some(Observation(Last(before.db.attempts).requestId, w.recovered.body, |before.db.artifacts|))
       else w.answer.Answered? && AnswerKept(db, Uuid(before.uuid), w.answer.body)
  }

  /** Attempts before the latest one, and stored artifacts, are as they were. */
  predicate HistoryKept(before: Db, after: Db) {
    && |before.attempts| <= |after.attempts| && before.artifacts <= after.artifacts
    && (forall i :: 0 <= i < |before.attempts| && i < |after.attempts| - 1 ==> after.attempts[i] == before.attempts[i])
  }

  /** The failure is recorded on the latest attempt, as it was reported. */
  predicate FailureKept(db: Db, error: ErrorRecord) {
    && db.attempts != [] && Last(db.attempts).status == PERMANENT_FAILURE
    && Last(db.attempts).retryable == Some(false) && Last(db.attempts).error == Some(error)
  }

  /** The latest observation points at a stored raw response. */
  predicate ObservationStored(db: Db) {
    db.attempts != [] && Last(db.attempts).observation.Some? ==>
      var i := Last(db.attempts).observation.value.artifact;
      i < |db.artifacts| && db.artifacts[i].RawResponse?
  }

  class EngineCase {
    const c: Config
    const payload: Payload
    const store: CaseStore
    var nextUuid: nat
    /** How many more transactions the process survives; a process that has none left dies before the next commit. */
    var commitsLeft: nat
    ghost var calls: nat

    ghost function Current(): CaseState
      reads this, store
    {
      CaseState(c, store.Snapshot(), commitsLeft, nextUuid, calls)
    }

    constructor (c: Config, payload: Payload, store: CaseStore, nextUuid: nat, commitsLeft: nat)
      ensures this.c == c && this.payload == payload && this.store == store && calls == 0
    {
      this.c, this.payload, this.store, this.nextUuid := c, payload, store, nextUuid;
      this.commitsLeft, this.calls := commitsLeft, 0;
    }

    method Commit() returns (alive: bool)
      modifies this`commitsLeft
      ensures alive <==> old(commitsLeft) > 0
      ensures commitsLeft == old(commitsLeft) - if alive then 1 else 0
    {
      alive := commitsLeft > 0;
      if alive {
        commitsLeft := commitsLeft - 1;
      }
    }

    /** `_execute_case`, from any durable state, dying before any commit. `Outcome` says how it ends and `CallsTarget`
        whether it calls the target, at most once and only under a freshly registered attempt. A COMPLETE case is left
        alone, and a case it completes points at a stored response exactly when the result was not recovered. */
    method ExecuteCase(w: Surroundings) returns (r: EngineResult)
      requires EngineOk(store.Snapshot())
      modifies this, store
      ensures HistoryKept(old(store.Snapshot()), store.Snapshot())
      ensures EngineOk(store.Snapshot())
      ensures r == Outcome(old(Current()), w)
      ensures calls == old(calls) + if CallsTarget(old(Current()), w) then 1 else 0
      ensures old(store.status) == COMPLETE ==> r == Skipped
      ensures r == Completed ==> store.status == COMPLETE
      ensures r == Completed ==> Observes(old(Current()), w, store.Snapshot())
      ensures r == Failed ==> store.status == FAILED
      ensures r == Failed && CallsTarget(old(Current()), w) ==> FailureKept(store.Snapshot(), w.error)
      ensures r == Skipped ==> Current() == old(Current())
      ensures r == Died ==> store.status != COMPLETE
      ensures calls > old(calls) ==> |store.attempts| == |old(store.attempts)| + 1
      ensures old(ResultAvailable(store.Snapshot(), w.parses)) ==>
                calls == old(calls) && |store.attempts| == |old(store.attempts)|
      ensures r == Completed && ObservationStored(old(store.Snapshot())) ==>
                (ObservationStored(store.Snapshot()) <==>
                  !(AsksTarget(old(Current()), w) && w.recovered.RecoveredResponse?))
    {
      DecisionExactly(Current(), w);
      var latest := Latest(store.attempts);
      LatestIsLast(store.attempts);
      var decision := DecideRecovery(c, store.Snapshot(), w.parses, w.now);
      if decision.action == SKIP {
        return Skipped;
      }
      if decision.observation.Some? {
        r := Complete(AttemptsMade(latest), decision.observation.value, w);
      } else if decision.action == RECOVER_REQUEST && w.recovered.RecoveryRaises? {
        // The failure path runs under a placeholder id that no attempt has.
        r := Fail(None, w);
      } else if decision.action == RECOVER_REQUEST && w.recovered.RecoveredResponse? {
        // The session that stored the recovered response is closed without a commit: its artifact row is lost.
        var obs := Normalize(latest.value.requestId, w.recovered.body, |store.artifacts|);
        r := Complete(AttemptsMade(latest), obs, w);
      } else {
        r := ExecuteNewAttempt(w);
      }
    }

    /** `_reset_case_for_new_attempt`: back to PENDING, keeping the history. */
    method ResetCase() returns (alive: bool)
      requires store.status != COMPLETE
      modifies this`commitsLeft, store`status, store`finishedAt
      ensures alive <==> old(store.status) == PENDING || old(commitsLeft) > 0
      ensures alive && old(store.status) == PENDING ==> store.Snapshot() == old(store.Snapshot())
      ensures alive && old(store.status) != PENDING ==>
                store.Snapshot() == old(store.Snapshot()).(status := PENDING, finishedAt := None)
      ensures alive ==> commitsLeft == old(commitsLeft) - if old(store.status) == PENDING then 0 else 1
      ensures !alive ==> store.Snapshot() == old(store.Snapshot()) && commitsLeft == old(commitsLeft)
    {
      alive := true;
      if store.status != PENDING {
        alive := Commit();
        if alive {
          store.status, store.finishedAt := PENDING, None;
        }
      }
    }

    /** Every other decision, MARK_UNKNOWN included, resets the case and calls the target under a new attempt. */
    method ExecuteNewAttempt(w: Surroundings) returns (r: EngineResult)
      requires EngineOk(store.Snapshot()) && store.status != COMPLETE
      modifies this, store
      ensures HistoryKept(old(store.Snapshot()), store.Snapshot())
      ensures EngineOk(store.Snapshot()) && r != Skipped
      ensures r == Completed <==> store.status == COMPLETE
      ensures r == Failed ==> store.status == FAILED
      ensures calls > old(calls) ==> |store.attempts| == |old(store.attempts)| + 1
      ensures |store.attempts| <= |old(store.attempts)| + 1
      ensures var before := CommitsBeforeCall(old(store.status));
              var isNew := FreshId(c, old(store.Snapshot()), old(nextUuid));
              && calls == old(calls) + (if old(commitsLeft) >= before && isNew then 1 else 0)
              && (r == Died <==> old(commitsLeft) < before + if !isNew || w.answer.CallRaises? then 1 else 2)
              && (r == Completed <==>
                    r != Died && isNew && w.answer.Answered? && w.answer.normalizes && w.scores)
      ensures r == Completed ==> ObservationStored(store.Snapshot())
      ensures r == Completed ==> AnswerKept(store.Snapshot(), Uuid(old(nextUuid)), w.answer.body)
      ensures r == Failed && calls > old(calls) ==> FailureKept(store.Snapshot(), w.error)
    {
      var alive := ResetCase();
      if !alive {
        return Died;
      }
      r := RegisterAndCall(w);
    }

    /** Register the attempt, and call the target unless that failed. */
    method RegisterAndCall(w: Surroundings) returns (r: EngineResult)
      requires EngineOk(store.Snapshot()) && store.status == PENDING
      modifies this, store
      ensures HistoryKept(old(store.Snapshot()), store.Snapshot())
      ensures EngineOk(store.Snapshot()) && r != Skipped
      ensures r == Completed <==> store.status == COMPLETE
      ensures r == Failed ==> store.status == FAILED
      ensures |store.attempts| <= |old(store.attempts)| + 1
      ensures var isNew := FreshId(c, old(store.Snapshot()), old(nextUuid));
              && calls == old(calls) + (if old(commitsLeft) >= 1 && isNew then 1 else 0)
              && (r == Died <==> old(commitsLeft) < if !isNew || w.answer.CallRaises? then 2 else 3)
              && (r == Completed <==>
                    r != Died && isNew && w.answer.Answered? && w.answer.normalizes && w.scores)
      ensures calls > old(calls) ==> |store.attempts| == |old(store.attempts)| + 1
      ensures r == Completed ==> ObservationStored(store.Snapshot())
      ensures r == Completed ==> AnswerKept(store.Snapshot(), Uuid(old(nextUuid)), w.answer.body)
      ensures r == Failed && calls > old(calls) ==> FailureKept(store.Snapshot(), w.error)
    {
      var alive, id := RegisterAttempt(w.now);
      if !alive {
        return Died;
      }
      if id.None? {
        r := Fail(None, w);
        return;
      }
      calls := calls + 1;
      r := CallTarget(|store.attempts|, id.value, w);
    }

    /** `_register_attempt`: the attempt and its raw request under the next number; no id when the insert fails. */
    method RegisterAttempt(now: int) returns (alive: bool, id: Option<Identity>)
      requires Numbered(store.attempts)
      modifies this`nextUuid, this`commitsLeft, store
      ensures HistoryKept(old(store.Snapshot()), store.Snapshot())
      ensures alive <==> old(commitsLeft) > 0
      ensures alive ==> commitsLeft == old(commitsLeft) - 1
      ensures alive ==> (id.Some? <==> FreshId(c, old(store.Snapshot()), old(nextUuid)))
      ensures !alive || id.None? ==> store.Snapshot() == old(store.Snapshot())
      ensures alive && id.Some? ==>
                && Numbered(store.attempts) && |store.attempts| == |old(store.attempts)| + 1
                && store.status == RUNNING
                && Last(store.attempts).observation.None? && Last(store.attempts).rawResponse.None?
      ensures alive && id.Some? ==>
                var n, requestId := |old(store.attempts)|, Uuid(old(nextUuid));
                && id.value == Identity(requestId, AttemptKey(n + 1), c.hash(Request(Blank, payload)))
                && store.attempts[..n] == old(store.attempts) && Last(store.attempts).requestId == requestId
                && Last(store.attempts).key == Some(id.value.key) && Last(store.attempts).hash == Some(id.value.hash)
                && store.artifacts == old(store.artifacts) + [RawRequest(Request(requestId, payload), n + 1)]
    {
      LatestIsLast(store.attempts);
      var number := AttemptsMade(Latest(store.attempts)) + 1;
      var key := Identity(Uuid(nextUuid), AttemptKey(number), c.hash(Request(Blank, payload)));
      nextUuid := nextUuid + 1;
      alive := Commit();
      if !alive {
        return false, None;
      }
      var ok := store.PersistAttemptBeforeCall(c.uniqueRequestIds, number, Request(key.requestId, payload), key, now);
      id := if ok then Some(key) else None;
    }

    method CallTarget(number: nat, id: Identity, w: Surroundings) returns (r: EngineResult)
      requires EngineOk(store.Snapshot()) && store.status == RUNNING && number == |store.attempts| > 0
      requires Last(store.attempts).requestId == id.requestId
      modifies this, store
      ensures HistoryKept(old(store.Snapshot()), store.Snapshot())
      ensures EngineOk(store.Snapshot()) && r != Skipped && |store.attempts| == |old(store.attempts)|
      ensures r == Completed <==> store.status == COMPLETE
      ensures r == Failed ==> store.status == FAILED
      ensures calls == old(calls)
      ensures r == Died <==> old(commitsLeft) < if w.answer.CallRaises? then 1 else 2
      ensures r == Completed <==> r != Died && w.answer.Answered? && w.answer.normalizes && w.scores
      ensures r == Completed ==> Last(store.attempts).observation.Some?
      ensures r == Completed && Last(old(store.attempts)).observation.None? ==> ObservationStored(store.Snapshot())
      ensures r == Completed && Last(old(store.attempts)).observation.None? ==>
                AnswerKept(store.Snapshot(), id.requestId, w.answer.body)
      ensures r == Failed ==> FailureKept(store.Snapshot(), w.error)
    {
      if w.answer.CallRaises? {
        r := Fail(Some(number), w);
        return;
      }
      r := HandleResponse(number, id, w);
    }

    /** The response is stored and attached before it is normalized. */
    method HandleResponse(number: nat, id: Identity, w: Surroundings) returns (r: EngineResult)
      requires EngineOk(store.Snapshot()) && store.status == RUNNING && number == |store.attempts| > 0
      requires w.answer.Answered? && Last(store.attempts).requestId == id.requestId
      modifies this, store
      ensures HistoryKept(old(store.Snapshot()), store.Snapshot())
      ensures EngineOk(store.Snapshot()) && r != Skipped && |store.attempts| == |old(store.attempts)|
      ensures r == Completed <==> store.status == COMPLETE
      ensures r == Failed ==> store.status == FAILED
      ensures calls == old(calls)
      ensures r == Died <==> old(commitsLeft) < 2
      ensures r == Completed <==> r != Died && w.answer.normalizes && w.scores
      ensures r == Completed ==> Last(store.attempts).observation.Some?
      ensures r == Completed && Last(old(store.attempts)).observation.None? ==> ObservationStored(store.Snapshot())
      ensures r == Completed && Last(old(store.attempts)).observation.None? ==>
                AnswerKept(store.Snapshot(), id.requestId, w.answer.body)
      ensures r == Failed ==> FailureKept(store.Snapshot(), w.error)
    {
      var alive := PersistResponse(number, id, w.answer.body, w.now);
      if !alive {
        return Died;
      }
      if !w.answer.normalizes {
        r := Fail(Some(number), w);
        return;
      }
      r := Complete(number, Normalize(id.requestId, w.answer.body, |store.artifacts| - 1), w);
    }

    /** `_persist_raw_response`. */
    method PersistResponse(number: nat, id: Identity, body: string, now: int) returns (alive: bool)
      requires EngineOk(store.Snapshot()) && store.status == RUNNING && number == |store.attempts| > 0
      modifies this`commitsLeft, store
      ensures HistoryKept(old(store.Snapshot()), store.Snapshot())
      ensures EngineOk(store.Snapshot()) && store.status == RUNNING && |store.attempts| == |old(store.attempts)|
      ensures alive <==> old(commitsLeft) > 0
      ensures commitsLeft == old(commitsLeft) - if alive then 1 else 0
      ensures !alive ==> store.Snapshot() == old(store.Snapshot())
      ensures alive ==> store.artifacts == old(store.artifacts) + [RawResponse(id.requestId, body, false)]
      ensures Last(store.attempts).observation == Last(old(store.attempts)).observation
      ensures Last(store.attempts).requestId == Last(old(store.attempts)).requestId
      ensures alive ==> Last(store.attempts).rawResponse == Some(|store.artifacts| - 1)
    {
      alive := Commit();
      if alive {
        var artifact := |store.artifacts|;
        store.UpdateRow(number, (a: Attempt) => a.(rawResponse := Some(artifact), updatedAt := now));
        store.artifacts := store.artifacts + [RawResponse(id.requestId, body, false)];
      }
    }

    /** The observation, the metric results and the COMPLETE status commit together; when scoring raises, none of
        them does and the failure path runs. */
    method Complete(number: nat, obs: Observation, w: Surroundings) returns (r: EngineResult)
      requires EngineOk(store.Snapshot()) && store.status != COMPLETE && number == |store.attempts| > 0
      modifies this, store
      ensures HistoryKept(old(store.Snapshot()), store.Snapshot())
      ensures EngineOk(store.Snapshot()) && r != Skipped
      ensures r == Completed <==> store.status == COMPLETE
      ensures r == Died <==> old(commitsLeft) == 0
      ensures r == Completed <==> r != Died && w.scores
      ensures r == Failed ==> store.status == FAILED
      ensures |store.attempts| == |old(store.attempts)| && calls == old(calls)
      ensures r == Failed ==> FailureKept(store.Snapshot(), w.error)
      ensures r != Died ==> store.finishedAt == Some(w.now) == Last(store.attempts).finishedAt
      ensures r == Completed ==> Last(store.attempts).status == RESPONSE_RECEIVED
      ensures r == Completed ==>
                && store.artifacts == old(store.artifacts)
                && Last(store.attempts).requestId == Last(old(store.attempts)).requestId
                && Last(store.attempts).rawResponse == Last(old(store.attempts)).rawResponse
                && Last(store.attempts).observation ==
                   (if Last(old(store.attempts)).observation.None? then Some(obs)
                    else Last(old(store.attempts)).observation)
    {
      if !w.scores {
        r := Fail(Some(number), w);
        return;
      }
      var alive := Commit();
      if !alive {
        return Died;
      }
      store.UpdateRow(number, (a: Attempt) =>
        (if a.observation.None? then a.(observation := Some(obs)) else a)
          .(status := RESPONSE_RECEIVED, finishedAt := Some(w.now), updatedAt := w.now));
      store.status, store.finishedAt := COMPLETE, Some(w.now);
      return Completed;
    }

    /** The failure path. It keeps an attached response, so a later execution can still recover it. */
    method Fail(attempt: Option<nat>, w: Surroundings) returns (r: EngineResult)
      requires EngineOk(store.Snapshot()) && store.status != COMPLETE
      modifies this, store
      ensures attempt.None? || attempt.value >= |old(store.attempts)| ==>
                HistoryKept(old(store.Snapshot()), store.Snapshot())
      ensures EngineOk(store.Snapshot()) && r in {Failed, Died}
      ensures r == Died <==> old(commitsLeft) == 0
      ensures r == Failed ==> store.status == FAILED
      ensures r == Died ==> store.Snapshot() == old(store.Snapshot())
      ensures r == Failed ==> store.finishedAt == Some(w.now)
      ensures r == Failed && store.attempts != [] && attempt == Some(|store.attempts|) ==>
                FailureKept(store.Snapshot(), w.error) && Last(store.attempts).finishedAt == Some(w.now)
      ensures |store.attempts| == |old(store.attempts)| && calls == old(calls)
      ensures store.attempts != [] ==>
                Last(store.attempts).rawResponse == Last(old(store.attempts)).rawResponse
                && Last(store.attempts).observation == Last(old(store.attempts)).observation
    {
      var alive := Commit();
      if !alive {
        return Died;
      }
      if attempt.Some? {
        store.UpdateRow(attempt.value, (a: Attempt) =>
          a.(status := PERMANENT_FAILURE, finishedAt := Some(w.now), updatedAt := w.now, retryable := Some(false),
             error := Some(w.error)));
      }
      store.status, store.finishedAt := FAILED, Some(w.now);
      return Failed;
    }
  }

  // ----- the run -----

  datatype RunStatus = RUN_RUNNING | RUN_COMPLETE | RUN_FAILED | RUN_COMPLETED_WITH_ERRORS

  predicate IsFinished(status: CaseStatus) {
    status == COMPLETE || status == FAILED
  }

  function Count(statuses: seq<CaseStatus>, among: set<CaseStatus>): nat {
    if statuses == [] then 0
    else Count(statuses[..|statuses| - 1], among) + if statuses[|statuses| - 1] in among then 1 else 0
  }

  lemma {:induction false} CountExactly(statuses: seq<CaseStatus>, among: set<CaseStatus>)
    ensures Count(statuses, among) <= |statuses|
    ensures Count(statuses, among) > 0 <==> exists i :: 0 <= i < |statuses| && statuses[i] in among
    ensures Count(statuses, among) == |statuses| <==> forall i :: 0 <= i < |statuses| ==> statuses[i] in among
  {
    if statuses != [] {
      CountExactly(statuses[..|statuses| - 1], among);
    }
  }

  method CountIn(statuses: seq<CaseStatus>, among: set<CaseStatus>) returns (n: nat)
    ensures n == Count(statuses, among)
  {
    n := 0;
    for i := 0 to |statuses|
      invariant n == Count(statuses[..i], among)
    {
      assert statuses[..i + 1][..i] == statuses[..i];
      n := n + if statuses[i] in among then 1 else 0;
    }
    assert statuses[..|statuses|] == statuses;
  }

  const UNFINISHED := {PENDING, RUNNING, TARGET_COMPLETE, SCORING, RETRY_PENDING, INTERRUPTED, UNKNOWN}

  /** `_finish_run`: the run status says exactly how its cases stand, and `finished_at` is unset exactly while some
      case is unfinished. */
  method FinishRun(statuses: seq<CaseStatus>, failed: bool, now: int)
    returns (status: RunStatus, finishedAt: Option<int>)
    ensures status == RUN_RUNNING <==>
              exists i :: 0 <= i < |statuses| && statuses[i] != COMPLETE && statuses[i] != FAILED
    ensures status == RUN_COMPLETED_WITH_ERRORS <==>
              && (forall i :: 0 <= i < |statuses| ==> statuses[i] == COMPLETE || statuses[i] == FAILED)
              && COMPLETE in statuses && FAILED in statuses
    ensures status == RUN_COMPLETE <==> !failed && forall i :: 0 <= i < |statuses| ==> statuses[i] == COMPLETE
    ensures status == RUN_FAILED <==>
              || (statuses != [] && forall i :: 0 <= i < |statuses| ==> statuses[i] == FAILED)
              || (failed && forall i :: 0 <= i < |statuses| ==> statuses[i] == COMPLETE)
    ensures finishedAt == if status == RUN_RUNNING then None else Some(now)
  {
    var complete := CountIn(statuses, {COMPLETE});
    var failures := CountIn(statuses, {FAILED});
    var unfinished := CountIn(statuses, UNFINISHED);
    CountExactly(statuses, {COMPLETE});
    CountExactly(statuses, {FAILED});
    CountExactly(statuses, UNFINISHED);
    if unfinished > 0 {
      status := RUN_RUNNING;
    } else if complete > 0 && failures > 0 {
      status := RUN_COMPLETED_WITH_ERRORS;
    } else if failed || failures > 0 {
      status := RUN_FAILED;
    } else if complete == |statuses| {
      status := RUN_COMPLETE;
    } else {
      status := RUN_RUNNING;
    }
    finishedAt := if status == RUN_RUNNING then None else Some(now);
  }

  /** With one executor a case that raised is not COMPLETE afterwards, so the run is COMPLETE exactly when all its
      cases are. */
  method FinishAfterPass(statuses: seq<CaseStatus>, raised: seq<bool>, now: int)
    returns (status: RunStatus, finishedAt: Option<int>)
    requires |raised| == |statuses|
    requires forall i :: 0 <= i < |raised| && raised[i] ==> statuses[i] != COMPLETE
    ensures status == RUN_COMPLETE <==> forall i :: 0 <= i < |statuses| ==> statuses[i] == COMPLETE
    ensures status == RUN_FAILED <==> statuses != [] && forall i :: 0 <= i < |statuses| ==> statuses[i] == FAILED
    ensures status == RUN_COMPLETED_WITH_ERRORS <==>
              && (forall i :: 0 <= i < |statuses| ==> IsFinished(statuses[i]))
              && COMPLETE in statuses && FAILED in statuses
    ensures finishedAt.None? <==> exists i :: 0 <= i < |statuses| && !IsFinished(statuses[i])
  {
    status, finishedAt := FinishRun(statuses, exists i :: 0 <= i < |raised| && raised[i], now);
  }

  // ----- one pass over a run -----

  predicate Separate(cases: seq<EngineCase>) {
    forall i, j :: 0 <= i < j < |cases| ==> cases[i] != cases[j] && cases[i].store != cases[j].store
  }

  function Stores(cases: seq<EngineCase>): set<CaseStore> {
    set i | 0 <= i < |cases| :: cases[i].store
  }

  ghost predicate AllOk(cases: seq<EngineCase>)
    reads Stores(cases)
  {
    forall i :: 0 <= i < |cases| ==> EngineOk(cases[i].store.Snapshot())
  }

  function Statuses(cases: seq<EngineCase>): (statuses: seq<CaseStatus>)
    reads Stores(cases)
  {
    seq(|cases|, i requires 0 <= i < |cases| reads Stores(cases) => cases[i].store.status)
  }

  /** A requested subset is restricted to PENDING cases; otherwise everything that is not COMPLETE is executed. */
  predicate Selected(requested: Option<set<nat>>, i: nat, status: CaseStatus) {
    if requested.Some? then i in requested.value && status == PENDING else status != COMPLETE
  }

  ghost function States(cases: seq<EngineCase>): (states: seq<CaseState>)
    reads cases, Stores(cases)
  {
    seq(|cases|, i requires 0 <= i < |cases| reads cases, Stores(cases) => cases[i].Current())
  }

  /** One execution happened, and the process survived it. */
  ghost predicate Executed(before: CaseState, after: CaseState, w: Surroundings) {
    && after.calls == before.calls + (if CallsTarget(before, w) then 1 else 0)
    && match Outcome(before, w)
       case Skipped => after == before
       case Completed => after.db.status == COMPLETE && Observes(before, w, after.db)
       case Failed => after.db.status == FAILED
       case Died => false
  }

  /** Of a pass with `todo` left: selected cases have been executed, each once, and all others are as they were. */
  ghost predicate PassOk(requested: Option<set<nat>>, world: nat -> Surroundings, before: seq<CaseState>,
                   after: seq<CaseState>, todo: set<nat>)
    requires |before| == |after|
  {
    forall k :: 0 <= k < |before| ==>
      if k !in todo && Selected(requested, k, before[k].db.status) then Executed(before[k], after[k], world(k))
      else after[k] == before[k]
  }

  /** No selected execution runs out of commits. */
  predicate PassSurvives(requested: Option<set<nat>>, world: nat -> Surroundings, before: seq<CaseState>) {
    forall k :: 0 <= k < |before| && Selected(requested, k, before[k].db.status) ==>
      Outcome(before[k], world(k)) != Died
  }

  /** What a pass comes to, case by case: without a requested subset every case that is not COMPLETE is executed,
      with one exactly its PENDING cases, and no other case is touched. */
  lemma PassExactly(requested: Option<set<nat>>, world: nat -> Surroundings, before: seq<CaseState>,
                    after: seq<CaseState>, k: nat)
    requires |before| == |after| && k < |before| && PassOk(requested, world, before, after, {})
    ensures var status := before[k].db.status;
            if requested == None && status != COMPLETE then Executed(before[k], after[k], world(k))
            else if requested.Some? && k in requested.value && status == PENDING then
              Executed(before[k], after[k], world(k))
            else after[k] == before[k]
  {
  }

  /** Cases that were not selected are as they were. */
  ghost predicate UnselectedKept(requested: Option<set<nat>>, before: seq<CaseState>, after: seq<CaseState>)
    requires |before| == |after|
  {
    forall k :: 0 <= k < |before| && !Selected(requested, k, before[k].db.status) ==> after[k] == before[k]
  }

  /** The executions that raised are the selected ones, done by now, that failed. */
  predicate RaisedOk(requested: Option<set<nat>>, world: nat -> Surroundings, before: seq<CaseState>, todo: set<nat>,
                     raised: seq<bool>) {
    |raised| == |before| &&
    forall k :: 0 <= k < |before| ==>
      (raised[k] <==>
        k !in todo && Selected(requested, k, before[k].db.status) && Outcome(before[k], world(k)) == Failed)
  }

  /** A case whose execution raised is not COMPLETE. */
  predicate RaisedIncomplete(after: seq<CaseState>, raised: seq<bool>) {
    |raised| == |after| && forall k :: 0 <= k < |after| && raised[k] ==> after[k].db.status != COMPLETE
  }

  /** One case; the others keep their state. */
  method ExecuteOne(cases: seq<EngineCase>, i: nat, w: Surroundings) returns (r: EngineResult)
    requires Separate(cases) && AllOk(cases) && i < |cases|
    modifies cases[i], cases[i].store
    ensures AllOk(cases)
    ensures States(cases) == old(States(cases))[i := cases[i].Current()]
    ensures r == Outcome(old(cases[i].Current()), w)
    ensures r != Died ==> Executed(old(cases[i].Current()), cases[i].Current(), w)
    ensures r in {Failed, Died} ==> cases[i].store.status != COMPLETE
  {
    assert forall k :: 0 <= k < |cases| && k != i ==> cases[k].store != cases[i].store && cases[k] != cases[i];
    r := cases[i].ExecuteCase(w);
  }

  lemma PassStep(requested: Option<set<nat>>, world: nat -> Surroundings, before: seq<CaseState>, now: seq<CaseState>,
                 todo: set<nat>, raised: seq<bool>, i: nat, state: CaseState)
    requires |now| == |before| && i < |now| && i in todo && Selected(requested, i, before[i].db.status)
    requires PassOk(requested, world, before, now, todo) && Executed(before[i], state, world(i))
    requires RaisedOk(requested, world, before, todo, raised)
    ensures PassOk(requested, world, before, now[i := state], todo - {i})
    ensures RaisedOk(requested, world, before, todo - {i}, raised[i := Outcome(before[i], world(i)) == Failed])
  {
  }

  lemma PassDies(requested: Option<set<nat>>, world: nat -> Surroundings, before: seq<CaseState>, now: seq<CaseState>,
                 todo: set<nat>, i: nat, state: CaseState)
    requires |now| == |before| && i < |now| && i in todo && Selected(requested, i, before[i].db.status)
    requires PassOk(requested, world, before, now, todo) && Outcome(before[i], world(i)) == Died
    ensures !PassSurvives(requested, world, before) && UnselectedKept(requested, before, now[i := state])
  {
  }

  lemma PassEnds(requested: Option<set<nat>>, world: nat -> Surroundings, before: seq<CaseState>, after: seq<CaseState>,
                 raised: seq<bool>)
    requires |before| == |after| && PassOk(requested, world, before, after, {})
    requires RaisedOk(requested, world, before, {}, raised)
    ensures PassSurvives(requested, world, before) && RaisedIncomplete(after, raised)
    ensures UnselectedKept(requested, before, after)
  {
  }

  /** One selected case of a pass. */
  method ExecuteNext(cases: seq<EngineCase>, requested: Option<set<nat>>, world: nat -> Surroundings,
                     ghost before: seq<CaseState>, ghost todo: set<nat>, raised: seq<bool>, i: nat)
    returns (alive: bool, raised': seq<bool>)
    requires Separate(cases) && AllOk(cases) && |before| == |cases| && i < |cases| && i in todo
    requires Selected(requested, i, before[i].db.status)
    requires PassOk(requested, world, before, States(cases), todo) && RaisedOk(requested, world, before, todo, raised)
    modifies cases[i], cases[i].store
    ensures AllOk(cases)
    ensures alive ==> PassOk(requested, world, before, States(cases), todo - {i})
    ensures alive ==> RaisedOk(requested, world, before, todo - {i}, raised')
    ensures !alive ==> |raised'| == |raised| && !PassSurvives(requested, world, before)
    ensures !alive ==> UnselectedKept(requested, before, States(cases))
  {
    ghost var now := States(cases);
    assert cases[i].Current() == now[i] == before[i];
    var r := ExecuteOne(cases, i, world(i));
    if r == Died {
      PassDies(requested, world, before, now, todo, i, cases[i].Current());
      return false, raised;
    }
    PassStep(requested, world, before, now, todo, raised, i, cases[i].Current());
    return true, raised[i := r == Failed];
  }

  /** The executions of one pass, in any order and until the process dies; `raised` says which of them raised. */
  method ExecuteSelected(cases: seq<EngineCase>, requested: Option<set<nat>>, world: nat -> Surroundings)
    returns (alive: bool, raised: seq<bool>)
    requires Separate(cases) && AllOk(cases)
    modifies cases, Stores(cases)
    ensures AllOk(cases) && |raised| == |cases|
    ensures alive <==> PassSurvives(requested, world, old(States(cases)))
    ensures alive ==> PassOk(requested, world, old(States(cases)), States(cases), {})
    ensures alive ==> RaisedOk(requested, world, old(States(cases)), {}, raised)
    ensures UnselectedKept(requested, old(States(cases)), States(cases))
  {
    ghost var before := States(cases);
    var statuses := Statuses(cases);
    raised := seq(|cases|, _ => false);
    var todo := set i: nat | i < |cases| && Selected(requested, i, statuses[i]);
    while todo != {}
      invariant AllOk(cases) && RaisedOk(requested, world, before, todo, raised)
      invariant forall k :: k in todo ==> k < |cases| && Selected(requested, k, before[k].db.status)
      invariant PassOk(requested, world, before, States(cases), todo)
      decreases todo
    {
      var i :| i in todo;
      alive, raised := ExecuteNext(cases, requested, world, before, todo, raised, i);
      if !alive {
        return;
      }
      todo := todo - {i};
    }
    PassEnds(requested, world, before, States(cases), raised);
    alive := true;
  }

  /** `_finish_run` over the durable rows after the pass. */
  method Conclude(cases: seq<EngineCase>, raised: seq<bool>, now: int)
    returns (status: RunStatus, finishedAt: Option<int>)
    requires RaisedIncomplete(States(cases), raised)
    ensures status == RUN_COMPLETE <==> forall i :: 0 <= i < |cases| ==> cases[i].store.status == COMPLETE
    ensures status == RUN_COMPLETED_WITH_ERRORS <==>
              && (forall i :: 0 <= i < |cases| ==> IsFinished(cases[i].store.status))
              && COMPLETE in Statuses(cases) && FAILED in Statuses(cases)
    ensures status == RUN_FAILED <==>
              cases != [] && forall i :: 0 <= i < |cases| ==> cases[i].store.status == FAILED
    ensures finishedAt.None? <==> exists i :: 0 <= i < |cases| && !IsFinished(cases[i].store.status)
  {
    var statuses := Statuses(cases);
    assert forall i :: 0 <= i < |cases| ==> statuses[i] == cases[i].store.status;
    status, finishedAt := FinishAfterPass(statuses, raised, now);
    assert statuses == Statuses(cases);
  }

  /** `execute`: the selected cases, then the run status; none exactly when some selected execution does not survive
      its commits. Whatever the surroundings do, unselected cases, COMPLETE ones among them, are untouched, every
      selected case is executed once, and the status of a finished pass says exactly how the cases stand. */
  method ExecuteRun(cases: seq<EngineCase>, requested: Option<set<nat>>, world: nat -> Surroundings, now: int)
    returns (status: Option<RunStatus>, finishedAt: Option<int>)
    requires Separate(cases) && AllOk(cases)
    modifies cases, Stores(cases)
    ensures AllOk(cases)
    ensures status.Some? <==> PassSurvives(requested, world, old(States(cases)))
    ensures status.Some? ==> PassOk(requested, world, old(States(cases)), States(cases), {})
    ensures UnselectedKept(requested, old(States(cases)), States(cases))
    ensures status.Some? ==>
              (status.value == RUN_COMPLETE <==> forall i :: 0 <= i < |cases| ==> cases[i].store.status == COMPLETE)
    ensures status.Some? ==>
              (status.value == RUN_COMPLETED_WITH_ERRORS <==>
                && (forall i :: 0 <= i < |cases| ==> IsFinished(cases[i].store.status))
                && COMPLETE in Statuses(cases) && FAILED in Statuses(cases))
    ensures status.Some? ==>
              (status.value == RUN_FAILED <==>
                cases != [] && forall i :: 0 <= i < |cases| ==> cases[i].store.status == FAILED)
    ensures status.Some? ==>
              (finishedAt.None? <==> exists i :: 0 <= i < |cases| && !IsFinished(cases[i].store.status))
  {
    var alive, raised := ExecuteSelected(cases, requested, world);
    if !alive {
      return None, None;
    }
    PassEnds(requested, world, old(States(cases)), States(cases), raised);
    var final, finished := Conclude(cases, raised, now);
    return Some(final), finished;
  }
}
