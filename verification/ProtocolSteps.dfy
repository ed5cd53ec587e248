/** What a restart, a retry and a call come to, in terms of the rows alone. */
module ProtocolSteps {
  import opened Wrappers
  import opened RetryPolicy
  import opened Lifecycle
  import opened Recovery
  import opened CaseProtocol
  import opened ProtocolInvariants
  import opened ProtocolExactness

  // ----- the decision of a restarted worker -----

  /** The latest attempt holds an observation. */
  predicate Observed(db: Db) {
    db.attempts != [] && Last(db.attempts).observation.Some?
  }

  /** The latest attempt points at a stored response, and it can be read this time. */
  predicate Readable(db: Db, parses: bool) {
    && parses && db.attempts != [] && Last(db.attempts).rawResponse.Some?
    && var k := Last(db.attempts).rawResponse.value;
       k < |db.artifacts| && db.artifacts[k].RawResponse?
  }

  /** Not decided by what the rows hold, and nobody can be at work on it. */
  predicate Abandoned(c: Config, db: Db, now: int) {
    || db.status in {UNKNOWN, INTERRUPTED}
    || (db.status == RUNNING &&
        (db.attempts == [] || now - Last(db.attempts).updatedAt > c.stalenessThreshold))
  }

  /** Each of the seven actions, exactly. A result in the rows goes before everything but COMPLETE, and a RUNNING case
      is left alone exactly until its attempt has been silent for longer than the threshold. */
  lemma DecisionTable(c: Config, db: Db, parses: bool, now: int)
    requires Numbered(db.attempts)
    ensures var d := DecideRecovery(c, db, parses, now);
            var result := Observed(db) || Readable(db, parses);
            && (d.action == SKIP <==>
                  || db.status == COMPLETE
                  || (!result && db.status == FAILED)
                  || (!result && db.status == RUNNING && db.attempts != []
                      && now - Last(db.attempts).updatedAt <= c.stalenessThreshold))
            && (d.action == REUSE_OBSERVATION <==> db.status != COMPLETE && Observed(db))
            && (d.action == RENORMALIZE_RAW <==> db.status != COMPLETE && !Observed(db) && Readable(db, parses))
            && (d.action == EXECUTE_NEW <==> !result && db.status in {PENDING, RETRY_PENDING})
            && (d.action == RECOVER_REQUEST <==>
                  !result && Abandoned(c, db, now) && db.attempts != [] && c.requestRecovery)
            && (d.action == IDEMPOTENT_REPLAY <==>
                  !result && Abandoned(c, db, now) && db.attempts != [] && !c.requestRecovery && c.idempotency)
            && (d.action == MARK_UNKNOWN <==>
                  && !result
                  && (|| db.status in {TARGET_COMPLETE, SCORING}
                      || (Abandoned(c, db, now) && (db.attempts == [] || (!c.requestRecovery && !c.idempotency)))))
            && (d.action == REUSE_OBSERVATION ==> d.observation == Last(db.attempts).observation)
            && (d.action == RENORMALIZE_RAW ==>
                  var k := Last(db.attempts).rawResponse.value;
                  d.observation == Some(Observation(Last(db.attempts).requestId, db.artifacts[k].body, k)))
            && (d.action == RECOVER_REQUEST ==>
                  d.fallback == Some(if c.idempotency then IDEMPOTENT_REPLAY else MARK_UNKNOWN))
  {
    LatestIsLast(db.attempts);
  }

  // ----- a call that may still be live -----

  /** A call was begun and nothing about its outcome is recorded. */
  predicate Silent(db: Db) {
    && db.status == RUNNING && db.attempts != []
    && Last(db.attempts).observation.None? && Last(db.attempts).rawResponse.None?
  }

  /** No worker is at work on the case, or one that has decided to leave it alone. */
  predicate HandsOff(pc: Pc) {
    pc.Idle? || pc.Done? || (pc.Decided? && pc.decision.action == SKIP)
  }

  lemma {:induction false} ClockRunsOn(c: Config, s: State, es: seq<Event>)
    requires Run(c, s, es)
    ensures After(c, s, es).now >= s.now
    decreases |es|
  {
    if es != [] {
      ClockRunsOn(c, Apply(c, s, es[0]), es[1..]);
    }
  }

  lemma LiveStep(c: Config, s: State, e: Event)
    requires Numbered(s.db.attempts) && Enabled(c, s, e) && Silent(s.db) && HandsOff(s.pc)
    requires s.now - Last(s.db.attempts).updatedAt <= c.stalenessThreshold
    ensures var s' := Apply(c, s, e); s'.db == s.db && s'.calls == s.calls && HandsOff(s'.pc)
  {
    if e.Start? {
      DecisionTable(c, s.db, e.parses, s.now);
    }
  }

  /** Until the threshold has passed since the attempt was last written, no number of restarted workers changes a row or
      calls the target for a case whose call may still be live. */
  lemma {:induction false} LiveAttemptIsLeftAlone(c: Config, s: State, es: seq<Event>)
    requires Numbered(s.db.attempts) && Run(c, s, es) && Silent(s.db) && HandsOff(s.pc)
    requires After(c, s, es).now - Last(s.db.attempts).updatedAt <= c.stalenessThreshold
    ensures var s' := After(c, s, es); s'.db == s.db && s'.calls == s.calls && HandsOff(s'.pc)
    decreases |es|
  {
    if es != [] {
      ClockRunsOn(c, s, es);
      LiveStep(c, s, es[0]);
      LiveAttemptIsLeftAlone(c, Apply(c, s, es[0]), es[1..]);
    }
  }

  /** Once it has passed, the next restarted worker asks the target, replays, or marks the case UNKNOWN. */
  lemma SilentAttemptIsTakenUp(c: Config, s: State, p: Payload, parses: bool) returns (es: seq<Event>, s': State)
    requires Numbered(s.db.attempts) && Silent(s.db) && (s.pc.Idle? || s.pc.Done?) && (c.reparses ==> parses)
    requires s.now - Last(s.db.attempts).updatedAt > c.stalenessThreshold
    ensures es == [Start(p, parses), Advance] && Run(c, s, es) && s' == After(c, s, es)
    ensures s'.pc == if c.requestRecovery then
                       Recovering(Some(if c.idempotency then IDEMPOTENT_REPLAY else MARK_UNKNOWN))
                     else if c.idempotency then LoopTop(|s.db.attempts|, Some(Last(s.db.attempts)), true)
                     else Done(false, |s.db.attempts|)
    ensures s'.db == if c.requestRecovery || c.idempotency then s.db else s.db.(status := UNKNOWN)
  {
    LatestIsLast(s.db.attempts);
    DecisionTable(c, s.db, parses, s.now);
    es, s' := Snoc(c, s, [], Start(p, parses));
    es, s' := Snoc(c, s, es, Advance);
  }

  /** Every row of `db'` that differs from `db` carries the time `now`, and so do the times of the case. */
  predicate Stamped(db: Db, db': Db, now: int) {
    && |db.attempts| <= |db'.attempts|
    && (forall i :: 0 <= i < |db.attempts| && db'.attempts[i] != db.attempts[i] ==>
          db'.attempts[i].updatedAt == now && db'.attempts[i].finishedAt == Some(now))
    && (forall i :: |db.attempts| <= i < |db'.attempts| ==>
          && db'.attempts[i].updatedAt == now && db'.attempts[i].startedAt == Some(now)
          && db'.attempts[i].finishedAt.None?)
    && (db'.finishedAt == db.finishedAt || db'.finishedAt in {None, Some(now)})
    && db'.startedAt == (if |db'.attempts| > |db.attempts| then Some(now) else db.startedAt)
  }

  lemma DispatchStamps(c: Config, s: State)
    requires s.pc.Decided?
    ensures Stamped(s.db, Dispatch(c, s).db, s.now)
  {
  }

  lemma BeginStamps(c: Config, s: State)
    requires s.pc.LoopTop?
    ensures Stamped(s.db, BeginAttempt(c, s).db, s.now)
  {
  }

  /** Whatever a step writes carries the time of the step; staleness is measured from nothing else. */
  lemma WrittenRowsAreStamped(c: Config, s: State, e: Event)
    requires Enabled(c, s, e)
    ensures Stamped(s.db, Apply(c, s, e).db, s.now)
  {
    if e.Advance? && s.pc.Decided? {
      DispatchStamps(c, s);
    } else if e.Advance? && s.pc.LoopTop? {
      BeginStamps(c, s);
    }
  }

  // ----- the identity of the next attempt -----

  /** The next attempt, before its call, under an identity of its own. */
  predicate BeginsFresh(c: Config, s: State, s': State, p: Payload) {
    var n := |s.db.attempts|;
    && |s'.db.attempts| == n + 1 && s'.db.attempts[..n] == s.db.attempts && s'.calls == s.calls
    && s'.db.status == RUNNING && s'.payload == p
    && var a := s'.db.attempts[n];
       && s'.pc == Prepared(n + 1, Identity(a.requestId, AttemptKey(n + 1), c.hash(Request(Blank, p))))
       && a.number == n + 1 && a.requestId == Uuid(s.nextUuid) && a.key == Some(AttemptKey(n + 1))
       && a.hash == Some(c.hash(Request(Blank, p))) && a.status == ATTEMPT_RUNNING
       && a.rawRequest == Some(|s.db.artifacts|)
       && s'.db.artifacts == s.db.artifacts + [RawRequest(Request(Uuid(s.nextUuid), p), n + 1)]
  }

  lemma FreshBegins(c: Config, s: State)
    requires Inv(c, s) && s.pc == LoopTop(|s.db.attempts|, Latest(s.db.attempts), false)
    ensures BeginsFresh(c, s, BeginAttempt(c, s), s.payload)
  {
    var xs := s.db.attempts;
    assert !HasAttempt(xs, |xs| + 1);
    assert !UsesRequestId(xs, Uuid(s.nextUuid));
  }

  lemma NothingToReuse(c: Config, db: Db, parses: bool)
    requires Rows(c, db) && Coupled(c, db) && db.status in {PENDING, RETRY_PENDING}
    ensures !Observed(db) && !Readable(db, parses)
  {
    if db.attempts != [] {
      assert RowOk(c, Last(db.attempts));
    }
  }

  lemma RestartRouted(c: Config, s: State, p: Payload, parses: bool) returns (es: seq<Event>, s': State)
    requires Numbered(s.db.attempts) && (s.pc.Idle? || s.pc.Done?) && (c.reparses ==> parses)
    requires s.db.status in {PENDING, RETRY_PENDING} && !Observed(s.db) && !Readable(s.db, parses)
    ensures es == [Start(p, parses), Advance] && Run(c, s, es)
    ensures s' == After(c, s, es) == s.(payload := p, pc := LoopTop(|s.db.attempts|, Latest(s.db.attempts), false))
  {
    LatestIsLast(s.db.attempts);
    DecisionTable(c, s.db, parses, s.now);
    es, s' := Snoc(c, s, [], Start(p, parses));
    es, s' := Snoc(c, s, es, Advance);
  }

  /** A restart over a PENDING or RETRY_PENDING case begins an attempt under a new request id and its own key, whatever
      the target's idempotency. */
  lemma RestartBeginsFresh(c: Config, s: State, p: Payload, parses: bool) returns (es: seq<Event>, s': State)
    requires Inv(c, s) && (s.pc.Idle? || s.pc.Done?) && (c.reparses ==> parses)
    requires s.db.status in {PENDING, RETRY_PENDING}
    ensures es == [Start(p, parses), Advance, Advance] && Run(c, s, es) && s' == After(c, s, es)
    ensures BeginsFresh(c, s, s', p)
  {
    NothingToReuse(c, s.db, parses);
    es, s' := RestartRouted(c, s, p, parses);
    RunKeepsInv(c, s, es);
    FreshBegins(c, s');
    es, s' := Snoc(c, s, es, Advance);
  }

  lemma SameIdentityBegins(c: Config, s: State)
    requires Inv(c, s) && s.db.attempts != []
    requires s.pc == LoopTop(|s.db.attempts|, Some(Last(s.db.attempts)), true)
    ensures var s', last := BeginAttempt(c, s), Last(s.db.attempts);
            if !c.uniqueRequestIds && last.hash == Some(c.hash(Request(Blank, s.payload))) then
              && s'.pc.Prepared? && |s'.db.attempts| == |s.db.attempts| + 1
              && SameIdentity(Last(s'.db.attempts), last)
            else s'.pc.Idle? && s'.db == s.db
  {
    var xs := s.db.attempts;
    assert RowOk(c, Last(xs));
    assert !HasAttempt(xs, |xs| + 1);
    assert UsesRequestId(xs, Last(xs).requestId);
  }

  /** What a retry within the loop begins: without idempotency an attempt under an identity of its own; with it, one
      under the identity of the attempt that failed, and only while the payload is the one that was sent and request
      ids may recur. */
  predicate Retried(c: Config, s: State, s': State) {
    && s.db.attempts != []
    && if !c.idempotency then BeginsFresh(c, s, s', s.payload)
       else if !c.uniqueRequestIds && Last(s.db.attempts).hash == Some(c.hash(Request(Blank, s.payload))) then
         && s'.pc.Prepared? && |s'.db.attempts| == |s.db.attempts| + 1
         && SameIdentity(Last(s'.db.attempts), Last(s.db.attempts))
       else s'.pc.Idle? && s'.db == s.db
  }

  lemma BackAtTop(c: Config, s: State)
    requires Inv(c, s) && s.pc.Backoff?
    ensures s.db.attempts != []
    ensures Apply(c, s, Advance) == s.(pc := LoopTop(|s.db.attempts|, Some(Last(s.db.attempts)), c.idempotency))
  {
    LatestIsLast(s.db.attempts);
  }

  lemma RetryBegins(c: Config, s: State)
    requires Inv(c, s) && s.db.attempts != []
    requires s.pc == LoopTop(|s.db.attempts|, Some(Last(s.db.attempts)), c.idempotency)
    ensures Retried(c, s, BeginAttempt(c, s))
  {
    if c.idempotency {
      SameIdentityBegins(c, s);
    } else {
      LatestIsLast(s.db.attempts);
      FreshBegins(c, s);
    }
  }

  lemma RetryAfterBackoff(c: Config, s: State) returns (es: seq<Event>, s': State)
    requires Inv(c, s) && s.pc.Backoff?
    ensures es == [Advance, Advance] && Run(c, s, es) && s' == After(c, s, es)
    ensures Retried(c, s, s')
  {
    BackAtTop(c, s);
    StepKeepsInv(c, s, Advance);
    RetryBegins(c, Apply(c, s, Advance));
    es, s' := Snoc(c, s, [], Advance);
    es, s' := Snoc(c, s, es, Advance);
  }

  // ----- what a call leaves behind -----

  /** Only the row of the latest attempt was written. */
  predicate OnlyLatest(s: State, s': State) {
    var n := |s.db.attempts|;
    n > 0 && |s'.db.attempts| == n && s'.db.attempts[..n - 1] == s.db.attempts[..n - 1] && s'.calls == s.calls
  }

  lemma AnswerStored(c: Config, s: State)
    requires Numbered(s.db.attempts) && s.pc.Responded? && s.db.attempts != []
    requires s.pc.number == |s.db.attempts| && s.pc.id.requestId == Last(s.db.attempts).requestId
    ensures var s', k := Apply(c, s, Advance), |s.db.artifacts|;
            && OnlyLatest(s, s') && Last(s'.db.attempts).rawResponse == Some(k)
            && Last(s'.db.attempts).requestId == s.pc.id.requestId
            && s'.db.artifacts == s.db.artifacts + [RawResponse(s.pc.id.requestId, s.pc.body, false)]
            && s'.pc == Normalizing(s.pc.number, Observation(s.pc.id.requestId, s.pc.body, k))
            && Numbered(s'.db.attempts)
  {
  }

  lemma ObservationStored(c: Config, s: State)
    requires Numbered(s.db.attempts) && s.pc.Normalizing? && s.pc.number == |s.db.attempts| > 0
    ensures var s' := Apply(c, s, Advance);
            && OnlyLatest(s, s') && Last(s'.db.attempts).rawResponse == Last(s.db.attempts).rawResponse
            && Last(s'.db.attempts).observation == Some(s.pc.obs) && s'.db.artifacts == s.db.artifacts
            && s'.pc == Done(true, s.pc.number) && s'.db.status == TARGET_COMPLETE
  {
  }

  /** Recording a recovered or reparsed result fills an empty observation, keeps one that is there, and touches no other
      attempt. */
  lemma RecordedObservationStays(db: Db, number: nat, obs: Observation, now: int, i: nat)
    requires i < |db.attempts|
    ensures var db', a := PersistRecoveredObservation(db, number, obs, now), db.attempts[i];
            && |db'.attempts| == |db.attempts| && db'.artifacts == db.artifacts && db'.status == TARGET_COMPLETE
            && (a.number != number ==> db'.attempts[i] == a)
            && (a.number == number ==>
                  db'.attempts[i].observation == if a.observation == None then Some(obs) else a.observation)
  {
  }

  /** The answer is stored, attached to the attempt that asked, and observed as it was given. */
  lemma AnswerIsObserved(c: Config, s: State, body: string) returns (es: seq<Event>, s': State)
    requires Inv(c, s) && s.pc.Calling?
    ensures es == [Respond(body), Advance, Advance] && Run(c, s, es) && s' == After(c, s, es)
    ensures OnlyLatest(s, s') && s'.pc == Done(true, |s.db.attempts|) && s'.db.status == TARGET_COMPLETE
    ensures AnswerKept(s.db, s'.db, body)
  {
    es, s' := AnswerRun(c, s, body);
  }

  /** The answer, stored and attached, and the observation of it. */
  predicate AnswerKept(db: Db, db': Db, body: string)
    requires db.attempts != []
  {
    var id, k := Last(db.attempts).requestId, |db.artifacts|;
    && db'.artifacts == db.artifacts + [RawResponse(id, body, false)] && db'.attempts != []
    && Last(db'.attempts).rawResponse == Some(k)
    && Last(db'.attempts).observation == Some(Observation(id, body, k))
  }

  lemma AnswerRun(c: Config, s: State, body: string) returns (es: seq<Event>, s': State)
    requires Numbered(s.db.attempts) && s.pc.Calling? && s.db.attempts != []
    requires s.pc.number == |s.db.attempts| && s.pc.id.requestId == Last(s.db.attempts).requestId
    ensures es == [Respond(body), Advance, Advance] && Run(c, s, es) && s' == After(c, s, es)
    ensures OnlyLatest(s, s') && s'.pc == Done(true, |s.db.attempts|) && s'.db.status == TARGET_COMPLETE
    ensures AnswerKept(s.db, s'.db, body)
  {
    es, s' := Snoc(c, s, [], Respond(body));
    AnswerStored(c, s');
    es, s' := Snoc(c, s, es, Advance);
    ObservationStored(c, s');
    es, s' := Snoc(c, s, es, Advance);
  }

  lemma FailureStored(c: Config, s: State)
    requires Numbered(s.db.attempts) && s.pc.CallFailed? && s.pc.number == |s.db.attempts| > 0
    ensures var s' := Apply(c, s, Advance);
            && OnlyLatest(s, s') && Last(s'.db.attempts).error == Some(s.pc.error)
            && s'.db.artifacts == s.db.artifacts
            && (if ShouldRetry(c.retry, s.pc.error, s.pc.number) then
                  && s'.pc == Backoff(s.pc.number) && s'.db.status == RETRY_PENDING
                  && Last(s'.db.attempts).status == RETRYABLE_FAILURE
                else
                  && s'.pc == Done(false, s.pc.number) && s'.db.status == FAILED
                  && Last(s'.db.attempts).status == PERMANENT_FAILURE)
  {
  }

  /** The failure is recorded on the attempt as it was reported, with the verdict of the policy, and the case waits
      for the retry or has failed. */
  lemma FailureIsRecorded(c: Config, s: State, error: ErrorRecord, jitter: real) returns (es: seq<Event>, s': State)
    requires Inv(c, s) && s.pc.Calling?
    ensures es == [Fail(error), Advance] && Run(c, s, es) && s' == After(c, s, es)
    ensures OnlyLatest(s, s') && s'.db.artifacts == s.db.artifacts && Last(s'.db.attempts).error == Some(error)
    ensures var n := |s.db.attempts|;
            if Evaluate(c.retry, error, n, jitter).shouldRetry then
              && s'.pc == Backoff(n) && s'.db.status == RETRY_PENDING
              && Last(s'.db.attempts).status == RETRYABLE_FAILURE
            else
              && s'.pc == Done(false, n) && s'.db.status == FAILED
              && Last(s'.db.attempts).status == PERMANENT_FAILURE
  {
    es, s' := Snoc(c, s, [], Fail(error));
    FailureStored(c, s');
    RetryIgnoresJitter(c.retry, error, |s.db.attempts|, jitter);
    es, s' := Snoc(c, s, es, Advance);
  }

  lemma RecoveryStored(c: Config, s: State, body: string)
    requires Numbered(s.db.attempts) && s.pc.Recovering? && s.db.attempts != []
    ensures var s', id := AfterRecovery(c, s, Some(body)), Last(s.db.attempts).requestId;
            && s'.db == s.db.(artifacts := s.db.artifacts + [RawResponse(id, body, true)]) && s'.calls == s.calls
            && s'.pc == Recovered(Observation(id, body, |s.db.artifacts|))
  {
    LatestIsLast(s.db.attempts);
  }

  lemma RecoveryObserved(c: Config, s: State)
    requires Numbered(s.db.attempts) && s.pc.Recovered? && s.db.attempts != []
    requires Last(s.db.attempts).observation.None?
    ensures var s' := Apply(c, s, Advance);
            && OnlyLatest(s, s') && Last(s'.db.attempts).observation == Some(s.pc.obs)
            && Last(s'.db.attempts).rawResponse == Last(s.db.attempts).rawResponse
            && s'.db.artifacts == s.db.artifacts
            && s'.pc == Done(true, |s.db.attempts|) && s'.db.status == TARGET_COMPLETE
  {
    LatestIsLast(s.db.attempts);
  }

  /** A recovered response is stored, marked as recovered, and observed as it was given, but attached to nothing. */
  lemma RecoveredIsObserved(c: Config, s: State, body: string) returns (es: seq<Event>, s': State)
    requires Inv(c, s) && s.pc.Recovering?
    ensures es == [Recover(Some(body)), Advance] && Run(c, s, es) && s' == After(c, s, es)
    ensures OnlyLatest(s, s') && s'.pc == Done(true, |s.db.attempts|) && s'.db.status == TARGET_COMPLETE
    ensures var id, k := Last(s.db.attempts).requestId, |s.db.artifacts|;
            && s'.db.artifacts == s.db.artifacts + [RawResponse(id, body, true)]
            && Last(s'.db.attempts).rawResponse == Last(s.db.attempts).rawResponse
            && Last(s'.db.attempts).observation == Some(Observation(id, body, k))
  {
    RecoveryStored(c, s, body);
    es, s' := Snoc(c, s, [], Recover(Some(body)));
    RecoveryObserved(c, s');
    es, s' := Snoc(c, s, es, Advance);
  }
}
