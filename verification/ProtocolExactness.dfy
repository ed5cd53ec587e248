/** Exactly which configurations give the two guarantees, and exactly when an UNKNOWN case can move on. Where a
    guarantee fails, the proof builds the run that breaks it. */
module ProtocolExactness {
  import opened Wrappers
  import opened RetryPolicy
  import opened Lifecycle
  import opened Recovery
  import opened CaseProtocol
  import opened ProtocolInvariants
  import opened ProtocolTheorems

  lemma Snoc(c: Config, s: State, es: seq<Event>, e: Event) returns (fs: seq<Event>, s': State)
    requires Run(c, s, es) && Enabled(c, After(c, s, es), e)
    ensures fs == es + [e] && Run(c, s, fs) && s' == After(c, s, fs) == Apply(c, After(c, s, es), e)
  {
    fs, s' := es + [e], Apply(c, After(c, s, es), e);
    RunConcat(c, s, es, [e]);
    assert [e][1..] == [];
    assert Run(c, s', []);
  }

  /** A fresh case whose first call has been issued. */
  lemma FirstCall(c: Config, p: Payload, now: int) returns (es: seq<Event>, s: State)
    ensures Run(c, Init(p, now), es) && s == After(c, Init(p, now), es)
    ensures s.pc.Calling? && s.payload == p && |s.db.attempts| == 1 && s.db.status == RUNNING
    ensures s.db.attempts[0].status == ATTEMPT_RUNNING && s.db.attempts[0].hash == Some(c.hash(Request(Blank, p)))
    ensures s.pc.number == 1 == s.db.attempts[0].number
  {
    var s0 := Init(p, now);
    es, s := Snoc(c, s0, [], Start(p, true));
    es, s := Snoc(c, s0, es, Advance);
    assert s.pc == LoopTop(0, None, false);
    es, s := Snoc(c, s0, es, Advance);
    es, s := Snoc(c, s0, es, Issue);
  }

  lemma DecidesToReplay(c: Config, db: Db, now: int)
    requires Numbered(db.attempts) && AwaitsRecovery(c, db) && c.idempotency && RowOk(c, Last(db.attempts))
    requires now - Last(db.attempts).updatedAt > c.stalenessThreshold
    ensures DecideRecovery(c, db, c.reparses, now) == DecideUncertain(c, Some(Last(db.attempts)))
  {
    LatestIsLast(db.attempts);
    assert TryRenormalize(db, Last(db.attempts), c.reparses).None?;
  }

  /** Once an uncertain attempt is stale, a restarted worker that may replay reaches the retry loop to do so. */
  lemma ReplayDecided(c: Config, s: State, p: Payload) returns (es: seq<Event>, s': State)
    requires Inv(c, s) && s.pc.Idle? && AwaitsRecovery(c, s.db) && c.idempotency
    ensures Run(c, s, es) && s' == After(c, s, es) && s'.db == s.db && s'.calls == s.calls && s'.payload == p
    ensures s'.pc == LoopTop(|s.db.attempts|, Some(Last(s.db.attempts)), true)
  {
    var last := Last(s.db.attempts);
    assert RowOk(c, last);
    var wait := c.stalenessThreshold + 1 + last.updatedAt - s.now;
    es, s' := Snoc(c, s, [], Tick(if wait > 0 then wait else 0));
    DecidesToReplay(c, s.db, s'.now);
    es, s' := Snoc(c, s, es, Start(p, c.reparses));
    LatestIsLast(s.db.attempts);
    assert last.number == |s.db.attempts|;
    es, s' := Snoc(c, s, es, Advance);
    if c.requestRecovery {
      es, s' := Snoc(c, s, es, Recover(None));
    }
  }

  lemma ReplayBegins(c: Config, s: State)
    requires Inv(c, s) && CanReplay(c) && s.db.attempts != []
    requires s.pc == LoopTop(|s.db.attempts|, Some(Last(s.db.attempts)), true)
    requires Last(s.db.attempts).hash == Some(c.hash(Request(Blank, s.payload)))
    ensures var s' := BeginAttempt(c, s);
            s'.pc.Prepared? && s'.calls == s.calls && |s'.db.attempts| == |s.db.attempts| + 1 && s'.payload == s.payload
            && s'.db.attempts[..|s.db.attempts|] == s.db.attempts && s'.db.status == RUNNING
  {
    assert RowOk(c, Last(s.db.attempts));
    assert !HasAttempt(s.db.attempts, |s.db.attempts| + 1);
  }

  /** From an uncertain, dead attempt a new attempt is created. */
  lemma ReplayRun(c: Config, s: State, p: Payload) returns (es: seq<Event>, s': State)
    requires Inv(c, s) && s.pc.Idle? && AwaitsRecovery(c, s.db) && CanReplay(c)
    requires Last(s.db.attempts).hash == Some(c.hash(Request(Blank, p)))
    ensures Run(c, s, es) && s' == After(c, s, es)
    ensures s'.pc.Prepared? && s'.calls == s.calls && s'.db.status == RUNNING && s'.payload == p
    ensures |s'.db.attempts| == |s.db.attempts| + 1 && s'.db.attempts[..|s.db.attempts|] == s.db.attempts
  {
    es, s' := ReplayDecided(c, s, p);
    RunKeepsInv(c, s, es);
    ReplayBegins(c, s');
    es, s' := Snoc(c, s, es, Advance);
  }

  /** A run that crashes during the first call and then calls again while attempt 1 has no recorded outcome. */
  lemma SecondUncertainCall(c: Config, p: Payload, now: int) returns (es: seq<Event>)
    requires CanReplay(c)
    ensures Run(c, Init(p, now), es)
    ensures var s := After(c, Init(p, now), es);
            s.pc.Prepared? && |s.db.attempts| == 2 && s.db.attempts[0].status == ATTEMPT_RUNNING
  {
    var s0 := Init(p, now);
    var s;
    es, s := FirstCall(c, p, now);
    es, s := Snoc(c, s0, es, Crash);
    InitInv(c, p, now);
    RunKeepsInv(c, s0, es);
    var fs, t := ReplayRun(c, s, p);
    RunConcat(c, s0, es, fs);
    es := es + fs;
  }

  /** Every call start follows only committed failures exactly when the worker cannot replay. */
  lemma AtMostOneUncertainCallExactly(c: Config)
    ensures AtMostOneUncertainCall(c) <==> !CanReplay(c)
  {
    if CanReplay(c) {
      var p := Payload(QUERY, None, "", [], map[]);
      var es := SecondUncertainCall(c, p, 0);
      var xs := After(c, Init(p, 0), es).db.attempts;
      assert xs[0].status != RETRYABLE_FAILURE;
    } else {
      forall payload, now, es | Run(c, Init(payload, now), es)
        ensures var xs := After(c, Init(payload, now), es).db.attempts;
                forall i :: 0 <= i < |xs| - 1 ==> xs[i].status == RETRYABLE_FAILURE
      {
        EarlierAttemptsFailed(c, payload, now, es);
      }
    }
  }

  /** A run that commits a raw response, crashes, fails to parse it, and calls the target again. */
  lemma CallAfterRaw(c: Config, p: Payload, now: int) returns (es: seq<Event>, fs: seq<Event>)
    requires CanReplay(c) && !c.reparses
    ensures var s0 := Init(p, now);
            && Run(c, s0, es) && RawCommitted(After(c, s0, es)) && Run(c, After(c, s0, es), fs)
            && |After(c, After(c, s0, es), fs).calls| == |After(c, s0, es).calls| + 1
  {
    var s0 := Init(p, now);
    var s, t;
    es, s := FirstCall(c, p, now);
    es, s := Snoc(c, s0, es, Respond(""));
    es, s := Snoc(c, s0, es, Advance);
    es, s := Snoc(c, s0, es, Crash);
    InitInv(c, p, now);
    RunKeepsInv(c, s0, es);
    assert s.db.attempts[0].rawResponse.Some?;
    fs, t := ReplayRun(c, s, p);
    fs, t := Snoc(c, s, fs, Issue);
  }

  /** Durability holds over all crashing runs exactly when stored responses re-parse or the worker cannot replay. */
  lemma DurableExactly(c: Config)
    ensures Durable(c) <==> c.reparses || !CanReplay(c)
  {
    if c.reparses || !CanReplay(c) {
      forall payload, now, es, fs |
        var s0 := Init(payload, now);
        Run(c, s0, es) && RawCommitted(After(c, s0, es)) && Run(c, After(c, s0, es), fs)
        ensures var s0 := Init(payload, now);
                After(c, After(c, s0, es), fs).calls == After(c, s0, es).calls
      {
        var s0 := Init(payload, now);
        InitInv(c, payload, now);
        RunKeepsInv(c, s0, es);
        CommittedResponseIsFinal(c, After(c, s0, es), fs);
      }
    } else {
      var p := Payload(QUERY, None, "", [], map[]);
      var es, fs := CallAfterRaw(c, p, 0);
    }
  }

  // ----- the retry budget, exactly -----

  /** Over all runs a case never has more than max_attempts attempts. */
  ghost predicate WithinBudget(c: Config) {
    forall payload, now, es :: Run(c, Init(payload, now), es) ==>
      |After(c, Init(payload, now), es).db.attempts| <= c.retry.maxAttempts
  }

  /** The worker died during its latest call, which can be replayed. */
  predicate Interrupted(c: Config, s: State, p: Payload) {
    && s.pc.Idle? && AwaitsRecovery(c, s.db)
    && Last(s.db.attempts).hash == Some(c.hash(Request(Blank, p)))
  }

  lemma InterruptedAfterCrash(c: Config, s: State, p: Payload)
    requires Inv(c, s) && s.pc.Prepared? && s.payload == p
    ensures Interrupted(c, Apply(c, s, Crash), p)
  {
    assert RowOk(c, Last(s.db.attempts));
  }

  /** One more interrupted replay. */
  lemma OneMoreReplay(c: Config, s: State, p: Payload) returns (es: seq<Event>, s': State)
    requires Inv(c, s) && CanReplay(c) && Interrupted(c, s, p)
    ensures Run(c, s, es) && s' == After(c, s, es) && Interrupted(c, s', p)
    ensures |s'.db.attempts| == |s.db.attempts| + 1
  {
    es, s' := ReplayRun(c, s, p);
    RunKeepsInv(c, s, es);
    InterruptedAfterCrash(c, s', p);
    es, s' := Snoc(c, s, es, Crash);
  }

  /** A run with `n` attempts, each interrupted and replayed. */
  lemma {:induction false} ManyAttempts(c: Config, p: Payload, now: int, n: nat) returns (es: seq<Event>, s: State)
    requires CanReplay(c) && n >= 1
    ensures Run(c, Init(p, now), es) && s == After(c, Init(p, now), es)
    ensures Interrupted(c, s, p) && |s.db.attempts| == n
  {
    var s0 := Init(p, now);
    if n == 1 {
      es, s := FirstCall(c, p, now);
      es, s := Snoc(c, s0, es, Crash);
      ReachedInv(c, p, now, es);
    } else {
      es, s := ManyAttempts(c, p, now, n - 1);
      ReachedInv(c, p, now, es);
      var fs, t := OneMoreReplay(c, s, p);
      RunConcat(c, s0, es, fs);
      es, s := es + fs, t;
    }
  }

  /** The budget survives all restarts exactly when the worker cannot replay; otherwise interrupted replays exceed
      it. */
  lemma RetryBudgetExactly(c: Config)
    requires c.Valid()
    ensures WithinBudget(c) <==> !CanReplay(c)
  {
    if CanReplay(c) {
      var p := Payload(QUERY, None, "", [], map[]);
      var es, s := ManyAttempts(c, p, 0, c.retry.maxAttempts + 1);
    } else {
      forall payload, now, es | Run(c, Init(payload, now), es)
        ensures |After(c, Init(payload, now), es).db.attempts| <= c.retry.maxAttempts
      {
        RetryBudget(c, payload, now, es);
      }
    }
  }

  lemma LeaveByRecovery(c: Config, s: State) returns (es: seq<Event>)
    requires Inv(c, s) && s.pc.Idle? && s.db.status == UNKNOWN && c.requestRecovery
    ensures Run(c, s, es) && After(c, s, es).db.status == TARGET_COMPLETE
  {
    LatestIsLast(s.db.attempts);
    var last, t := Last(s.db.attempts), s;
    assert RowOk(c, last);
    es, t := Snoc(c, s, [], Start(s.payload, c.reparses));
    assert t.pc.decision == DecideUncertain(c, Some(last));
    es, t := Snoc(c, s, es, Advance);
    es, t := Snoc(c, s, es, Recover(Some("")));
    es, t := Snoc(c, s, es, Advance);
  }

  lemma LeaveByParsing(c: Config, s: State) returns (es: seq<Event>)
    requires Inv(c, s) && s.pc.Idle? && s.db.status == UNKNOWN && Last(s.db.attempts).rawResponse.Some?
    ensures Run(c, s, es) && After(c, s, es).db.status == TARGET_COMPLETE
  {
    LatestIsLast(s.db.attempts);
    var t := s;
    assert Provenance(c, s.db.artifacts, Last(s.db.attempts));
    es, t := Snoc(c, s, [], Start(s.payload, true));
    assert t.pc.decision.action == RENORMALIZE_RAW;
    es, t := Snoc(c, s, es, Advance);
  }

  lemma LeaveByReplay(c: Config, s: State) returns (es: seq<Event>)
    requires Inv(c, s) && s.pc.Idle? && s.db.status == UNKNOWN && CanReplay(c)
    ensures Run(c, s, es) && After(c, s, es).db.status == RUNNING
  {
    var last, t := Last(s.db.attempts), s;
    assert RowOk(c, last) && Provenance(c, s.db.artifacts, last);
    es, t := ReplayRun(c, s, s.db.artifacts[last.rawRequest.value].request.payload);
  }

  lemma LeaveRun(c: Config, s: State) returns (es: seq<Event>)
    requires Inv(c, s) && s.pc.Idle? && s.db.status == UNKNOWN
    requires c.requestRecovery || Last(s.db.attempts).rawResponse.Some? || CanReplay(c)
    ensures Run(c, s, es) && After(c, s, es).db.status != UNKNOWN
  {
    if c.requestRecovery {
      es := LeaveByRecovery(c, s);
    } else if Last(s.db.attempts).rawResponse.Some? {
      es := LeaveByParsing(c, s);
    } else {
      es := LeaveByReplay(c, s);
    }
  }

  lemma LeaveFrom(c: Config, s: State)
    requires Inv(c, s) && s.db.status == UNKNOWN
    requires c.requestRecovery || Last(s.db.attempts).rawResponse.Some? || CanReplay(c)
    ensures CanLeaveUnknown(c, s)
  {
    var es, s1 := Snoc(c, s, [], Crash);
    StepKeepsInv(c, s, Crash);
    var fs := LeaveRun(c, s1);
    RunConcat(c, s, es, fs);
  }

  /** An UNKNOWN case can move on exactly when the target supports request recovery, its latest attempt holds a raw
      response, or the worker can replay. Otherwise it stays UNKNOWN for ever. */
  lemma LeaveUnknownExactly(c: Config, s: State)
    requires Inv(c, s) && s.db.status == UNKNOWN
    ensures CanLeaveUnknown(c, s) <==>
            c.requestRecovery || Last(s.db.attempts).rawResponse.Some? || CanReplay(c)
  {
    if c.requestRecovery || Last(s.db.attempts).rawResponse.Some? || CanReplay(c) {
      LeaveFrom(c, s);
    } else {
      forall es | Run(c, s, es) ensures After(c, s, es).db.status == UNKNOWN {
        UnknownStays(c, s, es);
      }
    }
  }
}
