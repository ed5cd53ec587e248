/** Properties of whole runs of the case protocol, with any crashes and restarts in between. */
module ProtocolTheorems {
  import opened Wrappers
  import opened RetryPolicy
  import opened Lifecycle
  import opened Recovery
  import opened CaseProtocol
  import opened ProtocolInvariants

  // ----- attempt history is append-only -----

  lemma ExtendsTransitive(x: Db, y: Db, z: Db)
    requires Extends(x, y) && Extends(y, z)
    ensures Extends(x, z)
  {
    forall i | 0 <= i < |x.attempts| ensures Ages(x.attempts[i], z.attempts[i]) {
      assert Ages(x.attempts[i], y.attempts[i]) && Ages(y.attempts[i], z.attempts[i]);
    }
  }

  /** Over any run, attempts that are no longer the latest are frozen, failures are frozen, and the latest attempt
      keeps its identity and never loses an attached result. */
  lemma {:induction false} RunExtends(c: Config, s: State, es: seq<Event>)
    requires Inv(c, s) && Run(c, s, es)
    ensures Extends(s.db, After(c, s, es).db)
    decreases |es|
  {
    if es != [] {
      StepKeepsInv(c, s, es[0]);
      RunExtends(c, Apply(c, s, es[0]), es[1..]);
      ExtendsTransitive(s.db, Apply(c, s, es[0]).db, After(c, s, es).db);
    }
  }

  /** What one step can touch, whatever the state. */
  lemma OnlyBeginAppends(c: Config, s: State, e: Event)
    requires Enabled(c, s, e)
    ensures |Apply(c, s, e).db.attempts| == |s.db.attempts|
            || (e.Advance? && s.pc.LoopTop? && Apply(c, s, e).pc.Prepared?)
    ensures Apply(c, s, e).payload == (if e.Start? then e.payload else s.payload)
    ensures e.Issue? || Apply(c, s, e).calls == s.calls
    ensures s.pc.Idle? ==> e.Start? || Apply(c, s, e).pc.Idle?
  {
  }

  // ----- lifecycle coupling -----

  /** At every commit point of every run: attempts are numbered 1..n, and the case status says exactly what the
      latest attempt recorded. */
  lemma LifecycleCoupling(c: Config, payload: Payload, now: int, es: seq<Event>)
    requires Run(c, Init(payload, now), es)
    ensures var db := After(c, Init(payload, now), es).db;
            && (forall i :: 0 <= i < |db.attempts| ==> db.attempts[i].number == i + 1)
            && db.status in {PENDING, RUNNING, RETRY_PENDING, FAILED, UNKNOWN, TARGET_COMPLETE}
            && (db.status == PENDING <==> db.attempts == [])
            && (db.attempts != [] ==>
                  var a := Last(db.attempts);
                  && (db.status == RETRY_PENDING <==> a.status == RETRYABLE_FAILURE)
                  && (db.status == FAILED <==> a.status == PERMANENT_FAILURE)
                  && (db.status == TARGET_COMPLETE <==> a.observation.Some?)
                  && (db.status in {RUNNING, UNKNOWN} <==>
                        a.observation.None? && (a.status == ATTEMPT_RUNNING || a.rawResponse.Some?))
                  && (a.status == RETRYABLE_FAILURE ==> a.number < c.retry.maxAttempts && a.retryable == Some(true)))
            && (forall i :: 0 <= i < |db.attempts| - 1 ==> db.attempts[i].observation.None?)
            && (db.finishedAt.Some? <==> db.status in {FAILED, TARGET_COMPLETE})
  {
    ReachedInv(c, payload, now, es);
    var db := After(c, Init(payload, now), es).db;
    if db.attempts != [] {
      assert RowOk(c, Last(db.attempts));
    }
  }

  // ----- finished cases -----

  predicate Parked(c: Config, s: State) {
    s.db.status in {TARGET_COMPLETE, FAILED} || (s.db.status == UNKNOWN && !CanReplay(c))
  }

  lemma ReplayBlocked(c: Config, s: State)
    requires Inv(c, s) && s.pc.LoopTop? && s.pc.replay && s.db.attempts != [] && c.uniqueRequestIds
    ensures BeginAttempt(c, s) == s.(nextUuid := s.nextUuid + 1, pc := Idle)
  {
    LatestIsLast(s.db.attempts);
    assert UsesRequestId(s.db.attempts, Last(s.db.attempts).requestId);
  }

  lemma ParkedLoop(c: Config, s: State)
    requires Inv(c, s) && s.pc.LoopTop? && Parked(c, s)
    ensures BeginAttempt(c, s).db == s.db && BeginAttempt(c, s).calls == s.calls
  {
    LatestIsLast(s.db.attempts);
    ReplayBlocked(c, s);
  }

  /** No call, no new attempt, and the status moves at most from UNKNOWN to TARGET_COMPLETE. */
  predicate StaysParked(c: Config, s: State, s': State)
    requires s.db.attempts != []
  {
    && s'.calls == s.calls && |s'.db.attempts| == |s.db.attempts|
    && (s.db.status in {TARGET_COMPLETE, FAILED} ==> s'.db.status == s.db.status)
    && (s.db.status == UNKNOWN ==> s'.db.status in {UNKNOWN, TARGET_COMPLETE})
    && (s.db.status == UNKNOWN && s'.db.status != UNKNOWN ==>
          c.requestRecovery || Last(s.db.attempts).rawResponse.Some?)
    && (s'.db.status == UNKNOWN ==> Last(s'.db.attempts).rawResponse == Last(s.db.attempts).rawResponse)
  }

  lemma ParkedDispatch(c: Config, s: State)
    requires Rows(c, s.db) && Coupled(c, s.db) && PcOk(c, s) && s.pc.Decided? && Parked(c, s)
    ensures s.db.attempts != [] && StaysParked(c, s, Dispatch(c, s))
  {
    LatestIsLast(s.db.attempts);
    assert RowOk(c, Last(s.db.attempts));
  }

  lemma ParkedRest(c: Config, s: State, e: Event)
    requires Rows(c, s.db) && Coupled(c, s.db) && PcOk(c, s) && Enabled(c, s, e) && Parked(c, s)
    requires e.Advance? ==> !s.pc.LoopTop? && !s.pc.Decided?
    ensures s.db.attempts != [] && StaysParked(c, s, Apply(c, s, e))
  {
    LatestIsLast(s.db.attempts);
  }

  lemma ParkedStep(c: Config, s: State, e: Event)
    requires Inv(c, s) && Enabled(c, s, e) && Parked(c, s)
    ensures s.db.attempts != [] && StaysParked(c, s, Apply(c, s, e))
  {
    if s.pc.LoopTop? && e.Advance? {
      ParkedLoop(c, s);
    } else if s.pc.Decided? && e.Advance? {
      ParkedDispatch(c, s);
    } else {
      ParkedRest(c, s, e);
    }
  }

  /** TARGET_COMPLETE and FAILED are absorbing, and neither is ever followed by another target call. */
  lemma {:induction false} FinishedIsAbsorbing(c: Config, s: State, es: seq<Event>)
    requires Inv(c, s) && Run(c, s, es) && s.db.status in {TARGET_COMPLETE, FAILED}
    ensures var s' := After(c, s, es);
            s'.db.status == s.db.status && s'.calls == s.calls && |s'.db.attempts| == |s.db.attempts|
    decreases |es|
  {
    if es != [] {
      ParkedStep(c, s, es[0]);
      StepKeepsInv(c, s, es[0]);
      FinishedIsAbsorbing(c, Apply(c, s, es[0]), es[1..]);
    }
  }

  // ----- durability -----

  predicate RawCommitted(s: State) {
    exists i :: 0 <= i < |s.db.attempts| && s.db.attempts[i].rawResponse.Some?
  }

  /** Once a raw response is committed on an attempt, no continuation calls the target again. */
  ghost predicate Durable(c: Config) {
    forall payload, now, es, fs ::
      var s0 := Init(payload, now);
      Run(c, s0, es) && RawCommitted(After(c, s0, es)) && Run(c, After(c, s0, es), fs) ==>
        After(c, After(c, s0, es), fs).calls == After(c, s0, es).calls
  }

  lemma RawIsLatest(c: Config, s: State)
    requires Inv(c, s) && RawCommitted(s) && (c.reparses || !CanReplay(c))
    ensures Last(s.db.attempts).rawResponse.Some?
  {
    var i :| 0 <= i < |s.db.attempts| && s.db.attempts[i].rawResponse.Some?;
    assert RowOk(c, s.db.attempts[i]);
  }

  lemma RawBlocksCalls(c: Config, s: State)
    requires Inv(c, s) && s.db.attempts != [] && Last(s.db.attempts).rawResponse.Some? && (c.reparses || !CanReplay(c))
    ensures !s.pc.Prepared?
    ensures s.pc.LoopTop? ==> !BeginAttempt(c, s).pc.Prepared?
  {
    assert RowOk(c, Last(s.db.attempts));
    if s.pc.LoopTop? {
      ReplayBlocked(c, s);
    }
  }

  lemma RawStep(c: Config, s: State, e: Event)
    requires Inv(c, s) && Enabled(c, s, e)
    requires s.db.attempts != [] && Last(s.db.attempts).rawResponse.Some? && (c.reparses || !CanReplay(c))
    requires Extends(s.db, Apply(c, s, e).db)
    ensures var s' := Apply(c, s, e);
            s'.calls == s.calls && |s'.db.attempts| == |s.db.attempts|
            && Last(s'.db.attempts).rawResponse == Last(s.db.attempts).rawResponse
  {
    RawBlocksCalls(c, s);
    OnlyBeginAppends(c, s, e);
    assert Ages(Last(s.db.attempts), Last(Apply(c, s, e).db.attempts));
  }

  /** No later query or retrieve, the attempt stays the latest, and its response pointer never moves. */
  lemma {:induction false} CommittedResponseIsFinal(c: Config, s: State, es: seq<Event>)
    requires Inv(c, s) && Run(c, s, es) && RawCommitted(s) && (c.reparses || !CanReplay(c))
    ensures var s' := After(c, s, es);
            s'.calls == s.calls && |s'.db.attempts| == |s.db.attempts|
            && Last(s'.db.attempts).rawResponse == Last(s.db.attempts).rawResponse
            && Last(s.db.attempts).rawResponse.Some?
    decreases |es|
  {
    RawIsLatest(c, s);
    if es != [] {
      StepKeepsInv(c, s, es[0]);
      RawStep(c, s, es[0]);
      CommittedResponseIsFinal(c, Apply(c, s, es[0]), es[1..]);
    }
  }

  /** The latest attempt holds the observation that normalizing its attached response gives. */
  predicate ObservedFromRaw(db: Db) {
    db.attempts != [] &&
    var a := Last(db.attempts);
    && a.rawResponse.Some? && a.rawResponse.value < |db.artifacts|
    && var artifact := db.artifacts[a.rawResponse.value];
    && artifact.RawResponse?
    && a.observation == Some(Observation(a.requestId, artifact.body, a.rawResponse.value))
  }

  lemma DoneAfterRaw(c: Config, s: State)
    requires Rows(c, s.db) && Coupled(c, s.db) && PcOk(c, s) && s.pc.Done? && c.reparses
    requires s.db.attempts != [] && Last(s.db.attempts).rawResponse.Some?
    ensures s.db.status == TARGET_COMPLETE && s.pc.success && ObservedFromRaw(s.db)
  {
    assert Provenance(c, s.db.artifacts, Last(s.db.attempts));
  }

  /** When stored responses re-parse, any worker run that finishes after the commit leaves TARGET_COMPLETE with an
      observation normalized from that very response. */
  lemma FinishAfterRaw(c: Config, s: State, es: seq<Event>)
    requires Inv(c, s) && Run(c, s, es) && RawCommitted(s) && c.reparses && After(c, s, es).pc.Done?
    ensures var s' := After(c, s, es);
            && s'.db.status == TARGET_COMPLETE && s'.pc.success
            && s.db.attempts != [] && ObservedFromRaw(s'.db)
            && Last(s'.db.attempts).rawResponse == Last(s.db.attempts).rawResponse
  {
    RawIsLatest(c, s);
    RunKeepsInv(c, s, es);
    CommittedResponseIsFinal(c, s, es);
    DoneAfterRaw(c, After(c, s, es));
  }

  lemma DecidesToFinish(c: Config, db: Db, now: int)
    requires Numbered(db.attempts) && db.attempts != [] && Last(db.attempts).rawResponse.Some?
    requires RowOk(c, Last(db.attempts)) && Provenance(c, db.artifacts, Last(db.attempts)) && db.status != COMPLETE
    ensures var d := DecideRecovery(c, db, true, now);
            d.observation.Some? && d.action in {REUSE_OBSERVATION, RENORMALIZE_RAW}
  {
    LatestIsLast(db.attempts);
  }

  /** A restart needs only its decision and one commit to finish such a case. */
  lemma ResumeCompletes(c: Config, s: State, payload: Payload)
    requires Inv(c, s) && (s.pc.Idle? || s.pc.Done?) && RawCommitted(s) && c.reparses
    ensures var es := [Start(payload, true), Advance];
            Run(c, s, es) && After(c, s, es).pc.Done? && After(c, s, es).db.status == TARGET_COMPLETE
  {
    RawIsLatest(c, s);
    DecidesToFinish(c, s.db, s.now);
    LatestIsLast(s.db.attempts);
    var s1 := Apply(c, s, Start(payload, true));
    assert s1.pc == Decided(DecideRecovery(c, s.db, true, s.now)) && s1.db == s.db;
    var es := [Start(payload, true), Advance];
    assert es[1..] == [Advance] && [Advance][1..] == [];
    assert Run(c, s1, [Advance]);
    assert Run(c, Apply(c, s1, Advance), []);
  }

  // ----- at most one uncertain call -----

  /** A target call is about to start only when every earlier attempt has a committed failure. */
  ghost predicate AtMostOneUncertainCall(c: Config) {
    forall payload, now, es ::
      Run(c, Init(payload, now), es) && After(c, Init(payload, now), es).pc.Prepared? ==>
        var xs := After(c, Init(payload, now), es).db.attempts;
        forall i :: 0 <= i < |xs| - 1 ==> xs[i].status == RETRYABLE_FAILURE
  }

  lemma EarlierAttemptsFailed(c: Config, payload: Payload, now: int, es: seq<Event>)
    requires Run(c, Init(payload, now), es) && !CanReplay(c)
    ensures var xs := After(c, Init(payload, now), es).db.attempts;
            forall i :: 0 <= i < |xs| - 1 ==> xs[i].status == RETRYABLE_FAILURE
  {
    ReachedInv(c, payload, now, es);
  }

  /** Each attempt calls the target at most once, so no two calls share an attempt number. */
  lemma OneCallPerAttempt(c: Config, payload: Payload, now: int, es: seq<Event>)
    requires Run(c, Init(payload, now), es)
    ensures var s := After(c, Init(payload, now), es);
            && (forall i, j :: 0 <= i < j < |s.calls| ==> s.calls[i].number != s.calls[j].number)
            && |s.calls| <= |s.db.attempts|
  {
    ReachedInv(c, payload, now, es);
    IncreasingIsShort(After(c, Init(payload, now), es).calls, |After(c, Init(payload, now), es).db.attempts|);
  }

  lemma {:induction false} IncreasingIsShort(calls: seq<Call>, n: nat)
    requires forall i, j :: 0 <= i < j < |calls| ==> calls[i].number < calls[j].number
    requires forall i :: 0 <= i < |calls| ==> 1 <= calls[i].number <= n
    ensures |calls| <= n
  {
    if calls != [] {
      IncreasingIsShort(calls[..|calls| - 1], calls[|calls| - 1].number - 1);
    }
  }

  /** Without replay an UNKNOWN case is never called again; it can only complete. */
  lemma {:induction false} UnknownIsSilent(c: Config, s: State, es: seq<Event>)
    requires Inv(c, s) && Run(c, s, es) && s.db.status in {UNKNOWN, TARGET_COMPLETE} && !CanReplay(c)
    ensures var s' := After(c, s, es);
            s'.calls == s.calls && |s'.db.attempts| == |s.db.attempts| && s'.db.status in {UNKNOWN, TARGET_COMPLETE}
    decreases |es|
  {
    if es != [] {
      ParkedStep(c, s, es[0]);
      StepKeepsInv(c, s, es[0]);
      UnknownIsSilent(c, Apply(c, s, es[0]), es[1..]);
    }
  }

  ghost predicate CanLeaveUnknown(c: Config, s: State) {
    exists es :: Run(c, s, es) && After(c, s, es).db.status != UNKNOWN
  }

  lemma {:induction false} UnknownStays(c: Config, s: State, es: seq<Event>)
    requires Inv(c, s) && Run(c, s, es) && s.db.status == UNKNOWN
    requires !CanReplay(c) && !c.requestRecovery && Last(s.db.attempts).rawResponse.None?
    ensures After(c, s, es).db.status == UNKNOWN
    decreases |es|
  {
    if es != [] {
      ParkedStep(c, s, es[0]);
      StepKeepsInv(c, s, es[0]);
      UnknownStays(c, Apply(c, s, es[0]), es[1..]);
    }
  }

  // ----- retry budget -----

  lemma {:induction false} BudgetCount(c: Config, attempts: seq<Attempt>)
    requires forall i :: 0 <= i < |attempts| ==>
               Open(attempts[i]) || (attempts[i].status == RETRYABLE_FAILURE && i + 1 < c.retry.maxAttempts)
    ensures |attempts| <= OpenCount(attempts) + if c.retry.maxAttempts == 0 then 0 else c.retry.maxAttempts - 1
    ensures OpenCount(attempts) <= |attempts|
  {
    if attempts != [] {
      BudgetCount(c, attempts[..|attempts| - 1]);
      if !Open(Last(attempts)) {
        assert |attempts| < c.retry.maxAttempts;
      }
    }
  }

  lemma BudgetHolds(c: Config, s: State)
    requires c.Valid() && Rows(c, s.db) && Budget(s)
    requires InFlight(s.pc) ==> s.db.attempts != [] && Open(Last(s.db.attempts))
    ensures |s.db.attempts| <= c.retry.maxAttempts + s.interrupted
    ensures !CanReplay(c) ==> |s.db.attempts| <= c.retry.maxAttempts
  {
    var xs := s.db.attempts;
    if xs != [] {
      assert forall i :: 0 <= i < |xs| ==> RowOk(c, xs[i]);
      BudgetCount(c, xs[..|xs| - 1]);
      if |xs| > 1 && !CanReplay(c) {
        assert xs[|xs| - 2].status == RETRYABLE_FAILURE;
      }
    }
  }

  lemma BudgetOf(c: Config, s: State)
    requires c.Valid() && Inv(c, s)
    ensures |s.db.attempts| <= c.retry.maxAttempts + s.interrupted
    ensures !CanReplay(c) ==> |s.db.attempts| <= c.retry.maxAttempts
  {
    BudgetHolds(c, s);
  }

  /** The attempts of a case never exceed `max_attempts` plus the interrupted ones, over any number of restarts;
      where replay is impossible they never exceed `max_attempts`. */
  lemma RetryBudget(c: Config, payload: Payload, now: int, es: seq<Event>)
    requires c.Valid() && Run(c, Init(payload, now), es)
    ensures var s := After(c, Init(payload, now), es);
            && |s.db.attempts| <= c.retry.maxAttempts + s.interrupted
            && (!CanReplay(c) ==> |s.db.attempts| <= c.retry.maxAttempts)
  {
    ReachedInv(c, payload, now, es);
    BudgetOf(c, After(c, Init(payload, now), es));
  }

  // ----- replay identity -----

  /** A replay or an in-loop retry carries its predecessor's identity; any other attempt heads a new chain. */
  lemma ReplayKeepsIdentity(c: Config, s: State)
    requires Inv(c, s) && s.pc.LoopTop? && BeginAttempt(c, s).pc.Prepared?
    ensures var xs, ys := s.db.attempts, BeginAttempt(c, s).db.attempts;
            && |ys| == |xs| + 1 && ys[..|xs|] == xs
            && (if s.pc.replay && xs != [] then SameIdentity(Last(ys), Last(xs))
                else Last(ys).key == Some(AttemptKey(|ys|)) && !UsesRequestId(xs, Last(ys).requestId))
  {
    BeginJoins(c, s);
  }

  /** With unique request ids, as the attempts table declares, every replay is rolled back without a trace. */
  lemma UniqueIdsBlockReplay(c: Config, s: State)
    requires Inv(c, s) && s.pc.LoopTop? && s.pc.replay && s.db.attempts != [] && c.uniqueRequestIds
    ensures BeginAttempt(c, s).pc.Idle? && BeginAttempt(c, s).db == s.db
  {
    ReplayBlocked(c, s);
  }

  /** Calls that share an idempotency key or a request id carry the same payload. */
  lemma SharedIdentitySharesPayload(c: Config, payload: Payload, now: int, es: seq<Event>, i: nat, j: nat)
    requires forall p, q :: c.hash(p) == c.hash(q) ==> p == q
    requires Run(c, Init(payload, now), es)
    requires var calls := After(c, Init(payload, now), es).calls;
             i < |calls| && j < |calls|
             && (calls[i].key == calls[j].key || calls[i].requestId == calls[j].requestId)
    ensures var calls := After(c, Init(payload, now), es).calls;
            && calls[i].payload == calls[j].payload
            && calls[i].key == calls[j].key && calls[i].requestId == calls[j].requestId
  {
    ReachedInv(c, payload, now, es);
    var s := After(c, Init(payload, now), es);
    var xs := s.db.attempts;
    var a, b := s.calls[i].number - 1, s.calls[j].number - 1;
    assert xs[a].key == xs[b].key;
    var head := xs[a].key.value.number - 1;
    assert SameIdentity(xs[head], xs[a]) && SameIdentity(xs[head], xs[b]);
    assert Request(Blank, s.calls[i].payload) == Request(Blank, s.calls[j].payload);
  }

  predicate SamePayload(e: Event, payload: Payload) {
    e.Start? ==> e.payload == payload
  }

  predicate Steady(c: Config, s: State, payload: Payload) {
    && (s.pc.Idle? || s.payload == payload)
    && forall i :: 0 <= i < |s.db.attempts| ==> s.db.attempts[i].hash == Some(c.hash(Request(Blank, payload)))
  }

  lemma SteadyStep(c: Config, s: State, e: Event, payload: Payload)
    requires PcOk(c, s) && Numbered(s.db.attempts) && Enabled(c, s, e) && Extends(s.db, Apply(c, s, e).db)
    requires Steady(c, s, payload) && SamePayload(e, payload)
    ensures Steady(c, Apply(c, s, e), payload)
  {
    OnlyBeginAppends(c, s, e);
    var xs, s' := s.db.attempts, Apply(c, s, e);
    assert forall i :: 0 <= i < |xs| ==> Ages(xs[i], s'.db.attempts[i]);
    if |s'.db.attempts| != |xs| {
      BeginJoins(c, s);
    }
  }

  lemma {:induction false} SteadyRun(c: Config, s: State, es: seq<Event>, payload: Payload)
    requires Inv(c, s) && Run(c, s, es) && Steady(c, s, payload)
    requires forall i :: 0 <= i < |es| ==> SamePayload(es[i], payload)
    ensures Steady(c, After(c, s, es), payload)
    decreases |es|
  {
    if es != [] {
      StepKeepsInv(c, s, es[0]);
      SteadyStep(c, s, es[0], payload);
      SteadyRun(c, Apply(c, s, es[0]), es[1..], payload);
    }
  }

  /** The canonical-hash check refuses a replay exactly when the payload hash changed since the attempt it replays;
      a case whose payload never changes is never refused. */
  lemma HashCheckNeverBlocksUnchangedCase(c: Config, payload: Payload, now: int, es: seq<Event>)
    requires Run(c, Init(payload, now), es)
    requires forall i :: 0 <= i < |es| ==> SamePayload(es[i], payload)
    requires After(c, Init(payload, now), es).pc.LoopTop?
    ensures var s := After(c, Init(payload, now), es);
            ChooseIdentity(c, s.payload, s.nextUuid, s.pc.made + 1, s.pc.previous, s.pc.replay).Some?
  {
    var s0 := Init(payload, now);
    InitInv(c, payload, now);
    RunKeepsInv(c, s0, es);
    SteadyRun(c, s0, es, payload);
    LatestIsLast(After(c, s0, es).db.attempts);
  }

  lemma ReplayRefusedExactly(c: Config, s: State)
    requires Inv(c, s) && s.pc.LoopTop?
    ensures ChooseIdentity(c, s.payload, s.nextUuid, s.pc.made + 1, s.pc.previous, s.pc.replay).None? <==>
            && s.pc.replay && s.db.attempts != []
            && Last(s.db.attempts).hash != Some(c.hash(Request(Blank, s.payload)))
  {
    LatestIsLast(s.db.attempts);
    if s.db.attempts != [] {
      assert RowOk(c, Last(s.db.attempts));
    }
  }
}
