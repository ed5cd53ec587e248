/** The durability invariant for every response that was stored, attached to an attempt or not: once target output has
    been captured, nothing that happens later makes the worker generate it again. */
module ProtocolDurability {
  import opened Wrappers
  import opened RetryPolicy
  import opened Lifecycle
  import opened Recovery
  import opened CaseProtocol
  import opened ProtocolInvariants
  import opened ProtocolTheorems
  import opened ProtocolExactness

  /** A raw response of this case is stored, from a call or from request recovery. */
  predicate Captured(s: State) {
    exists k :: 0 <= k < |s.db.artifacts| && s.db.artifacts[k].RawResponse?
  }

  /** Once a raw response is stored, no continuation calls the target again. */
  ghost predicate CapturedDurable(c: Config) {
    forall payload, now, es, fs ::
      var s0 := Init(payload, now);
      Run(c, s0, es) && Captured(After(c, s0, es)) && Run(c, After(c, s0, es), fs) ==>
        After(c, After(c, s0, es), fs).calls == After(c, s0, es).calls
  }

  predicate KeepsCaptured(c: Config) {
    !CanReplay(c) || (c.reparses && !c.requestRecovery)
  }

  /** No call is under way and none can begin. */
  predicate Quiet(c: Config, s: State) {
    if CanReplay(c) then RawCommitted(s)
    else
      && s.db.attempts != [] && s.db.status !in {PENDING, RETRY_PENDING}
      && !(s.pc.Prepared? || s.pc.Calling? || s.pc.Responded? || s.pc.CallFailed?)
  }

  lemma QuietWithReplay(c: Config, s: State, e: Event)
    requires Inv(c, s) && Enabled(c, s, e) && KeepsCaptured(c) && CanReplay(c) && Quiet(c, s)
    ensures Quiet(c, Apply(c, s, e)) && Apply(c, s, e).calls == s.calls
  {
    RawIsLatest(c, s);
    StepKeepsInv(c, s, e);
    RawStep(c, s, e);
    var xs := Apply(c, s, e).db.attempts;
    assert xs[|xs| - 1].rawResponse.Some?;
  }

  lemma QuietDispatch(c: Config, s: State)
    requires Rows(c, s.db) && Coupled(c, s.db) && PcOk(c, s) && !CanReplay(c) && Quiet(c, s) && s.pc.Decided?
    ensures Quiet(c, Dispatch(c, s)) && Dispatch(c, s).calls == s.calls
  {
    LatestIsLast(s.db.attempts);
  }

  lemma QuietWithoutReplay(c: Config, s: State, e: Event)
    requires Inv(c, s) && Enabled(c, s, e) && !CanReplay(c) && Quiet(c, s)
    ensures Quiet(c, Apply(c, s, e)) && Apply(c, s, e).calls == s.calls
  {
    if s.pc.Decided? && e.Advance? {
      QuietDispatch(c, s);
    } else if s.pc.LoopTop? && e.Advance? {
      ReplayBlocked(c, s);
    }
  }

  /** A response is stored by the commit after a call, or by request recovery; either leaves the worker quiet. */
  lemma CaptureStep(c: Config, s: State, e: Event)
    requires Inv(c, s) && Enabled(c, s, e) && KeepsCaptured(c) && !Captured(s) && Captured(Apply(c, s, e))
    ensures Quiet(c, Apply(c, s, e))
  {
    var s' := Apply(c, s, e);
    LatestIsLast(s.db.attempts);
    if !Stores(s, e) {
      OnlyTheseStore(c, s, e);
    } else if e.Advance? {
      UpdateLast(s.db.attempts, (a: Attempt) => Received(a.(rawResponse := Some(|s.db.artifacts|)), s.now));
      assert Last(s'.db.attempts).rawResponse.Some?;
    }
  }

  predicate Stores(s: State, e: Event) {
    (e.Advance? && s.pc.Responded?) || (e.Recover? && e.result.Some?)
  }

  lemma OnlyTheseStore(c: Config, s: State, e: Event)
    requires Enabled(c, s, e) && Captured(Apply(c, s, e)) && !Stores(s, e)
    ensures Captured(s)
  {
    var db' := Apply(c, s, e).db;
    var k :| 0 <= k < |db'.artifacts| && db'.artifacts[k].RawResponse?;
    assert s.db.artifacts[k].RawResponse?;
  }

  lemma CapturedStays(s: State, s': State)
    requires Captured(s) && s.db.artifacts <= s'.db.artifacts
    ensures Captured(s')
  {
    var k :| 0 <= k < |s.db.artifacts| && s.db.artifacts[k].RawResponse?;
    assert s'.db.artifacts[k].RawResponse?;
  }

  lemma CapturedStep(c: Config, s: State, e: Event)
    requires Inv(c, s) && Enabled(c, s, e) && KeepsCaptured(c) && (Captured(s) ==> Quiet(c, s))
    ensures Captured(Apply(c, s, e)) ==> Quiet(c, Apply(c, s, e))
    ensures Captured(s) ==> Captured(Apply(c, s, e)) && Apply(c, s, e).calls == s.calls
  {
    StepKeepsInv(c, s, e);
    if Captured(s) {
      CapturedStays(s, Apply(c, s, e));
      if CanReplay(c) {
        QuietWithReplay(c, s, e);
      } else {
        QuietWithoutReplay(c, s, e);
      }
    } else if Captured(Apply(c, s, e)) {
      CaptureStep(c, s, e);
    }
  }

  /** In every run of a safe configuration a stored response has quieted the worker, and no call follows it. */
  lemma {:induction false} CapturedRun(c: Config, s: State, es: seq<Event>)
    requires Inv(c, s) && Run(c, s, es) && KeepsCaptured(c) && (Captured(s) ==> Quiet(c, s))
    ensures Captured(After(c, s, es)) ==> Quiet(c, After(c, s, es))
    ensures Captured(s) ==> After(c, s, es).calls == s.calls
    decreases |es|
  {
    if es != [] {
      StepKeepsInv(c, s, es[0]);
      CapturedStep(c, s, es[0]);
      CapturedRun(c, Apply(c, s, es[0]), es[1..]);
    }
  }

  /** Once an uncertain attempt is stale, a restarted worker asks the target for the earlier request. */
  lemma RecoveryAsked(c: Config, s: State, p: Payload) returns (es: seq<Event>, s': State)
    requires Inv(c, s) && s.pc.Idle? && AwaitsRecovery(c, s.db) && c.idempotency && c.requestRecovery
    ensures Run(c, s, es) && s' == After(c, s, es) && s'.db == s.db && s'.calls == s.calls && s'.pc.Recovering?
  {
    var last := Last(s.db.attempts);
    assert RowOk(c, last);
    var wait := c.stalenessThreshold + 1 + last.updatedAt - s.now;
    es, s' := Snoc(c, s, [], Tick(if wait > 0 then wait else 0));
    DecidesToReplay(c, s.db, s'.now);
    es, s' := Snoc(c, s, es, Start(p, c.reparses));
    LatestIsLast(s.db.attempts);
    es, s' := Snoc(c, s, es, Advance);
  }

  /** The target answers a recovery request, the answer is stored, and the worker dies before recording it. */
  lemma StoredAndLost(c: Config, p: Payload, now: int) returns (es: seq<Event>, s: State)
    requires c.idempotency && c.requestRecovery
    ensures Run(c, Init(p, now), es) && s == After(c, Init(p, now), es)
    ensures s.pc.Idle? && AwaitsRecovery(c, s.db) && Last(s.db.attempts).hash == Some(c.hash(Request(Blank, p)))
    ensures RawResponse(Last(s.db.attempts).requestId, "", true) in s.db.artifacts
  {
    var s0 := Init(p, now);
    es, s := FirstCall(c, p, now);
    es, s := Snoc(c, s0, es, Crash);
    InitInv(c, p, now);
    RunKeepsInv(c, s0, es);
    var fs, t := RecoveryAsked(c, s, p);
    RunConcat(c, s0, es, fs);
    es, s := es + fs, t;
    LatestIsLast(s.db.attempts);
    es, s := Snoc(c, s0, es, Recover(Some("")));
    assert s.db.artifacts[|s.db.artifacts| - 1] == RawResponse(Last(s.db.attempts).requestId, "", true);
    es, s := Snoc(c, s0, es, Crash);
  }

  /** The worker then replays: the target is called again although its answer for the same request is stored. */
  lemma CallAfterRecovered(c: Config, p: Payload, now: int) returns (es: seq<Event>, fs: seq<Event>)
    requires CanReplay(c) && c.requestRecovery
    ensures var s0 := Init(p, now);
            && Run(c, s0, es) && Run(c, After(c, s0, es), fs)
            && After(c, s0, es).db.attempts != []
            && RawResponse(Last(After(c, s0, es).db.attempts).requestId, "", true) in After(c, s0, es).db.artifacts
            && |After(c, After(c, s0, es), fs).calls| == |After(c, s0, es).calls| + 1
  {
    var s, t;
    es, s := StoredAndLost(c, p, now);
    InitInv(c, p, now);
    RunKeepsInv(c, Init(p, now), es);
    fs, t := ReplayRun(c, s, p);
    fs, t := Snoc(c, s, fs, Issue);
  }

  lemma RawIsCaptured(c: Config, s: State)
    requires Inv(c, s) && RawCommitted(s)
    ensures Captured(s)
  {
    var i :| 0 <= i < |s.db.attempts| && s.db.attempts[i].rawResponse.Some?;
    assert Provenance(c, s.db.artifacts, s.db.attempts[i]);
    assert s.db.artifacts[s.db.attempts[i].rawResponse.value].RawResponse?;
  }

  lemma NotDurable(c: Config)
    requires !KeepsCaptured(c)
    ensures !CapturedDurable(c)
  {
    var p := Payload(QUERY, None, "", [], map[]);
    var es, fs;
    if c.requestRecovery {
      es, fs := CallAfterRecovered(c, p, 0);
    } else {
      es, fs := CallAfterRaw(c, p, 0);
      InitInv(c, p, 0);
      RunKeepsInv(c, Init(p, 0), es);
      RawIsCaptured(c, After(c, Init(p, 0), es));
    }
    assert Captured(After(c, Init(p, 0), es));
  }

  /** Over all crashing runs no stored response is ever followed by a call, exactly when the worker cannot replay, or
      stored responses parse again and none comes from request recovery. */
  lemma CapturedDurableExactly(c: Config)
    ensures CapturedDurable(c) <==> !CanReplay(c) || (c.reparses && !c.requestRecovery)
  {
    if KeepsCaptured(c) {
      forall payload, now, es, fs |
        var s0 := Init(payload, now);
        Run(c, s0, es) && Captured(After(c, s0, es)) && Run(c, After(c, s0, es), fs)
        ensures var s0 := Init(payload, now);
                After(c, After(c, s0, es), fs).calls == After(c, s0, es).calls
      {
        var s0 := Init(payload, now);
        InitInv(c, payload, now);
        RunKeepsInv(c, s0, es);
        CapturedRun(c, s0, es);
        CapturedRun(c, After(c, s0, es), fs);
      }
    } else {
      NotDurable(c);
    }
  }
}
