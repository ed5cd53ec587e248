/** What every state of every run of the case protocol satisfies. */
module ProtocolInvariants {
  import opened Wrappers
  import opened RetryPolicy
  import opened Lifecycle
  import opened Recovery
  import opened CaseProtocol

  // ----- attempt rows -----

  predicate Numbered(attempts: seq<Attempt>) {
    forall i :: 0 <= i < |attempts| ==> attempts[i].number == i + 1
  }

  function Last(attempts: seq<Attempt>): Attempt
    requires attempts != []
  {
    attempts[|attempts| - 1]
  }

  lemma {:induction false} LatestIsLast(attempts: seq<Attempt>)
    requires Numbered(attempts)
    ensures Latest(attempts) == if attempts == [] then None else Some(Last(attempts))
  {
    if attempts != [] {
      LatestIsLast(attempts[..|attempts| - 1]);
    }
  }

  lemma UpdateLast(attempts: seq<Attempt>, f: Attempt -> Attempt)
    requires Numbered(attempts) && attempts != []
    ensures UpdateAttempt(attempts, |attempts|, f) == attempts[|attempts| - 1 := f(Last(attempts))]
  {
  }

  /** The columns of one attempt agree with its status. */
  predicate RowOk(c: Config, a: Attempt) {
    && a.key.Some? && a.hash.Some? && a.startedAt.Some? && a.rawRequest.Some?
    && (match a.status
        case ATTEMPT_RUNNING =>
          a.finishedAt.None? && a.retryable.None? && a.error.None? && a.rawResponse.None? && a.observation.None?
        case RESPONSE_RECEIVED =>
          a.finishedAt.Some? && a.retryable == Some(false) && a.error.None?
          && (a.rawResponse.Some? || a.observation.Some?)
        case RETRYABLE_FAILURE =>
          a.finishedAt.Some? && a.retryable == Some(true) && a.error.Some? && a.rawResponse.None?
          && a.observation.None? && a.number < c.retry.maxAttempts
        case PERMANENT_FAILURE =>
          a.finishedAt.Some? && a.retryable == Some(false) && a.error.Some? && a.rawResponse.None?
          && a.observation.None?
        case _ => false)
  }

  predicate BackedBy(artifacts: seq<Artifact>, obs: Observation) {
    obs.artifact < |artifacts| && artifacts[obs.artifact] in
      {RawResponse(obs.requestId, obs.body, true), RawResponse(obs.requestId, obs.body, false)}
  }

  /** Every artifact pointer of an attempt leads to a stored artifact of that attempt's request, and an
      observation is what normalizing a stored raw response gives. */
  predicate Provenance(c: Config, artifacts: seq<Artifact>, a: Attempt) {
    && (a.rawRequest.Some? && a.hash.Some? ==>
          && a.rawRequest.value < |artifacts|
          && artifacts[a.rawRequest.value].RawRequest?
          && var sent := artifacts[a.rawRequest.value].request;
             sent.requestId == a.requestId && a.hash.value == c.hash(Request(Blank, sent.payload)))
    && (a.rawResponse.Some? ==>
          && a.rawResponse.value < |artifacts|
          && artifacts[a.rawResponse.value].RawResponse?
          && artifacts[a.rawResponse.value].requestId == a.requestId)
    && (a.observation.Some? ==>
          && a.observation.value.requestId == a.requestId
          && BackedBy(artifacts, a.observation.value)
          && (c.reparses && a.rawResponse.Some? ==> a.observation.value.artifact == a.rawResponse.value))
  }

  /** No usable outcome is recorded: the call may or may not have happened. */
  predicate Uncertain(c: Config, a: Attempt) {
    a.observation.None? && (a.status == ATTEMPT_RUNNING || (a.status == RESPONSE_RECEIVED && !c.reparses))
  }

  predicate CanReplay(c: Config) {
    c.idempotency && !c.uniqueRequestIds
  }

  predicate Rows(c: Config, db: Db) {
    && Numbered(db.attempts)
    && (forall i :: 0 <= i < |db.attempts| ==>
          RowOk(c, db.attempts[i]) && Provenance(c, db.artifacts, db.attempts[i]))
    && (forall i :: 0 <= i < |db.attempts| - 1 ==>
          db.attempts[i].status == RETRYABLE_FAILURE || (CanReplay(c) && Uncertain(c, db.attempts[i])))
  }

  /** The case status agrees with the latest attempt. */
  predicate Coupled(c: Config, db: Db) {
    && (db.finishedAt.Some? <==> db.status in {TARGET_COMPLETE, FAILED})
    && (db.attempts == [] <==> db.status == PENDING)
    && (db.attempts != [] ==>
          var last := Last(db.attempts);
          match db.status
          case RUNNING => last.observation.None? && last.status in {ATTEMPT_RUNNING, RESPONSE_RECEIVED}
          case UNKNOWN => Uncertain(c, last)
          case RETRY_PENDING => last.status == RETRYABLE_FAILURE
          case FAILED => last.status == PERMANENT_FAILURE
          case TARGET_COMPLETE => last.observation.Some?
          case _ => false)
  }

  // ----- request identity -----

  predicate SameIdentity(a: Attempt, b: Attempt) {
    a.requestId == b.requestId && a.key == b.key && a.hash == b.hash
  }

  /** `b` is `a` at a later time: identity never changes, and attached results and failures are never rewritten. */
  predicate Ages(a: Attempt, b: Attempt) {
    && a.number == b.number && SameIdentity(a, b) && a.startedAt == b.startedAt && a.rawRequest == b.rawRequest
    && (a.rawResponse.Some? ==> b.rawResponse == a.rawResponse)
    && (a.observation.Some? ==> b.observation == a.observation)
    && (a.status in {RETRYABLE_FAILURE, PERMANENT_FAILURE} ==> b == a)
  }

  predicate Extends(db: Db, db': Db) {
    && |db.attempts| <= |db'.attempts| && db.artifacts <= db'.artifacts
    && (forall i :: 0 <= i < |db.attempts| ==> Ages(db.attempts[i], db'.attempts[i]))
    && (forall i :: 0 <= i < |db.attempts| - 1 ==> db'.attempts[i] == db.attempts[i])
  }

  /** Attempts fall into contiguous chains; a chain is named by the attempt that heads it, all its members share
      the head's identity, and different chains use different request ids. */
  predicate Chained(attempts: seq<Attempt>) {
    && (forall i :: 0 <= i < |attempts| ==> attempts[i].key.Some? && 1 <= attempts[i].key.value.number <= i + 1)
    && (forall i, j :: 0 <= i < |attempts| && attempts[i].key.Some? && attempts[i].key.value.number - 1 <= j <= i ==>
          j >= 0 && SameIdentity(attempts[j], attempts[i]))
    && (forall i, j :: 0 <= i < |attempts| && 0 <= j < |attempts| && attempts[i].requestId == attempts[j].requestId ==>
          attempts[i].key == attempts[j].key)
  }

  predicate Identities(c: Config, s: State) {
    && Chained(s.db.attempts)
    && (forall i :: 0 <= i < |s.db.attempts| ==>
          s.db.attempts[i].requestId.Uuid? && s.db.attempts[i].requestId.serial < s.nextUuid)
    && (!CanReplay(c) ==> forall i :: 0 <= i < |s.db.attempts| ==> s.db.attempts[i].key == Some(AttemptKey(i + 1)))
  }

  /** Each attempt calls the target at most once, with the identity and payload its row records. */
  predicate CallsMatch(c: Config, s: State) {
    && (forall i, j :: 0 <= i < j < |s.calls| ==> s.calls[i].number < s.calls[j].number)
    && (forall i :: 0 <= i < |s.calls| ==>
          var call := s.calls[i];
          1 <= call.number <= |s.db.attempts|
          && (s.pc.Prepared? ==> call.number < |s.db.attempts|)
          && var a := s.db.attempts[call.number - 1];
             a.requestId == call.requestId && a.key == Some(call.key)
             && a.hash == Some(c.hash(Request(Blank, call.payload))))
  }

  // ----- retry budget -----

  predicate Open(a: Attempt) {
    a.observation.None? && a.status in {ATTEMPT_RUNNING, RESPONSE_RECEIVED}
  }

  function OpenCount(attempts: seq<Attempt>): nat {
    if attempts == [] then 0
    else OpenCount(attempts[..|attempts| - 1]) + if Open(Last(attempts)) then 1 else 0
  }

  predicate Budget(s: State) {
    OpenCount(s.db.attempts) <= s.interrupted + if InFlight(s.pc) then 1 else 0
  }

  // ----- the live worker -----

  predicate AwaitsRecovery(c: Config, db: Db) {
    db.attempts != [] && Uncertain(c, Last(db.attempts)) && db.status in {RUNNING, UNKNOWN}
  }

  predicate DecisionOk(c: Config, db: Db, d: Decision) {
    match d.action
    case SKIP =>
      db.status in {RUNNING, FAILED} && db.attempts != []
      && (c.reparses ==> Last(db.attempts).rawResponse.None?)
    case REUSE_OBSERVATION =>
      db.attempts != [] && d.observation.Some? && d.observation == Last(db.attempts).observation
    case RENORMALIZE_RAW =>
      && db.attempts != [] && Open(Last(db.attempts)) && Last(db.attempts).rawResponse.Some?
      && d.observation.Some? && Fits(db, d.observation.value)
      && d.observation.value.artifact == Last(db.attempts).rawResponse.value
    case RECOVER_REQUEST =>
      c.requestRecovery && AwaitsRecovery(c, db)
      && d.fallback == Some(if c.idempotency then IDEMPOTENT_REPLAY else MARK_UNKNOWN)
    case IDEMPOTENT_REPLAY => c.idempotency && AwaitsRecovery(c, db)
    case EXECUTE_NEW => db.status in {PENDING, RETRY_PENDING}
    case MARK_UNKNOWN => !c.idempotency && AwaitsRecovery(c, db)
  }

  /** `obs` may be recorded on the latest attempt. */
  predicate Fits(db: Db, obs: Observation) {
    db.attempts != [] && obs.requestId == Last(db.attempts).requestId && BackedBy(db.artifacts, obs)
  }

  predicate AtCall(c: Config, s: State, number: nat, id: Identity) {
    && AtRunning(s, number)
    && var a := Last(s.db.attempts);
       a.requestId == id.requestId && a.key == Some(id.key) && a.hash == Some(id.hash)
       && id.hash == c.hash(Request(Blank, s.payload))
  }

  predicate AtRunning(s: State, number: nat) {
    s.db.attempts != [] && number == |s.db.attempts| && s.db.status == RUNNING
    && Last(s.db.attempts).status == ATTEMPT_RUNNING
  }

  predicate PcOk(c: Config, s: State) {
    var db := s.db;
    match s.pc
    case Idle => true
    case Decided(d) => DecisionOk(c, db, d)
    case Recovering(fallback) => DecisionOk(c, db, Decision(RECOVER_REQUEST, None, fallback))
    case Recovered(obs) =>
      && c.requestRecovery && AwaitsRecovery(c, db) && Fits(db, obs)
      && !(c.reparses && Last(db.attempts).rawResponse.Some?)
    case LoopTop(made, previous, replay) =>
      && made == |db.attempts| && previous == Latest(db.attempts) && (replay ==> c.idempotency)
      && (db.status in {PENDING, RETRY_PENDING} || (replay && AwaitsRecovery(c, db)))
    case Prepared(number, id) => AtCall(c, s, number, id)
    case Calling(number, id) => AtCall(c, s, number, id)
    case Responded(number, id, _) => AtCall(c, s, number, id)
    case CallFailed(number, _) => AtRunning(s, number)
    case Normalizing(number, obs) =>
      && db.attempts != [] && number == |db.attempts| && db.status == RUNNING
      && Open(Last(db.attempts)) && Last(db.attempts).rawResponse == Some(obs.artifact) && Fits(db, obs)
    case Backoff(number) => number == |db.attempts| && db.status == RETRY_PENDING
    case Done(success, made) =>
      && made == |db.attempts| && (success <==> db.status == TARGET_COMPLETE)
      && (c.reparses && db.attempts != [] && Last(db.attempts).rawResponse.Some? ==> db.status == TARGET_COMPLETE)
  }

  predicate Inv(c: Config, s: State) {
    && Rows(c, s.db) && Coupled(c, s.db)
    && PcOk(c, s) && Identities(c, s) && CallsMatch(c, s) && Budget(s)
  }

  lemma InitInv(c: Config, payload: Payload, now: int)
    ensures Inv(c, Init(payload, now))
  {
  }

  // ----- preservation -----

  lemma {:induction false} OpenCountUpdate(attempts: seq<Attempt>, a: Attempt)
    requires attempts != []
    ensures var k := |attempts| - 1;
            OpenCount(attempts[k := a]) ==
            OpenCount(attempts) - (if Open(attempts[k]) then 1 else 0) + (if Open(a) then 1 else 0)
  {
    var k := |attempts| - 1;
    assert attempts[k := a][..k] == attempts[..k];
  }

  lemma {:induction false} OpenCountAppend(attempts: seq<Attempt>, a: Attempt)
    ensures OpenCount(attempts + [a]) == OpenCount(attempts) + if Open(a) then 1 else 0
  {
    assert (attempts + [a])[..|attempts|] == attempts;
  }

  /** A transaction that rewrites only the outcome columns of the latest attempt and may append artifacts. */
  predicate Settles(db: Db, db': Db, a: Attempt) {
    && db.attempts != [] && db'.attempts == db.attempts[|db.attempts| - 1 := a]
    && a.number == Last(db.attempts).number && SameIdentity(a, Last(db.attempts))
    && a.startedAt == Last(db.attempts).startedAt && a.rawRequest == Last(db.attempts).rawRequest
    && db.artifacts <= db'.artifacts
  }

  lemma ArtifactsGrow(c: Config, xs: seq<Artifact>, ys: seq<Artifact>, a: Attempt)
    requires xs <= ys && Provenance(c, xs, a)
    ensures Provenance(c, ys, a)
  {
  }

  lemma SettleRows(c: Config, db: Db, db': Db, a: Attempt)
    requires Rows(c, db) && Settles(db, db', a)
    requires RowOk(c, a) && Provenance(c, db'.artifacts, a)
    ensures Rows(c, db')
  {
    forall i | 0 <= i < |db'.attempts|
      ensures RowOk(c, db'.attempts[i]) && Provenance(c, db'.artifacts, db'.attempts[i])
    {
      if i < |db.attempts| - 1 {
        ArtifactsGrow(c, db.artifacts, db'.artifacts, db.attempts[i]);
      }
    }
  }

  lemma SettleIdentities(c: Config, s: State, s': State, a: Attempt)
    requires Identities(c, s) && Settles(s.db, s'.db, a) && s'.nextUuid == s.nextUuid
    ensures Identities(c, s')
  {
    var xs, ys := s.db.attempts, s'.db.attempts;
    assert forall i :: 0 <= i < |xs| ==> SameIdentity(ys[i], xs[i]);
    forall i, j | 0 <= i < |ys| && ys[i].key.Some? && ys[i].key.value.number - 1 <= j <= i
      ensures j >= 0 && SameIdentity(ys[j], ys[i])
    {
      assert SameIdentity(xs[j], xs[i]);
    }
  }

  lemma SettleCalls(c: Config, s: State, s': State, a: Attempt)
    requires CallsMatch(c, s) && Settles(s.db, s'.db, a) && s'.calls == s.calls && !s'.pc.Prepared?
    ensures CallsMatch(c, s')
  {
    assert forall i :: 0 <= i < |s.db.attempts| ==> SameIdentity(s'.db.attempts[i], s.db.attempts[i]);
  }

  lemma SettleExtends(db: Db, db': Db, a: Attempt)
    requires Settles(db, db', a) && Ages(Last(db.attempts), a)
    ensures Extends(db, db')
  {
  }

  /** Where an open attempt is settled in flight, it is the one the live worker counts for. */
  predicate KeepsBudget(s: State, s': State, before: Attempt, after: Attempt) {
    && s'.interrupted == s.interrupted
    && (Open(after) && InFlight(s.pc) ==> Open(before) && InFlight(s'.pc))
    && (InFlight(s.pc) && !InFlight(s'.pc) ==> Open(before) && !Open(after))
    && (Open(after) ==> Open(before))
  }

  lemma SettleBudget(s: State, s': State, a: Attempt)
    requires Budget(s) && Settles(s.db, s'.db, a) && KeepsBudget(s, s', Last(s.db.attempts), a)
    ensures Budget(s')
  {
    OpenCountUpdate(s.db.attempts, a);
  }

  /** One step that settles the latest attempt keeps the invariant, given that its own columns are right. */
  lemma SettleStep(c: Config, s: State, s': State, a: Attempt)
    requires Inv(c, s) && Settles(s.db, s'.db, a)
    requires RowOk(c, a) && Provenance(c, s'.db.artifacts, a) && Coupled(c, s'.db) && PcOk(c, s')
    requires Ages(Last(s.db.attempts), a)
    requires s'.calls == s.calls && s'.nextUuid == s.nextUuid && !s'.pc.Prepared?
    requires KeepsBudget(s, s', Last(s.db.attempts), a)
    ensures Inv(c, s') && Extends(s.db, s'.db)
  {
    SettleRows(c, s.db, s'.db, a);
    SettleIdentities(c, s, s', a);
    SettleCalls(c, s, s', a);
    SettleBudget(s, s', a);
    SettleExtends(s.db, s'.db, a);
  }

  lemma DecideOk(c: Config, db: Db, parses: bool, now: int)
    requires Numbered(db.attempts) && Coupled(c, db) && (c.reparses ==> parses)
    requires db.attempts != [] ==> RowOk(c, Last(db.attempts)) && Provenance(c, db.artifacts, Last(db.attempts))
    ensures DecisionOk(c, db, DecideRecovery(c, db, parses, now))
  {
    LatestIsLast(db.attempts);
    if db.attempts != [] {
      var last := Last(db.attempts);
      var renormalized := TryRenormalize(db, last, parses);
      if last.rawResponse.Some? && parses {
        var i := last.rawResponse.value;
        assert renormalized == Some(Normalize(last.requestId, db.artifacts[i].body, i));
        assert Fits(db, renormalized.value);
      }
    }
  }

  /** A step that touches neither the rows nor the history, and does not drop an attempt in flight. */
  lemma SameDbStep(c: Config, s: State, s': State)
    requires Inv(c, s)
    requires s'.db == s.db && s'.calls == s.calls && s'.nextUuid >= s.nextUuid && s'.interrupted >= s.interrupted
    requires PcOk(c, s') && !s'.pc.Prepared?
    requires InFlight(s.pc) ==> InFlight(s'.pc) || s'.interrupted > s.interrupted
    ensures Inv(c, s') && Extends(s.db, s'.db)
  {
  }

  lemma StartStep(c: Config, s: State, payload: Payload, parses: bool)
    requires Inv(c, s) && Enabled(c, s, Start(payload, parses))
    ensures Inv(c, Apply(c, s, Start(payload, parses))) && Extends(s.db, Apply(c, s, Start(payload, parses)).db)
  {
    DecideOk(c, s.db, parses, s.now);
    SameDbStep(c, s, Apply(c, s, Start(payload, parses)));
  }

  lemma ReuseStep(c: Config, s: State)
    requires Inv(c, s) && s.pc.Decided? && s.pc.decision.action == REUSE_OBSERVATION
    ensures Inv(c, Dispatch(c, s)) && Extends(s.db, Dispatch(c, s).db)
  {
    LatestIsLast(s.db.attempts);
    var xs, now := s.db.attempts, s.now;
    var f := (a: Attempt) => Received(a, now);
    UpdateLast(xs, f);
    assert RowOk(c, Last(xs)) && Provenance(c, s.db.artifacts, Last(xs));
    SettleStep(c, s, Dispatch(c, s), f(Last(xs)));
  }

  lemma RenormalizeStep(c: Config, s: State)
    requires Inv(c, s) && s.pc.Decided? && s.pc.decision.action == RENORMALIZE_RAW
    ensures Inv(c, Dispatch(c, s)) && Extends(s.db, Dispatch(c, s).db)
  {
    LatestIsLast(s.db.attempts);
    var xs, now, obs := s.db.attempts, s.now, s.pc.decision.observation.value;
    var f := (a: Attempt) => Received(if a.observation.None? then a.(observation := Some(obs)) else a, now);
    UpdateLast(xs, f);
    assert RowOk(c, Last(xs)) && Provenance(c, s.db.artifacts, Last(xs));
    SettleStep(c, s, Dispatch(c, s), f(Last(xs)));
  }

  lemma MarkUnknownStep(c: Config, s: State)
    requires Inv(c, s) && s.pc.Decided? && s.pc.decision.action == MARK_UNKNOWN
    ensures Inv(c, Dispatch(c, s)) && Extends(s.db, Dispatch(c, s).db)
  {
    LatestIsLast(s.db.attempts);
    var xs := s.db.attempts;
    assert RowOk(c, Last(xs));
    assert xs[|xs| - 1 := Last(xs)] == xs;
    SettleStep(c, s, Dispatch(c, s), Last(xs));
  }

  /** The branches that only move the program counter. */
  lemma RoutedPc(c: Config, s: State)
    requires s.pc.Decided? && PcOk(c, s) && Coupled(c, s.db) && Numbered(s.db.attempts)
    requires s.pc.decision.action !in {REUSE_OBSERVATION, RENORMALIZE_RAW, MARK_UNKNOWN}
    ensures var s' := Dispatch(c, s);
            s' == s.(pc := s'.pc) && PcOk(c, s') && !InFlight(s'.pc)
  {
    LatestIsLast(s.db.attempts);
  }

  lemma DispatchStep(c: Config, s: State)
    requires Inv(c, s) && s.pc.Decided?
    ensures Inv(c, Dispatch(c, s)) && Extends(s.db, Dispatch(c, s).db)
  {
    match s.pc.decision.action
    case REUSE_OBSERVATION => ReuseStep(c, s);
    case RENORMALIZE_RAW => RenormalizeStep(c, s);
    case MARK_UNKNOWN => MarkUnknownStep(c, s);
    case _ =>
      RoutedPc(c, s);
      SameDbStep(c, s, Dispatch(c, s));
  }

  /** A response stored but attached to nothing changes no row. */
  lemma LooseArtifact(c: Config, db: Db, x: Artifact)
    requires Rows(c, db) && Coupled(c, db)
    ensures var db' := db.(artifacts := db.artifacts + [x]);
            Rows(c, db') && Coupled(c, db') && Extends(db, db')
  {
    var ys := db.artifacts + [x];
    forall i | 0 <= i < |db.attempts| ensures Provenance(c, ys, db.attempts[i]) {
      ArtifactsGrow(c, db.artifacts, ys, db.attempts[i]);
    }
  }

  lemma StoredPc(c: Config, s: State, body: string)
    requires s.pc.Recovering? && PcOk(c, s) && Rows(c, s.db)
    ensures var s' := AfterRecovery(c, s, Some(body));
            && PcOk(c, s') && s'.pc.Recovered?
            && s'.db == s.db.(artifacts := s.db.artifacts + [RawResponse(Last(s.db.attempts).requestId, body, true)])
            && s' == s.(db := s'.db, pc := s'.pc)
  {
    LatestIsLast(s.db.attempts);
    assert RowOk(c, Last(s.db.attempts));
    var s' := AfterRecovery(c, s, Some(body));
    assert s'.db.artifacts[|s.db.artifacts|] == RawResponse(Last(s.db.attempts).requestId, body, true);
  }

  lemma SameRowsKeep(c: Config, s: State, s': State)
    requires Identities(c, s) && CallsMatch(c, s) && Budget(s)
    requires s'.db.attempts == s.db.attempts && s'.calls == s.calls && s'.nextUuid == s.nextUuid
    requires s'.interrupted == s.interrupted && !InFlight(s.pc) && !InFlight(s'.pc)
    ensures Identities(c, s') && CallsMatch(c, s') && Budget(s')
  {
  }

  lemma StoreStep(c: Config, s: State, body: string)
    requires Inv(c, s) && s.pc.Recovering?
    ensures Inv(c, AfterRecovery(c, s, Some(body))) && Extends(s.db, AfterRecovery(c, s, Some(body)).db)
  {
    StoredPc(c, s, body);
    LooseArtifact(c, s.db, RawResponse(Last(s.db.attempts).requestId, body, true));
    SameRowsKeep(c, s, AfterRecovery(c, s, Some(body)));
  }

  lemma RecoverStep(c: Config, s: State, result: Option<string>)
    requires Inv(c, s) && s.pc.Recovering?
    ensures Inv(c, AfterRecovery(c, s, result)) && Extends(s.db, AfterRecovery(c, s, result).db)
  {
    if result.Some? {
      StoreStep(c, s, result.value);
    } else {
      LatestIsLast(s.db.attempts);
      SameDbStep(c, s, AfterRecovery(c, s, None));
    }
  }

  /** The freshly created attempt: what is known about it and about the database it joins. */
  predicate Joins(c: Config, s: State, s': State, a: Attempt) {
    var xs := s.db.attempts;
    && s'.db.attempts == xs + [a] && a.number == |xs| + 1
    && s.db.artifacts <= s'.db.artifacts
    && s'.db.status == RUNNING && s'.db.finishedAt.None? && s'.calls == s.calls && s'.interrupted == s.interrupted
    && s'.nextUuid == s.nextUuid + 1
    && RowOk(c, a) && Provenance(c, s'.db.artifacts, a) && a.status == ATTEMPT_RUNNING
    && s'.pc.Prepared? && AtCall(c, s', s'.pc.number, s'.pc.id)
    && (if Inherits(s) then SameIdentity(a, Last(xs)) && !c.uniqueRequestIds && c.idempotency
        else a.requestId == Uuid(s.nextUuid) && a.key == Some(AttemptKey(|xs| + 1)))
  }

  lemma BeginJoins(c: Config, s: State)
    requires s.pc.LoopTop? && BeginAttempt(c, s).pc.Prepared?
    requires PcOk(c, s) && Numbered(s.db.attempts)
    ensures var s' := BeginAttempt(c, s); s'.db.attempts != [] && Joins(c, s, s', Last(s'.db.attempts))
  {
    LatestIsLast(s.db.attempts);
    var s', xs := BeginAttempt(c, s), s.db.attempts;
    if s.pc.replay && xs != [] {
      assert Last(xs) == xs[|xs| - 1];
      assert UsesRequestId(xs, Last(xs).requestId);
    }
    assert s'.db.artifacts[|s.db.artifacts|].request.payload == s.payload;
  }

  lemma JoinRows(c: Config, s: State, s': State, a: Attempt)
    requires Rows(c, s.db) && Coupled(c, s.db) && s.pc.LoopTop? && PcOk(c, s) && Joins(c, s, s', a)
    ensures Rows(c, s'.db)
  {
    var xs, ys := s.db.attempts, s'.db.attempts;
    forall i | 0 <= i < |ys| ensures RowOk(c, ys[i]) && Provenance(c, s'.db.artifacts, ys[i]) {
      if i < |xs| {
        ArtifactsGrow(c, s.db.artifacts, s'.db.artifacts, xs[i]);
      }
    }
  }

  predicate Inherits(s: State) {
    s.pc.LoopTop? && s.pc.replay && s.db.attempts != []
  }

  lemma JoinChains(xs: seq<Attempt>, a: Attempt)
    requires Chained(xs) && a.key.Some? && 1 <= a.key.value.number <= |xs| + 1
    requires a.key.value.number == |xs| + 1 || (xs != [] && SameIdentity(a, Last(xs)))
    ensures var ys := xs + [a];
            forall i, j :: 0 <= i < |ys| && ys[i].key.Some? && ys[i].key.value.number - 1 <= j <= i ==>
              j >= 0 && SameIdentity(ys[j], ys[i])
  {
    var ys := xs + [a];
    forall i, j | 0 <= i < |ys| && ys[i].key.Some? && ys[i].key.value.number - 1 <= j <= i
      ensures j >= 0 && SameIdentity(ys[j], ys[i])
    {
      if i < |xs| {
        assert SameIdentity(xs[j], xs[i]);
      } else if j < |xs| {
        assert SameIdentity(xs[j], xs[|xs| - 1]);
      }
    }
  }

  lemma JoinRequestIds(xs: seq<Attempt>, a: Attempt)
    requires forall i, j :: 0 <= i < |xs| && 0 <= j < |xs| && xs[i].requestId == xs[j].requestId ==>
               xs[i].key == xs[j].key
    requires (forall i :: 0 <= i < |xs| ==> xs[i].requestId != a.requestId) || (xs != [] && SameIdentity(a, Last(xs)))
    ensures var ys := xs + [a];
            forall i, j :: 0 <= i < |ys| && 0 <= j < |ys| && ys[i].requestId == ys[j].requestId ==>
              ys[i].key == ys[j].key
  {
    var ys, n := xs + [a], |xs|;
    forall i, j | 0 <= i < |ys| && 0 <= j < |ys| && ys[i].requestId == ys[j].requestId
      ensures ys[i].key == ys[j].key
    {
      if n > 0 && SameIdentity(a, Last(xs)) {
        var i', j' := if i == n then n - 1 else i, if j == n then n - 1 else j;
        assert xs[i'].requestId == xs[j'].requestId;
      }
    }
  }

  lemma JoinIdentities(c: Config, s: State, s': State, a: Attempt)
    requires Identities(c, s) && Joins(c, s, s', a)
    ensures Identities(c, s')
  {
    JoinChains(s.db.attempts, a);
    JoinRequestIds(s.db.attempts, a);
  }

  lemma JoinCalls(c: Config, s: State, s': State, a: Attempt)
    requires CallsMatch(c, s) && Joins(c, s, s', a)
    ensures CallsMatch(c, s')
  {
  }

  lemma JoinBudget(c: Config, s: State, s': State, a: Attempt)
    requires Budget(s) && s.pc.LoopTop? && Joins(c, s, s', a)
    ensures Budget(s') && Extends(s.db, s'.db)
  {
    OpenCountAppend(s.db.attempts, a);
  }

  lemma BeginStepOk(c: Config, s: State)
    requires Inv(c, s) && s.pc.LoopTop? && BeginAttempt(c, s).pc.Prepared?
    ensures Inv(c, BeginAttempt(c, s)) && Extends(s.db, BeginAttempt(c, s).db)
  {
    BeginJoins(c, s);
    JoinStep(c, s, BeginAttempt(c, s), Last(BeginAttempt(c, s).db.attempts));
  }

  lemma JoinStep(c: Config, s: State, s': State, a: Attempt)
    requires Inv(c, s) && s.pc.LoopTop? && Joins(c, s, s', a)
    ensures Inv(c, s') && Extends(s.db, s'.db)
  {
    JoinRows(c, s, s', a);
    JoinIdentities(c, s, s', a);
    JoinCalls(c, s, s', a);
    JoinBudget(c, s, s', a);
  }

  lemma BeginStep(c: Config, s: State)
    requires Inv(c, s) && s.pc.LoopTop?
    ensures Inv(c, BeginAttempt(c, s)) && Extends(s.db, BeginAttempt(c, s).db)
  {
    if BeginAttempt(c, s).pc.Prepared? {
      BeginStepOk(c, s);
    } else {
      assert BeginAttempt(c, s) == s.(nextUuid := s.nextUuid + 1, pc := Idle);
    }
  }

  lemma RecoveredStep(c: Config, s: State)
    requires Inv(c, s) && s.pc.Recovered?
    ensures Inv(c, Apply(c, s, Advance)) && Extends(s.db, Apply(c, s, Advance).db)
  {
    LatestIsLast(s.db.attempts);
    var xs, now, obs := s.db.attempts, s.now, s.pc.obs;
    var f := (a: Attempt) => Received(if a.observation.None? then a.(observation := Some(obs)) else a, now);
    UpdateLast(xs, f);
    assert RowOk(c, Last(xs)) && Provenance(c, s.db.artifacts, Last(xs));
    SettleStep(c, s, Apply(c, s, Advance), f(Last(xs)));
  }

  lemma ReceivedRowOk(c: Config, xs: seq<Artifact>, a: Attempt, body: string, now: int)
    requires RowOk(c, a) && Provenance(c, xs, a) && a.status == ATTEMPT_RUNNING
    ensures var b := Received(a.(rawResponse := Some(|xs|)), now);
            RowOk(c, b) && Provenance(c, xs + [RawResponse(a.requestId, body, false)], b) && Ages(a, b)
  {
    ArtifactsGrow(c, xs, xs + [RawResponse(a.requestId, body, false)], a);
  }

  lemma ResponseSettles(c: Config, s: State, a: Attempt)
    requires s.pc.Responded? && PcOk(c, s) && Rows(c, s.db) && Coupled(c, s.db)
    requires a == Received(Last(s.db.attempts).(rawResponse := Some(|s.db.artifacts|)), s.now)
    ensures var s' := Apply(c, s, Advance);
            && Settles(s.db, s'.db, a) && Coupled(c, s'.db) && PcOk(c, s')
            && s'.db.artifacts == s.db.artifacts + [RawResponse(a.requestId, s.pc.body, false)]
  {
    var artifact, now := |s.db.artifacts|, s.now;
    UpdateLast(s.db.attempts, (x: Attempt) => Received(x.(rawResponse := Some(artifact)), now));
    assert RowOk(c, Last(s.db.attempts));
    var xs := Apply(c, s, Advance).db.artifacts;
    assert xs[artifact] == RawResponse(a.requestId, s.pc.body, false);
  }

  lemma ResponseStep(c: Config, s: State)
    requires Inv(c, s) && s.pc.Responded?
    ensures Inv(c, Apply(c, s, Advance)) && Extends(s.db, Apply(c, s, Advance).db)
  {
    var a := Received(Last(s.db.attempts).(rawResponse := Some(|s.db.artifacts|)), s.now);
    ReceivedRowOk(c, s.db.artifacts, Last(s.db.attempts), s.pc.body, s.now);
    ResponseSettles(c, s, a);
    SettleStep(c, s, Apply(c, s, Advance), a);
  }

  lemma NormalizedSettles(c: Config, s: State, a: Attempt)
    requires s.pc.Normalizing? && PcOk(c, s) && Rows(c, s.db)
    requires a == Received(Last(s.db.attempts).(observation := Some(s.pc.obs)), s.now)
    ensures var s' := Apply(c, s, Advance);
            && Settles(s.db, s'.db, a) && Coupled(c, s'.db) && PcOk(c, s')
            && RowOk(c, a) && Provenance(c, s'.db.artifacts, a) && Ages(Last(s.db.attempts), a)
  {
    var obs, now := s.pc.obs, s.now;
    UpdateLast(s.db.attempts, (x: Attempt) => Received(x.(observation := Some(obs)), now));
    assert RowOk(c, Last(s.db.attempts)) && Provenance(c, s.db.artifacts, Last(s.db.attempts));
  }

  lemma NormalizedStep(c: Config, s: State)
    requires Inv(c, s) && s.pc.Normalizing?
    ensures Inv(c, Apply(c, s, Advance)) && Extends(s.db, Apply(c, s, Advance).db)
  {
    var a := Received(Last(s.db.attempts).(observation := Some(s.pc.obs)), s.now);
    NormalizedSettles(c, s, a);
    SettleStep(c, s, Apply(c, s, Advance), a);
  }

  function FailedRow(a: Attempt, error: ErrorRecord, willRetry: bool, now: int): Attempt {
    a.(status := if willRetry then RETRYABLE_FAILURE else PERMANENT_FAILURE,
       finishedAt := Some(now), updatedAt := now, retryable := Some(willRetry), error := Some(error))
  }

  lemma FailedRowOk(c: Config, artifacts: seq<Artifact>, a: Attempt, error: ErrorRecord, now: int)
    requires RowOk(c, a) && Provenance(c, artifacts, a) && a.status == ATTEMPT_RUNNING
    ensures var b := FailedRow(a, error, ShouldRetry(c.retry, error, a.number), now);
            RowOk(c, b) && Provenance(c, artifacts, b) && Ages(a, b) && !Open(b)
  {
  }

  lemma FailureStep(c: Config, s: State)
    requires Inv(c, s) && s.pc.CallFailed?
    ensures Inv(c, Apply(c, s, Advance)) && Extends(s.db, Apply(c, s, Advance).db)
  {
    var xs, now, error := s.db.attempts, s.now, s.pc.error;
    var willRetry := ShouldRetry(c.retry, error, s.pc.number);
    var f := (a: Attempt) => FailedRow(a, error, willRetry, now);
    UpdateLast(xs, f);
    FailedRowOk(c, s.db.artifacts, Last(xs), error, now);
    FailureSettles(c, s, f(Last(xs)));
    SettleStep(c, s, Apply(c, s, Advance), f(Last(xs)));
  }

  lemma FailureSettles(c: Config, s: State, a: Attempt)
    requires s.pc.CallFailed? && PcOk(c, s) && Rows(c, s.db)
    requires a == FailedRow(Last(s.db.attempts), s.pc.error, ShouldRetry(c.retry, s.pc.error, s.pc.number), s.now)
    ensures var s' := Apply(c, s, Advance);
            Settles(s.db, s'.db, a) && Coupled(c, s'.db) && PcOk(c, s')
  {
    var error, willRetry, now := s.pc.error, ShouldRetry(c.retry, s.pc.error, s.pc.number), s.now;
    UpdateLast(s.db.attempts, (x: Attempt) => FailedRow(x, error, willRetry, now));
    assert RowOk(c, Last(s.db.attempts));
  }

  lemma TickStep(c: Config, s: State, e: Event)
    requires Inv(c, s) && e.Tick?
    ensures Inv(c, Apply(c, s, e)) && Extends(s.db, Apply(c, s, e).db)
  {
    assert CallsMatch(c, Apply(c, s, e));
  }

  lemma QuietStep(c: Config, s: State, e: Event)
    requires Inv(c, s) && Enabled(c, s, e)
    requires e.Crash? || e.Respond? || e.Fail? || (e.Advance? && s.pc.Backoff?)
    ensures Inv(c, Apply(c, s, e)) && Extends(s.db, Apply(c, s, e).db)
  {
    LatestIsLast(s.db.attempts);
    SameDbStep(c, s, Apply(c, s, e));
  }

  lemma IssueStep(c: Config, s: State)
    requires Inv(c, s) && s.pc.Prepared?
    ensures Inv(c, Apply(c, s, Issue)) && Extends(s.db, Apply(c, s, Issue).db)
  {
    assert CallsMatch(c, Apply(c, s, Issue));
  }

  /** Every step of the protocol, a crash included, keeps the invariant. */
  lemma StepKeepsInv(c: Config, s: State, e: Event)
    requires Inv(c, s) && Enabled(c, s, e)
    ensures Inv(c, Apply(c, s, e)) && Extends(s.db, Apply(c, s, e).db)
  {
    match e
    case Issue => IssueStep(c, s);
    case Tick(_) => TickStep(c, s, e);
    case Start(payload, parses) => StartStep(c, s, payload, parses);
    case Recover(result) => RecoverStep(c, s, result);
    case Advance =>
      if s.pc.Decided? { DispatchStep(c, s); }
      else if s.pc.LoopTop? { BeginStep(c, s); }
      else if s.pc.Backoff? { QuietStep(c, s, e); }
      else if s.pc.Recovered? { RecoveredStep(c, s); }
      else if s.pc.Responded? { ResponseStep(c, s); }
      else if s.pc.Normalizing? { NormalizedStep(c, s); }
      else { FailureStep(c, s); }
    case _ => QuietStep(c, s, e);
  }

  lemma {:induction false} RunKeepsInv(c: Config, s: State, es: seq<Event>)
    requires Inv(c, s) && Run(c, s, es)
    ensures Inv(c, After(c, s, es))
    decreases |es|
  {
    if es != [] {
      StepKeepsInv(c, s, es[0]);
      RunKeepsInv(c, Apply(c, s, es[0]), es[1..]);
    }
  }

  lemma ReachedInv(c: Config, payload: Payload, now: int, es: seq<Event>)
    requires Run(c, Init(payload, now), es)
    ensures Inv(c, After(c, Init(payload, now), es))
  {
    InitInv(c, payload, now);
    RunKeepsInv(c, Init(payload, now), es);
  }
}
