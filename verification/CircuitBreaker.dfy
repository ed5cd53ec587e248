/** The circuit breaker shared by all workers of one target. Lock bodies are atomic; a waiter sleeps outside the lock,
    so its wake-up is a step of its own that interleaves with everything else. */
module CircuitBreaker {
  import opened Wrappers

  datatype CircuitState = CLOSED | OPEN | HALF_OPEN

  datatype BreakerConfig = BreakerConfig(failureThreshold: int, cooldown: int, successThreshold: int)

  datatype View = View(state: CircuitState, failures: int, successes: int, openedAt: Option<int>)

  const INITIAL := View(CLOSED, 0, 0, None)

  // ----- what each lock body does -----

  function HalfOpen(v: View): View {
    v.(state := HALF_OPEN, successes := 0)
  }

  function Opened(v: View, now: int): View {
    v.(state := OPEN, openedAt := Some(now), successes := 0)
  }

  predicate CooledDown(c: BreakerConfig, v: View, now: int) {
    v.openedAt.Some? && now - v.openedAt.value >= c.cooldown
  }

  function AfterAsk(c: BreakerConfig, v: View, now: int): View {
    if v.state == OPEN && CooledDown(c, v, now) then HalfOpen(v) else v
  }

  function AfterSuccess(c: BreakerConfig, v: View): View {
    match v.state
    case HALF_OPEN =>
      if v.successes + 1 >= c.successThreshold then INITIAL else v.(successes := v.successes + 1)
    case CLOSED => v.(failures := 0)
    case OPEN => v
  }

  function AfterFailure(c: BreakerConfig, v: View, now: int): View {
    var v' := v.(failures := v.failures + 1);
    match v.state
    case HALF_OPEN => Opened(v', now)
    case CLOSED => if v'.failures >= c.failureThreshold then Opened(v', now) else v'
    case OPEN => v'
  }

  function AfterWake(v: View): View {
    if v.state == OPEN then HalfOpen(v) else v
  }

  // ----- the object -----

  class CircuitBreaker {
    const config: BreakerConfig
    var state: CircuitState
    var failureCount: int
    var successCount: int
    var openedAt: Option<int>

    function Current(): View
      reads this
    {
      View(state, failureCount, successCount, openedAt)
    }

    constructor (config: BreakerConfig)
      ensures Current() == INITIAL && this.config == config
    {
      this.config := config;
      state, failureCount, successCount, openedAt := CLOSED, 0, 0, None;
    }

    method CanExecute(now: int) returns (admitted: bool)
      modifies this
      ensures Current() == AfterAsk(config, old(Current()), now)
      ensures admitted <==> state != OPEN
    {
      if state == CLOSED || state == HALF_OPEN {
        return true;
      }
      if openedAt.Some? {
        var elapsed := now - openedAt.value;
        if elapsed >= config.cooldown {
          state, successCount := HALF_OPEN, 0;
          return true;
        }
      }
      return false;
    }

    method RecordSuccess()
      modifies this
      ensures Current() == AfterSuccess(config, old(Current()))
    {
      if state == HALF_OPEN {
        successCount := successCount + 1;
        if successCount >= config.successThreshold {
          CloseCircuit();
        }
      } else if state == CLOSED {
        failureCount := 0;
      }
    }

    method RecordFailure(now: int)
      modifies this
      ensures Current() == AfterFailure(config, old(Current()), now)
    {
      failureCount := failureCount + 1;
      if state == HALF_OPEN {
        OpenCircuit(now);
      } else if state == CLOSED {
        if failureCount >= config.failureThreshold {
          OpenCircuit(now);
        }
      }
    }

    method OpenCircuit(now: int)
      modifies this
      ensures Current() == Opened(old(Current()), now)
    {
      state, openedAt, successCount := OPEN, Some(now), 0;
    }

    method CloseCircuit()
      modifies this
      ensures Current() == INITIAL
    {
      state, failureCount, successCount, openedAt := CLOSED, 0, 0, None;
    }

    /** `wait_for_cooldown` up to its sleep. `None`: it returns without sleeping; otherwise the seconds to sleep. */
    method BeginWait(now: int) returns (sleep: Option<int>)
      modifies this
      ensures Current() == AfterAsk(config, old(Current()), now)
      ensures sleep.None? <==> state != OPEN || openedAt.None?
      ensures sleep.Some? ==> sleep.value == openedAt.value + config.cooldown - now > 0
    {
      if state != OPEN {
        return None;
      }
      if openedAt.None? {
        return None;
      }
      var remaining := config.cooldown - (now - openedAt.value);
      if remaining <= 0 {
        state, successCount := HALF_OPEN, 0;
        return None;
      }
      return Some(remaining);
    }

    /** The lock body after the sleep; it does not look at the clock again. */
    method EndWait()
      modifies this
      ensures Current() == AfterWake(old(Current())) && state != OPEN
    {
      if state == OPEN {
        state, successCount := HALF_OPEN, 0;
      }
    }
  }

  // ----- histories -----

  /** `Ask` is `can_execute`, `Enter` the start of `wait_for_cooldown` by one waiter and `Wake` its end. */
  datatype Op =
    | Success
    | Failure
    | Ask
    | Enter(who: nat)
    | Wake(who: nat)
    | Tick(seconds: nat)

  /** `opening` is the opening time the sleeper read; its sleep lasts until that opening's cooldown is over. */
  datatype System = System(view: View, now: int, sleepers: map<nat, int>)

  predicate Enabled(c: BreakerConfig, s: System, op: Op) {
    match op
    case Enter(who) => who !in s.sleepers
    case Wake(who) => who in s.sleepers && s.now >= s.sleepers[who] + c.cooldown
    case _ => true
  }

  /** What one operation at time `now` does to the shared counters. */
  function Acted(c: BreakerConfig, v: View, op: Op, now: int): View {
    match op
    case Success => AfterSuccess(c, v)
    case Failure => AfterFailure(c, v, now)
    case Ask => AfterAsk(c, v, now)
    case Enter(_) => AfterAsk(c, v, now)
    case Wake(_) => AfterWake(v)
    case Tick(_) => v
  }

  function Step(c: BreakerConfig, s: System, op: Op): System {
    var v := Acted(c, s.view, op, s.now);
    match op
    case Enter(who) =>
      if v.state == OPEN && v.openedAt.Some? then s.(view := v, sleepers := s.sleepers[who := v.openedAt.value])
      else s.(view := v)
    case Wake(who) => s.(view := v, sleepers := s.sleepers - {who})
    case Tick(seconds) => s.(now := s.now + seconds)
    case _ => s.(view := v)
  }

  function After(c: BreakerConfig, start: int, ops: seq<Op>): System {
    if ops == [] then System(INITIAL, start, map[])
    else Step(c, After(c, start, ops[..|ops| - 1]), ops[|ops| - 1])
  }

  predicate Run(c: BreakerConfig, start: int, ops: seq<Op>) {
    ops == [] ||
    (Run(c, start, ops[..|ops| - 1]) && Enabled(c, After(c, start, ops[..|ops| - 1]), ops[|ops| - 1]))
  }

  /** The failures recorded since the last recorded success, read off the history alone. */
  function TrailingFailures(ops: seq<Op>): nat {
    if ops == [] then 0
    else
      var front, last := ops[..|ops| - 1], ops[|ops| - 1];
      if last.Success? then 0 else TrailingFailures(front) + if last.Failure? then 1 else 0
  }

  function Successes(ops: seq<Op>): nat {
    if ops == [] then 0
    else Successes(ops[..|ops| - 1]) + if ops[|ops| - 1].Success? then 1 else 0
  }

  function AtLeastOne(n: int): int {
    if n < 1 then 1 else n
  }

  /** The opening time exists exactly outside CLOSED, no opening lies in the future, and every sleeper read one. */
  lemma {:induction false} OpeningTimes(c: BreakerConfig, start: int, ops: seq<Op>)
    requires Run(c, start, ops)
    ensures var s := After(c, start, ops);
            && (s.view.openedAt.Some? <==> s.view.state != CLOSED)
            && (s.view.openedAt.Some? ==> s.view.openedAt.value <= s.now)
            && (forall who :: who in s.sleepers ==> s.sleepers[who] <= s.now)
  {
    if ops != [] {
      OpeningTimes(c, start, ops[..|ops| - 1]);
    }
  }

  /** In CLOSED the counter is the run of failures since the last success, and it stays below the threshold. */
  lemma {:induction false} ClosedCountsFailures(c: BreakerConfig, start: int, ops: seq<Op>)
    ensures var v := After(c, start, ops).view;
            v.state == CLOSED ==>
              v.failures == TrailingFailures(ops) && TrailingFailures(ops) < AtLeastOne(c.failureThreshold)
  {
    if ops != [] {
      ClosedCountsFailures(c, start, ops[..|ops| - 1]);
    }
  }

  /** CLOSED is left exactly by the failure that completes `failure_threshold` consecutive ones, and to OPEN. */
  lemma OpensExactly(c: BreakerConfig, start: int, ops: seq<Op>, op: Op)
    requires After(c, start, ops).view.state == CLOSED
    ensures var v := Step(c, After(c, start, ops), op).view;
            && (v.state != CLOSED <==> op.Failure? && TrailingFailures(ops) + 1 == AtLeastOne(c.failureThreshold))
            && (v.state != CLOSED ==> v.state == OPEN && v.openedAt == Some(After(c, start, ops).now))
  {
    ClosedCountsFailures(c, start, ops);
  }

  lemma Snoc(c: BreakerConfig, start: int, ops: seq<Op>, op: Op)
    ensures After(c, start, ops + [op]) == Step(c, After(c, start, ops), op)
    ensures Run(c, start, ops + [op]) <==> Run(c, start, ops) && Enabled(c, After(c, start, ops), op)
    ensures Successes(ops + [op]) == Successes(ops) + if op.Success? then 1 else 0
  {
    assert (ops + [op])[..|ops|] == ops;
  }

  /** Step `k` entered HALF_OPEN, nothing has left it since, and no failure was recorded in it. */
  predicate HalfOpenSince(c: BreakerConfig, start: int, ops: seq<Op>, k: nat) {
    && k < |ops| && After(c, start, ops[..k]).view.state == OPEN
    && (forall j :: k < j <= |ops| ==> After(c, start, ops[..j]).view.state == HALF_OPEN)
    && Failure !in ops[k + 1..]
  }

  lemma HalfOpenGrows(c: BreakerConfig, start: int, ops: seq<Op>, op: Op, k: nat)
    requires HalfOpenSince(c, start, ops, k) && op != Failure
    requires After(c, start, ops + [op]).view.state == HALF_OPEN
    ensures HalfOpenSince(c, start, ops + [op], k)
  {
    var all := ops + [op];
    assert all[..k] == ops[..k];
    assert all[k + 1..] == ops[k + 1..] + [op];
    forall j | k < j <= |all| ensures After(c, start, all[..j]).view.state == HALF_OPEN {
      if j <= |ops| {
        assert all[..j] == ops[..j];
      } else {
        assert all[..j] == all;
      }
    }
  }

  /** Outside HALF_OPEN no successes are counted. */
  lemma {:induction false} SuccessesOnlyInHalfOpen(c: BreakerConfig, start: int, ops: seq<Op>)
    ensures After(c, start, ops).view.state != HALF_OPEN ==> After(c, start, ops).view.successes == 0
  {
    if ops != [] {
      SuccessesOnlyInHalfOpen(c, start, ops[..|ops| - 1]);
    }
  }

  /** What one step into or within HALF_OPEN does to the success counter. */
  lemma HalfOpenStep(c: BreakerConfig, s: System, op: Op)
    requires Enabled(c, s, op) && Step(c, s, op).view.state == HALF_OPEN
    ensures s.view.state != HALF_OPEN ==> s.view.state == OPEN && Step(c, s, op).view.successes == 0
    ensures s.view.state == HALF_OPEN ==>
              op != Failure && Step(c, s, op).view.successes == s.view.successes + (if op.Success? then 1 else 0)
    ensures s.view.state == HALF_OPEN && op.Success? ==> Step(c, s, op).view.successes < c.successThreshold
  {
  }

  lemma HalfOpenEntered(c: BreakerConfig, start: int, front: seq<Op>, op: Op)
    requires After(c, start, front).view.state == OPEN && After(c, start, front + [op]).view.state == HALF_OPEN
    ensures HalfOpenSince(c, start, front + [op], |front|)
  {
    var ops := front + [op];
    assert ops[..|front|] == front && ops[..|ops|] == ops && ops[|front| + 1..] == [];
  }

  lemma SuccessesAfter(c: BreakerConfig, start: int, front: seq<Op>, op: Op, k: nat)
    requires k < |front|
    ensures Successes((front + [op])[k + 1..]) == Successes(front[k + 1..]) + if op.Success? then 1 else 0
  {
    assert (front + [op])[k + 1..] == front[k + 1..] + [op];
    Snoc(c, start, front[k + 1..], op);
  }

  /** In HALF_OPEN: since the step that entered it there was no failure, and the counter is the number of
      successes, still short of the threshold. */
  lemma {:induction false} HalfOpenCountsSuccesses(c: BreakerConfig, start: int, ops: seq<Op>) returns (k: nat)
    requires Run(c, start, ops) && After(c, start, ops).view.state == HALF_OPEN
    ensures HalfOpenSince(c, start, ops, k)
    ensures After(c, start, ops).view.successes == Successes(ops[k + 1..])
    ensures Successes(ops[k + 1..]) == 0 || Successes(ops[k + 1..]) < c.successThreshold
  {
    var front, last := ops[..|ops| - 1], ops[|ops| - 1];
    assert ops == front + [last];
    HalfOpenStep(c, After(c, start, front), last);
    if After(c, start, front).view.state == HALF_OPEN {
      k := HalfOpenCountsSuccesses(c, start, front);
      HalfOpenGrows(c, start, front, last, k);
      SuccessesAfter(c, start, front, last, k);
    } else {
      k := |front|;
      HalfOpenEntered(c, start, front, last);
      assert ops[k + 1..] == [];
    }
  }

  /** HALF_OPEN closes exactly at the success that completes `success_threshold`, reopens exactly at a failure, and
      has no other exit. `k` is the step that entered HALF_OPEN. */
  lemma ClosesExactly(c: BreakerConfig, start: int, ops: seq<Op>, op: Op) returns (k: nat)
    requires Run(c, start, ops) && After(c, start, ops).view.state == HALF_OPEN
    ensures HalfOpenSince(c, start, ops, k)
    ensures var v := Step(c, After(c, start, ops), op).view;
            && (v.state == CLOSED <==>
                  op.Success? && Successes(ops[k + 1..]) + 1 == AtLeastOne(c.successThreshold))
            && (v.state == OPEN <==> op.Failure?)
  {
    k := HalfOpenCountsSuccesses(c, start, ops);
  }

  // ----- admission and timing -----

  /** The step lets an attempt through: `can_execute` says yes, or `wait_for_cooldown` returns. */
  predicate Admits(c: BreakerConfig, s: System, op: Op) {
    match op
    case Ask => AfterAsk(c, s.view, s.now).state != OPEN
    case Enter(who) => who !in Step(c, s, op).sleepers
    case Wake(_) => true
    case _ => false
  }

  /** No attempt is admitted while the breaker is OPEN. */
  lemma NeverAdmitsWhileOpen(c: BreakerConfig, start: int, ops: seq<Op>, op: Op)
    requires Run(c, start, ops) && Enabled(c, After(c, start, ops), op) && Admits(c, After(c, start, ops), op)
    ensures Step(c, After(c, start, ops), op).view.state != OPEN
  {
    OpeningTimes(c, start, ops);
  }

  predicate LeavesOpen(c: BreakerConfig, s: System, op: Op) {
    s.view.state == OPEN && Step(c, s, op).view.state != OPEN
  }

  predicate Opens(c: BreakerConfig, start: int, ops: seq<Op>, m: nat)
    requires m < |ops|
  {
    After(c, start, ops[..m]).view.state != OPEN && After(c, start, ops[..m + 1]).view.state == OPEN
  }

  /** Step `i` opened the breaker, and no later step opened it again. */
  predicate LastOpening(c: BreakerConfig, start: int, ops: seq<Op>, i: nat) {
    i < |ops| && ops[i] == Failure && Opens(c, start, ops, i)
    && forall m :: i < m < |ops| ==> !Opens(c, start, ops, m)
  }

  /** Step `j` put `who` to sleep while the breaker was OPEN, and `who` has not woken since. */
  predicate SleepsSince(c: BreakerConfig, start: int, ops: seq<Op>, who: nat, j: nat) {
    j < |ops| && ops[j] == Enter(who) && After(c, start, ops[..j]).view.state == OPEN
    && forall m :: j < m < |ops| ==> ops[m] != Wake(who)
  }

  lemma StepOpens(c: BreakerConfig, start: int, front: seq<Op>, last: Op)
    ensures Opens(c, start, front + [last], |front|) <==>
            After(c, start, front).view.state != OPEN && After(c, start, front + [last]).view.state == OPEN
    ensures forall m :: 0 <= m < |front| ==> (Opens(c, start, front + [last], m) <==> Opens(c, start, front, m))
  {
    var ops := front + [last];
    assert ops[..|front|] == front && ops[..|front| + 1] == ops;
    forall m | 0 <= m < |front| ensures Opens(c, start, ops, m) <==> Opens(c, start, front, m) {
      assert ops[..m] == front[..m] && ops[..m + 1] == front[..m + 1];
    }
  }

  /** Outside CLOSED the opening time is the time of the last opening step. */
  lemma {:induction false} OpeningStep(c: BreakerConfig, start: int, ops: seq<Op>) returns (i: nat)
    requires After(c, start, ops).view.state != CLOSED
    ensures LastOpening(c, start, ops, i)
    ensures After(c, start, ops).view.openedAt == Some(After(c, start, ops[..i]).now)
  {
    var front, last := ops[..|ops| - 1], ops[|ops| - 1];
    assert ops == front + [last];
    StepOpens(c, start, front, last);
    if Opens(c, start, ops, |front|) {
      i := |front|;
    } else {
      i := OpeningStep(c, start, front);
      assert ops[..i] == front[..i];
    }
  }

  /** Outside OPEN everything is admitted and leaves the breaker as it is. In OPEN a request or a waiter is admitted
      exactly from a full cooldown after the last opening step `i` on, a sleeper whenever it wakes, and any of them
      takes the breaker to HALF_OPEN. */
  lemma AdmittedExactly(c: BreakerConfig, start: int, ops: seq<Op>, op: Op) returns (i: nat)
    requires Run(c, start, ops) && Enabled(c, After(c, start, ops), op)
    requires op.Ask? || op.Enter? || op.Wake?
    ensures var s, s' := After(c, start, ops), Step(c, After(c, start, ops), op);
            if s.view.state != OPEN then Admits(c, s, op) && s'.view == s.view
            else
              && LastOpening(c, start, ops, i)
              && (Admits(c, s, op) <==> op.Wake? || s.now >= After(c, start, ops[..i]).now + c.cooldown)
              && (if Admits(c, s, op) then s'.view.state == HALF_OPEN && s'.view.successes == 0
                  else s'.view == s.view)
  {
    i := 0;
    OpeningTimes(c, start, ops);
    if After(c, start, ops).view.state == OPEN {
      i := OpeningStep(c, start, ops);
    }
  }

  /** The failures recorded since the breaker last was CLOSED with a success: by one while CLOSED, or by closing. */
  function Remembered(c: BreakerConfig, start: int, ops: seq<Op>): nat {
    if ops == [] then 0
    else
      var front, last := ops[..|ops| - 1], ops[|ops| - 1];
      if last.Success? && After(c, start, ops).view.state == CLOSED then 0
      else Remembered(c, start, front) + if last.Failure? then 1 else 0
  }

  /** In every state the failure counter is the number of failures since then. */
  lemma {:induction false} FailuresRemembered(c: BreakerConfig, start: int, ops: seq<Op>)
    ensures After(c, start, ops).view.failures == Remembered(c, start, ops)
  {
    if ops != [] {
      FailuresRemembered(c, start, ops[..|ops| - 1]);
    }
  }

  /** A sleeper went to sleep in an OPEN breaker, and what it sleeps out is the cooldown of the opening it read
      there. */
  lemma {:induction false} SleeperEntered(c: BreakerConfig, start: int, ops: seq<Op>, who: nat) returns (j: nat)
    requires Run(c, start, ops) && who in After(c, start, ops).sleepers
    ensures SleepsSince(c, start, ops, who, j)
    ensures After(c, start, ops[..j]).view.openedAt == Some(After(c, start, ops).sleepers[who])
  {
    var front, last := ops[..|ops| - 1], ops[|ops| - 1];
    if who in After(c, start, front).sleepers {
      j := SleeperEntered(c, start, front, who);
      assert ops[..j] == front[..j];
    } else {
      j := |front|;
    }
  }

  lemma LastOpeningUnique(c: BreakerConfig, start: int, ops: seq<Op>, j: nat, i: nat, k: nat)
    requires i < j <= |ops| && LastOpening(c, start, ops, i) && LastOpening(c, start, ops[..j], k)
    ensures i == k
  {
    assert ops[..j][..i] == ops[..i] && ops[..j][..i + 1] == ops[..i + 1];
    assert ops[..j][..k] == ops[..k] && ops[..j][..k + 1] == ops[..k + 1];
    assert Opens(c, start, ops[..j], i) && Opens(c, start, ops, k);
  }

  /** OPEN is left only to HALF_OPEN: by a request a full cooldown after the last opening step `i`, or by a sleeper
      that entered an OPEN breaker at step `j` and has slept since, a full cooldown after the opening step `k` in
      force then. */
  lemma LeavesOpenAfterCooldown(c: BreakerConfig, start: int, ops: seq<Op>, op: Op) returns (i: nat, j: nat, k: nat)
    requires Run(c, start, ops) && Enabled(c, After(c, start, ops), op) && LeavesOpen(c, After(c, start, ops), op)
    ensures Step(c, After(c, start, ops), op).view.state == HALF_OPEN
    ensures op.Ask? || op.Enter? || op.Wake?
    ensures LastOpening(c, start, ops, i)
    ensures !op.Wake? ==> After(c, start, ops).now >= After(c, start, ops[..i]).now + c.cooldown
    ensures op.Wake? ==>
              && SleepsSince(c, start, ops, op.who, j)
              && LastOpening(c, start, ops[..j], k)
              && After(c, start, ops).now >= After(c, start, ops[..k]).now + c.cooldown
  {
    OpeningTimes(c, start, ops);
    i := OpeningStep(c, start, ops);
    j, k := 0, 0;
    if op.Wake? {
      j := SleeperEntered(c, start, ops, op.who);
      k := OpeningStep(c, start, ops[..j]);
      assert ops[..j][..k] == ops[..k];
    }
  }

  /** Until a full cooldown after the last opening step, the only attempts admitted from OPEN are those of sleepers that
      entered before that step. */
  lemma AdmittedDuringCooldown(c: BreakerConfig, start: int, ops: seq<Op>, op: Op) returns (i: nat, j: nat)
    requires Run(c, start, ops) && Enabled(c, After(c, start, ops), op) && Admits(c, After(c, start, ops), op)
    requires After(c, start, ops).view.state == OPEN
    ensures LastOpening(c, start, ops, i)
    ensures After(c, start, ops).now < After(c, start, ops[..i]).now + c.cooldown ==>
              op.Wake? && SleepsSince(c, start, ops, op.who, j) && j < i
  {
    NeverAdmitsWhileOpen(c, start, ops, op);
    var k;
    i, j, k := LeavesOpenAfterCooldown(c, start, ops, op);
    if op.Wake? && i < j {
      LastOpeningUnique(c, start, ops, j, i, k);
    }
  }

  /** The current opening's cooldown is cut short exactly when a sleeper wakes that had read an earlier opening and
      the breaker reopened less than a cooldown ago. */
  lemma EarlyExitExactly(c: BreakerConfig, start: int, ops: seq<Op>, op: Op)
    requires Run(c, start, ops) && Enabled(c, After(c, start, ops), op) && After(c, start, ops).view.state == OPEN
    ensures var s := After(c, start, ops);
            && s.view.openedAt.Some?
            && (LeavesOpen(c, s, op) && s.now - s.view.openedAt.value < c.cooldown <==>
                  op.Wake? && s.sleepers[op.who] != s.view.openedAt.value
                  && s.now - s.view.openedAt.value < c.cooldown)
  {
    OpeningTimes(c, start, ops);
  }

  function Failures(n: nat): seq<Op> {
    seq(n, _ => Failure)
  }

  lemma {:induction false} FailuresOpen(c: BreakerConfig, start: int, n: nat)
    requires n <= AtLeastOne(c.failureThreshold)
    ensures Run(c, start, Failures(n))
    ensures After(c, start, Failures(n)) ==
            System(if n < AtLeastOne(c.failureThreshold) then View(CLOSED, n, 0, None)
                   else View(OPEN, n, 0, Some(start)), start, map[])
  {
    if n > 0 {
      FailuresOpen(c, start, n - 1);
      assert Failures(n)[..n - 1] == Failures(n - 1);
    }
  }

  /** Such an early exit happens under every configuration with a cooldown: a sleeper of the first opening ends the
      second one at once. */
  lemma EarlyExitHappens(c: BreakerConfig)
    requires c.cooldown > 0
    ensures var ops := Failures(AtLeastOne(c.failureThreshold)) + [Enter(0)] + [Tick(c.cooldown)] + [Ask] + [Failure];
            && Run(c, 0, ops) && Enabled(c, After(c, 0, ops), Wake(0))
            && LeavesOpen(c, After(c, 0, ops), Wake(0))
            && After(c, 0, ops).view.openedAt == Some(After(c, 0, ops).now)
  {
    var tripped := Failures(AtLeastOne(c.failureThreshold));
    FailuresOpen(c, 0, AtLeastOne(c.failureThreshold));
    Snoc(c, 0, tripped, Enter(0));
    Snoc(c, 0, tripped + [Enter(0)], Tick(c.cooldown));
    Snoc(c, 0, tripped + [Enter(0)] + [Tick(c.cooldown)], Ask);
    Snoc(c, 0, tripped + [Enter(0)] + [Tick(c.cooldown)] + [Ask], Failure);
  }
}
