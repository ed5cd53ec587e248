/** The bounded worker pool: one FIFO queue holding the selected cases and then one sentinel per worker, drained by
    workers that interleave in any order. */
module WorkerPool {

  type CaseId = string

  datatype Item = Case(id: CaseId) | Sentinel

  datatype Worker =
    | Ready(failures: nat)
    | Executing(id: CaseId, failures: nat)
    | Finished(failures: nat)

  /** `started` and `ended` record, in order, which executions began and how they ended. */
  datatype Pool = Pool(queue: seq<Item>, workers: seq<Worker>, started: seq<CaseId>, ended: seq<(CaseId, bool)>)

  /** A Ready worker gets an item; an Executing worker's case ends, raising or not. */
  datatype Event = Get(worker: nat) | End(worker: nat, raised: bool)

  function Min(a: nat, b: nat): nat {
    if a <= b then a else b
  }

  function Queued(cases: seq<CaseId>): seq<Item> {
    seq(|cases|, i requires 0 <= i < |cases| => Case(cases[i]))
  }

  function Sentinels(n: nat): seq<Item> {
    seq(n, _ => Sentinel)
  }

  function Init(cases: seq<CaseId>, concurrency: nat): Pool {
    var n := Min(concurrency, |cases|);
    Pool(Queued(cases) + Sentinels(n), seq(n, _ => Ready(0)), [], [])
  }

  predicate Enabled(p: Pool, e: Event) {
    e.worker < |p.workers| &&
    match e
    case Get(w) => p.workers[w].Ready? && p.queue != []
    case End(w, _) => p.workers[w].Executing?
  }

  function Apply(p: Pool, e: Event): Pool
    requires Enabled(p, e)
  {
    match e
    case Get(w) =>
      var failures := p.workers[w].failures;
      (match p.queue[0]
       case Sentinel => p.(queue := p.queue[1..], workers := p.workers[w := Finished(failures)])
       case Case(id) =>
         p.(queue := p.queue[1..], workers := p.workers[w := Executing(id, failures)], started := p.started + [id]))
    case End(w, raised) =>
      var Executing(id, failures) := p.workers[w];
      p.(workers := p.workers[w := Ready(failures + if raised then 1 else 0)], ended := p.ended + [(id, raised)])
  }

  // ----- sums over the workers -----

  datatype Quantity = DoneCount | BusyCount | Failures | RunningOf(id: CaseId)

  function Weight(q: Quantity, w: Worker): nat {
    match q
    case DoneCount => if w.Finished? then 1 else 0
    case BusyCount => if w.Executing? then 1 else 0
    case Failures => w.failures
    case RunningOf(id) => if w.Executing? && w.id == id then 1 else 0
  }

  function Sum(workers: seq<Worker>, q: Quantity): nat {
    if workers == [] then 0 else Sum(workers[..|workers| - 1], q) + Weight(q, workers[|workers| - 1])
  }

  lemma {:induction false} SumUpdate(workers: seq<Worker>, w: nat, v: Worker, q: Quantity)
    requires w < |workers|
    ensures Sum(workers[w := v], q) + Weight(q, workers[w]) == Sum(workers, q) + Weight(q, v)
  {
    var n := |workers| - 1;
    if w == n {
      assert workers[w := v][..n] == workers[..n];
    } else {
      assert workers[w := v][..n] == workers[..n][w := v];
      SumUpdate(workers[..n], w, v, q);
    }
  }

  lemma {:induction false} SumBounds(workers: seq<Worker>)
    ensures Sum(workers, DoneCount) + Sum(workers, BusyCount) <= |workers|
    ensures Sum(workers, DoneCount) == |workers| ==> forall i :: 0 <= i < |workers| ==> workers[i].Finished?
    ensures (exists i :: 0 <= i < |workers| && !workers[i].Finished?) ==> Sum(workers, DoneCount) < |workers|
    ensures Sum(workers, BusyCount) == 0 ==> forall id :: Sum(workers, RunningOf(id)) == 0
  {
    if workers != [] {
      SumBounds(workers[..|workers| - 1]);
    }
  }

  function Times(ids: seq<CaseId>, id: CaseId): nat {
    if ids == [] then 0
    else Times(ids[..|ids| - 1], id) + if ids[|ids| - 1] == id then 1 else 0
  }

  function TimesEnded(ended: seq<(CaseId, bool)>, id: CaseId): nat {
    if ended == [] then 0
    else TimesEnded(ended[..|ended| - 1], id) + if ended[|ended| - 1].0 == id then 1 else 0
  }

  function Raised(ended: seq<(CaseId, bool)>): nat {
    if ended == [] then 0
    else Raised(ended[..|ended| - 1]) + if ended[|ended| - 1].1 then 1 else 0
  }

  // ----- the invariant of every interleaving -----

  /** Cases start in queue order, and the queue is the unstarted ones followed by a sentinel per unfinished worker. */
  predicate QueueOk(cases: seq<CaseId>, n: nat, p: Pool) {
    var k, finished := |p.started|, Sum(p.workers, DoneCount);
    && |p.workers| == n && finished <= n
    && k <= |cases| && p.started == cases[..k]
    && p.queue == Queued(cases[k..]) + Sentinels(n - finished)
    && (finished > 0 ==> k == |cases|)
  }

  /** Every started case is either running or ended, and failures are counted where they are raised. */
  ghost predicate CountsOk(p: Pool) {
    && (forall id :: Times(p.started, id) == Sum(p.workers, RunningOf(id)) + TimesEnded(p.ended, id))
    && |p.started| == Sum(p.workers, BusyCount) + |p.ended|
    && Sum(p.workers, Failures) == Raised(p.ended)
  }

  ghost predicate Inv(cases: seq<CaseId>, n: nat, p: Pool) {
    QueueOk(cases, n, p) && CountsOk(p)
  }

  lemma {:induction false} FreshSums(n: nat)
    ensures var ws := seq(n, _ => Ready(0));
            Sum(ws, DoneCount) == Sum(ws, BusyCount) == Sum(ws, Failures) == 0
            && forall id :: Sum(ws, RunningOf(id)) == 0
  {
    if n > 0 {
      assert seq(n, _ => Ready(0))[..n - 1] == seq(n - 1, _ => Ready(0));
      FreshSums(n - 1);
    }
  }

  lemma InitInv(cases: seq<CaseId>, concurrency: nat)
    ensures Inv(cases, Min(concurrency, |cases|), Init(cases, concurrency))
  {
    FreshSums(Min(concurrency, |cases|));
    assert cases[0..] == cases;
  }

  lemma QueueFront(cases: seq<CaseId>, n: nat, p: Pool)
    requires QueueOk(cases, n, p) && p.queue != []
    ensures p.queue[0] == if |p.started| < |cases| then Case(cases[|p.started|]) else Sentinel
  {
    var k := |p.started|;
    assert |Queued(cases[k..])| == |cases| - k;
    if k < |cases| {
      assert p.queue[0] == Queued(cases[k..])[0];
    }
  }

  lemma GetSentinel(cases: seq<CaseId>, n: nat, p: Pool, w: nat)
    requires QueueOk(cases, n, p) && Enabled(p, Get(w)) && p.queue[0].Sentinel?
    ensures QueueOk(cases, n, Apply(p, Get(w))) && |p.started| == |cases|
  {
    var k := |p.started|;
    SumUpdate(p.workers, w, Finished(p.workers[w].failures), DoneCount);
    QueueFront(cases, n, p);
    assert Queued(cases[k..]) == [];
    var m := n - Sum(p.workers, DoneCount);
    assert p.queue == Sentinels(m);
    assert Sentinels(m)[1..] == Sentinels(m - 1) == Queued(cases[k..]) + Sentinels(m - 1);
  }

  lemma GetCase(cases: seq<CaseId>, n: nat, p: Pool, w: nat)
    requires QueueOk(cases, n, p) && Enabled(p, Get(w)) && p.queue[0].Case?
    ensures QueueOk(cases, n, Apply(p, Get(w))) && |p.started| < |cases| && p.queue[0].id == cases[|p.started|]
  {
    var k := |p.started|;
    QueueFront(cases, n, p);
    SumUpdate(p.workers, w, Executing(cases[k], p.workers[w].failures), DoneCount);
    assert p.queue[1..] == Queued(cases[k..])[1..] + Sentinels(n - Sum(p.workers, DoneCount));
    assert Queued(cases[k..])[1..] == Queued(cases[k + 1..]);
    assert p.started + [cases[k]] == cases[..k + 1];
  }

  lemma EndCase(cases: seq<CaseId>, n: nat, p: Pool, w: nat, raised: bool)
    requires QueueOk(cases, n, p) && Enabled(p, End(w, raised))
    ensures QueueOk(cases, n, Apply(p, End(w, raised)))
  {
    SumUpdate(p.workers, w, Apply(p, End(w, raised)).workers[w], DoneCount);
  }

  lemma GetCounts(p: Pool, w: nat)
    requires CountsOk(p) && Enabled(p, Get(w))
    ensures CountsOk(Apply(p, Get(w)))
  {
    var p' := Apply(p, Get(w));
    var v := p'.workers[w];
    SumUpdate(p.workers, w, v, BusyCount);
    SumUpdate(p.workers, w, v, Failures);
    forall id ensures Times(p'.started, id) == Sum(p'.workers, RunningOf(id)) + TimesEnded(p'.ended, id) {
      SumUpdate(p.workers, w, v, RunningOf(id));
      assert p'.started[..|p.started|] == p.started;
    }
  }

  lemma EndCounts(p: Pool, w: nat, raised: bool)
    requires CountsOk(p) && Enabled(p, End(w, raised))
    ensures CountsOk(Apply(p, End(w, raised)))
  {
    var p' := Apply(p, End(w, raised));
    var v := p'.workers[w];
    SumUpdate(p.workers, w, v, BusyCount);
    SumUpdate(p.workers, w, v, Failures);
    assert p'.ended[..|p.ended|] == p.ended;
    forall id ensures Times(p'.started, id) == Sum(p'.workers, RunningOf(id)) + TimesEnded(p'.ended, id) {
      SumUpdate(p.workers, w, v, RunningOf(id));
    }
  }

  lemma StepKeepsInv(cases: seq<CaseId>, n: nat, p: Pool, e: Event)
    requires Inv(cases, n, p) && Enabled(p, e)
    ensures Inv(cases, n, Apply(p, e))
  {
    match e
    case Get(w) =>
      if p.queue[0].Sentinel? { GetSentinel(cases, n, p, w); } else { GetCase(cases, n, p, w); }
      GetCounts(p, w);
    case End(w, raised) =>
      EndCase(cases, n, p, w, raised);
      EndCounts(p, w, raised);
  }

  // ----- schedules -----

  predicate Run(p: Pool, es: seq<Event>)
    decreases |es|
  {
    es == [] || (Enabled(p, es[0]) && Run(Apply(p, es[0]), es[1..]))
  }

  function After(p: Pool, es: seq<Event>): Pool
    requires Run(p, es)
    decreases |es|
  {
    if es == [] then p else After(Apply(p, es[0]), es[1..])
  }

  lemma {:induction false} RunKeepsInv(cases: seq<CaseId>, n: nat, p: Pool, es: seq<Event>)
    requires Inv(cases, n, p) && Run(p, es)
    ensures Inv(cases, n, After(p, es))
    decreases |es|
  {
    if es != [] {
      StepKeepsInv(cases, n, p, es[0]);
      RunKeepsInv(cases, n, Apply(p, es[0]), es[1..]);
    }
  }

  /** Steps still to come: two per unstarted case, one per running case, one per unfinished worker. */
  function Remaining(p: Pool): int {
    2 * |p.queue| + Sum(p.workers, BusyCount) - (|p.workers| - Sum(p.workers, DoneCount))
  }

  lemma StepCountsDown(cases: seq<CaseId>, n: nat, p: Pool, e: Event)
    requires Inv(cases, n, p) && Enabled(p, e)
    ensures Remaining(Apply(p, e)) == Remaining(p) - 1
  {
    var v := Apply(p, e).workers[e.worker];
    SumUpdate(p.workers, e.worker, v, DoneCount);
    SumUpdate(p.workers, e.worker, v, BusyCount);
  }

  lemma {:induction false} RunCountsDown(cases: seq<CaseId>, n: nat, p: Pool, es: seq<Event>)
    requires Inv(cases, n, p) && Run(p, es)
    ensures Remaining(After(p, es)) == Remaining(p) - |es|
    decreases |es|
  {
    if es != [] {
      StepCountsDown(cases, n, p, es[0]);
      StepKeepsInv(cases, n, p, es[0]);
      RunCountsDown(cases, n, Apply(p, es[0]), es[1..]);
    }
  }

  predicate Terminal(p: Pool) {
    forall w :: 0 <= w < |p.workers| ==> p.workers[w].Finished?
  }

  /** No worker ever blocks: until all have finished, every worker that has not can take a step. */
  lemma NoWorkerBlocks(cases: seq<CaseId>, n: nat, p: Pool, w: nat)
    requires Inv(cases, n, p) && w < |p.workers| && !p.workers[w].Finished?
    ensures Enabled(p, if p.workers[w].Ready? then Get(w) else End(w, false))
  {
    SumBounds(p.workers);
  }

  /** Under every interleaving: cases start exactly once and in order, no sentinel is taken while a case is queued,
      and at most min(concurrency, cases) run at once. */
  lemma EveryInterleaving(cases: seq<CaseId>, concurrency: nat, es: seq<Event>)
    requires Run(Init(cases, concurrency), es)
    ensures var p := After(Init(cases, concurrency), es);
            && |p.started| <= |cases| && p.started == cases[..|p.started|]
            && Sum(p.workers, BusyCount) <= Min(concurrency, |cases|)
            && 0 <= |p.started| - |p.ended| <= concurrency && |p.started| - |p.ended| <= |cases|
            && |p.workers| == (if concurrency <= |cases| then concurrency else |cases|)
            && ((exists w :: 0 <= w < |p.workers| && p.workers[w].Finished?) ==>
                  forall i :: 0 <= i < |p.queue| ==> p.queue[i].Sentinel?)
            && (forall id :: Times(p.started, id) == Sum(p.workers, RunningOf(id)) + TimesEnded(p.ended, id))
  {
    var n := Min(concurrency, |cases|);
    InitInv(cases, concurrency);
    RunKeepsInv(cases, n, Init(cases, concurrency), es);
    var p := After(Init(cases, concurrency), es);
    SumBounds(p.workers);
    if w :| 0 <= w < |p.workers| && p.workers[w].Finished? {
      FinishedCounts(p.workers, w);
      assert cases[|cases|..] == [];
    }
  }

  lemma {:induction false} FinishedCounts(workers: seq<Worker>, w: nat)
    requires w < |workers| && workers[w].Finished?
    ensures Sum(workers, DoneCount) > 0
  {
    SumBounds(workers[..|workers| - 1]);
    if w < |workers| - 1 {
      FinishedCounts(workers[..|workers| - 1], w);
    }
  }

  lemma {:induction false} AllFinished(workers: seq<Worker>)
    requires forall w :: 0 <= w < |workers| ==> workers[w].Finished?
    ensures Sum(workers, DoneCount) == |workers|
  {
    if workers != [] {
      AllFinished(workers[..|workers| - 1]);
    }
  }

  lemma RemainingIs(cases: seq<CaseId>, n: nat, p: Pool)
    requires QueueOk(cases, n, p)
    ensures Remaining(p) ==
            2 * (|cases| - |p.started|) + Sum(p.workers, BusyCount) + (n - Sum(p.workers, DoneCount))
  {
  }

  lemma TerminalExactly(cases: seq<CaseId>, n: nat, p: Pool)
    requires Inv(cases, n, p) && (n > 0 || cases == [])
    ensures Remaining(p) >= 0 && (Terminal(p) <==> Remaining(p) == 0)
    ensures Terminal(p) ==> p.queue == [] && p.started == cases && Sum(p.workers, BusyCount) == 0
  {
    RemainingIs(cases, n, p);
    SumBounds(p.workers);
    if Terminal(p) {
      AllFinished(p.workers);
      assert |p.started| == |cases|;
      assert cases[|cases|..] == [];
    }
  }

  lemma InitRemaining(cases: seq<CaseId>, concurrency: nat)
    ensures Remaining(Init(cases, concurrency)) == 2 * |cases| + Min(concurrency, |cases|)
  {
    FreshSums(Min(concurrency, |cases|));
  }

  lemma TerminalCounts(cases: seq<CaseId>, p: Pool)
    requires CountsOk(p) && p.started == cases && Sum(p.workers, BusyCount) == 0
    ensures forall id :: TimesEnded(p.ended, id) == Times(cases, id)
    ensures Sum(p.workers, Failures) == Raised(p.ended)
  {
    SumBounds(p.workers);
  }

  lemma ReachedInv(cases: seq<CaseId>, concurrency: nat, es: seq<Event>) returns (p: Pool)
    requires Run(Init(cases, concurrency), es)
    ensures p == After(Init(cases, concurrency), es) && Inv(cases, Min(concurrency, |cases|), p)
    ensures Remaining(p) == 2 * |cases| + Min(concurrency, |cases|) - |es|
  {
    var n, p0 := Min(concurrency, |cases|), Init(cases, concurrency);
    InitInv(cases, concurrency);
    InitRemaining(cases, concurrency);
    RunKeepsInv(cases, n, p0, es);
    RunCountsDown(cases, n, p0, es);
    p := After(p0, es);
  }

  /** Every schedule has at most 2 * cases + workers steps, and it has exactly that many when and only when every
      worker has finished. */
  lemma EveryScheduleTerminates(cases: seq<CaseId>, concurrency: nat, es: seq<Event>)
    requires concurrency >= 1 && Run(Init(cases, concurrency), es)
    ensures var total := 2 * |cases| + Min(concurrency, |cases|);
            |es| <= total && (Terminal(After(Init(cases, concurrency), es)) <==> |es| == total)
  {
    var p := ReachedInv(cases, concurrency, es);
    TerminalExactly(cases, Min(concurrency, |cases|), p);
  }

  /** When every worker has finished, the queue is empty, each case has been executed exactly as often as it was
      queued, and the summed failure count is the number of executions that raised. */
  lemma FinishedPool(cases: seq<CaseId>, concurrency: nat, es: seq<Event>)
    requires concurrency >= 1 && Run(Init(cases, concurrency), es) && Terminal(After(Init(cases, concurrency), es))
    ensures var p := After(Init(cases, concurrency), es);
            && p.queue == [] && p.started == cases
            && (forall id :: TimesEnded(p.ended, id) == Times(cases, id))
            && Sum(p.workers, Failures) == Raised(p.ended)
  {
    var p := ReachedInv(cases, concurrency, es);
    TerminalExactly(cases, Min(concurrency, |cases|), p);
    TerminalCounts(cases, p);
  }

  // ----- the pool as it runs -----

  class WorkerPool {
    var queue: seq<Item>
    var workers: seq<Worker>
    ghost var started: seq<CaseId>
    ghost var ended: seq<(CaseId, bool)>

    ghost function Current(): Pool
      reads this
    {
      Pool(queue, workers, started, ended)
    }

    constructor (cases: seq<CaseId>, concurrency: nat)
      ensures Current() == Init(cases, concurrency)
    {
      var n := Min(concurrency, |cases|);
      queue, workers, started, ended := Queued(cases) + Sentinels(n), seq(n, _ => Ready(0)), [], [];
    }

    /** `queue.get()` and what the worker does with the item up to the execution it may begin. */
    method TakeItem(w: nat)
      requires Enabled(Current(), Get(w))
      modifies this
      ensures Current() == Apply(old(Current()), Get(w))
    {
      var item := queue[0];
      queue := queue[1..];
      match item
      case Sentinel =>
        workers := workers[w := Finished(workers[w].failures)];
      case Case(id) =>
        workers := workers[w := Executing(id, workers[w].failures)];
        started := started + [id];
    }

    method EndExecution(w: nat, raised: bool)
      requires Enabled(Current(), End(w, raised))
      modifies this
      ensures Current() == Apply(old(Current()), End(w, raised))
    {
      var failures := workers[w].failures;
      ended := ended + [(workers[w].id, raised)];
      if raised {
        failures := failures + 1;
      }
      workers := workers[w := Ready(failures)];
    }

    method TotalFailures() returns (total: nat)
      ensures total == Sum(workers, Failures)
    {
      total := 0;
      for i := 0 to |workers|
        invariant total == Sum(workers[..i], Failures)
      {
        assert workers[..i + 1][..i] == workers[..i];
        total := total + workers[i].failures;
      }
      assert workers[..|workers|] == workers;
    }
  }

  predicate Honest(ended: seq<(CaseId, bool)>, raises: CaseId -> bool) {
    forall i :: 0 <= i < |ended| ==> ended[i].1 == raises(ended[i].0)
  }

  /** The next step of one unfinished worker. */
  method ScheduleOne(pool: WorkerPool, ghost cases: seq<CaseId>, ghost n: nat, w: nat, raises: CaseId -> bool)
    requires Inv(cases, n, pool.Current()) && (n > 0 || cases == [])
    requires w < |pool.workers| && !pool.workers[w].Finished? && Honest(pool.ended, raises)
    modifies pool
    ensures Inv(cases, n, pool.Current()) && Honest(pool.ended, raises)
    ensures 0 <= Remaining(pool.Current()) == Remaining(old(pool.Current())) - 1
  {
    NoWorkerBlocks(cases, n, pool.Current(), w);
    if pool.workers[w].Ready? {
      StepKeepsInv(cases, n, pool.Current(), Get(w));
      StepCountsDown(cases, n, pool.Current(), Get(w));
      pool.TakeItem(w);
    } else {
      var raised := raises(pool.workers[w].id);
      StepKeepsInv(cases, n, pool.Current(), End(w, raised));
      StepCountsDown(cases, n, pool.Current(), End(w, raised));
      pool.EndExecution(w, raised);
    }
    TerminalExactly(cases, n, pool.Current());
  }

  /** `_run_workers`: the pool runs under an arbitrary scheduler until all workers are done. `raises` tells which case
      executions raise. The pass has failed exactly when some selected case raised. */
  method RunWorkers(cases: seq<CaseId>, concurrency: nat, raises: CaseId -> bool)
    returns (failed: bool, ghost executed: seq<(CaseId, bool)>)
    requires concurrency >= 1
    ensures forall id :: TimesEnded(executed, id) == Times(cases, id)
    ensures Honest(executed, raises)
    ensures failed <==> exists i :: 0 <= i < |cases| && raises(cases[i])
  {
    var pool := new WorkerPool(cases, concurrency);
    var n := Min(concurrency, |cases|);
    InitInv(cases, concurrency);
    TerminalExactly(cases, n, pool.Current());
    while exists w :: 0 <= w < |pool.workers| && !pool.workers[w].Finished?
      invariant Inv(cases, n, pool.Current()) && Remaining(pool.Current()) >= 0
      invariant Honest(pool.ended, raises)
      decreases Remaining(pool.Current())
    {
      var w :| 0 <= w < |pool.workers| && !pool.workers[w].Finished?;
      ScheduleOne(pool, cases, n, w, raises);
    }
    TerminalExactly(cases, n, pool.Current());
    TerminalCounts(cases, pool.Current());
    RaisedExactly(cases, pool.ended, raises);
    var total := pool.TotalFailures();
    failed, executed := total > 0, pool.ended;
  }

  lemma {:induction false} TimesPositive(ids: seq<CaseId>, id: CaseId)
    ensures Times(ids, id) > 0 <==> id in ids
  {
    if ids != [] {
      TimesPositive(ids[..|ids| - 1], id);
      assert ids == ids[..|ids| - 1] + [ids[|ids| - 1]];
    }
  }

  lemma {:induction false} TimesEndedPositive(ended: seq<(CaseId, bool)>, id: CaseId)
    ensures TimesEnded(ended, id) > 0 <==> exists i :: 0 <= i < |ended| && ended[i].0 == id
  {
    if ended != [] {
      TimesEndedPositive(ended[..|ended| - 1], id);
    }
  }

  lemma {:induction false} RaisedPositive(ended: seq<(CaseId, bool)>)
    ensures Raised(ended) > 0 <==> exists i :: 0 <= i < |ended| && ended[i].1
  {
    if ended != [] {
      RaisedPositive(ended[..|ended| - 1]);
    }
  }

  lemma RaisedExactly(cases: seq<CaseId>, ended: seq<(CaseId, bool)>, raises: CaseId -> bool)
    requires forall id :: TimesEnded(ended, id) == Times(cases, id)
    requires Honest(ended, raises)
    ensures Raised(ended) > 0 <==> exists i :: 0 <= i < |cases| && raises(cases[i])
  {
    RaisedPositive(ended);
    forall i | 0 <= i < |ended| && ended[i].1 ensures exists j :: 0 <= j < |cases| && raises(cases[j]) {
      var id := ended[i].0;
      TimesEndedPositive(ended, id);
      TimesPositive(cases, id);
      assert TimesEnded(ended, id) == Times(cases, id);
      var j :| 0 <= j < |cases| && cases[j] == id;
    }
    forall j | 0 <= j < |cases| && raises(cases[j]) ensures Raised(ended) > 0 {
      var id := cases[j];
      TimesPositive(cases, id);
      TimesEndedPositive(ended, id);
      assert TimesEnded(ended, id) == Times(cases, id);
      var i :| 0 <= i < |ended| && ended[i].0 == id;
      assert ended[i].1;
    }
  }
}
