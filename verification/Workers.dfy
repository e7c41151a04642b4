/** The worker pool: any number of workers drain one closed channel, in any
    interleaving, and count the jobs that fail. Jobs are named by their place in the
    channel. */
module Workers {
  import opened Jobs

  /** The pool between two atomic steps: the next job in the channel, the job each busy
      worker runs, the jobs run to their end, the failure counter, and the workers that
      have returned. */
  datatype Pool = Pool(next: nat, busy: map<int, nat>, finished: set<nat>, failures: nat, returned: set<int>)

  /** A worker takes the next job, finishes its job, or returns from the empty channel. */
  datatype Event = Take(w: int) | Finish(w: int) | Return(w: int)

  /** A run of the pool: which jobs fail, and how many workers there are. */
  datatype Setup = Setup(failing: seq<bool>, threads: int) {

    function Total(): nat {
      |failing|
    }
  }

  const START := Pool(0, map[], {}, 0, {})

  predicate Enabled(s: Setup, p: Pool, e: Event) {
    && 1 <= e.w <= s.threads
    && match e
       case Take(w) => w !in p.busy && w !in p.returned && p.next < s.Total()
       case Finish(w) => w in p.busy && p.busy[w] < s.Total()
       case Return(w) => w !in p.busy && w !in p.returned && p.next >= s.Total()
  }

  function Next(s: Setup, p: Pool, e: Event): Pool
    requires Enabled(s, p, e)
  {
    match e
    case Take(w) => p.(next := p.next + 1, busy := p.busy[w := p.next])
    case Finish(w) =>
      p.(busy := p.busy - {w}, finished := p.finished + {p.busy[w]},
         failures := p.failures + if s.failing[p.busy[w]] then 1 else 0)
    case Return(w) => p.(returned := p.returned + {w})
  }

  /** The pool after a trace, when every step of it is possible. */
  function Exec(s: Setup, p: Pool, trace: seq<Event>): (r: (Pool, bool))
    decreases |trace|
  {
    if trace == [] then (p, true)
    else if !Enabled(s, p, trace[0]) then (p, false)
    else Exec(s, Next(s, p, trace[0]), trace[1..])
  }

  // ---- What every step keeps ----

  function Failed(failing: seq<bool>, jobs: set<nat>): set<nat> {
    set i | i in jobs && i < |failing| && failing[i]
  }

  /** No two workers run one job. */
  ghost predicate Apart(busy: map<int, nat>) {
    forall v, w :: v in busy && w in busy && busy[v] == busy[w] ==> v == w
  }

  /** The jobs taken are those finished and those in some worker's hands, each once. */
  ghost predicate Inv(s: Setup, p: Pool) {
    && p.next <= s.Total()
    && (forall w :: w in p.busy ==> 1 <= w <= s.threads && w !in p.returned && p.busy[w] < p.next && p.busy[w] !in p.finished)
    && Apart(p.busy)
    && (forall i :: i in p.finished ==> i < p.next)
    && (forall i: nat :: i < p.next ==> i in p.finished || exists w :: w in p.busy && p.busy[w] == i)
    && p.failures == |Failed(s.failing, p.finished)|
    && (p.returned != {} ==> p.next == s.Total())
    && (forall w :: w in p.returned ==> 1 <= w <= s.threads)
  }

  lemma FailedGrows(failing: seq<bool>, jobs: set<nat>, i: nat)
    requires i < |failing| && i !in jobs
    ensures |Failed(failing, jobs + {i})| == |Failed(failing, jobs)| + if failing[i] then 1 else 0
  {
    if failing[i] {
      assert Failed(failing, jobs + {i}) == Failed(failing, jobs) + {i};
    } else {
      assert Failed(failing, jobs + {i}) == Failed(failing, jobs);
    }
  }

  lemma NewJobIsApart(busy: map<int, nat>, w: int, next: nat)
    requires Apart(busy) && forall v :: v in busy ==> busy[v] < next
    ensures Apart(busy[w := next])
  {
  }

  lemma FewerStayApart(busy: map<int, nat>, w: int)
    requires Apart(busy)
    ensures Apart(busy - {w})
  {
  }

  lemma TakeKeepsInv(s: Setup, p: Pool, w: int)
    requires Inv(s, p) && Enabled(s, p, Take(w))
    ensures Inv(s, Next(s, p, Take(w)))
  {
    var q := Next(s, p, Take(w));
    NewJobIsApart(p.busy, w, p.next);
    forall i: nat | i < q.next ensures i in q.finished || exists v :: v in q.busy && q.busy[v] == i {
      if i == p.next {
        assert w in q.busy && q.busy[w] == i;
      } else if i !in p.finished {
        var v :| v in p.busy && p.busy[v] == i;
        assert v in q.busy && q.busy[v] == i;
      }
    }
  }

  lemma FinishKeepsInv(s: Setup, p: Pool, w: int)
    requires Inv(s, p) && Enabled(s, p, Finish(w))
    ensures Inv(s, Next(s, p, Finish(w)))
  {
    var q := Next(s, p, Finish(w));
    FailedGrows(s.failing, p.finished, p.busy[w]);
    FewerStayApart(p.busy, w);
    forall i: nat | i < q.next ensures i in q.finished || exists v :: v in q.busy && q.busy[v] == i {
      if i !in q.finished {
        var v :| v in p.busy && p.busy[v] == i;
        assert v in q.busy && q.busy[v] == i;
      }
    }
  }

  lemma StepKeepsInv(s: Setup, p: Pool, e: Event)
    requires Inv(s, p) && Enabled(s, p, e)
    ensures Inv(s, Next(s, p, e))
  {
    match e
    case Take(w) => TakeKeepsInv(s, p, w);
    case Finish(w) => FinishKeepsInv(s, p, w);
    case Return(w) => {}
  }

  lemma {:induction false} TraceKeepsInv(s: Setup, p: Pool, trace: seq<Event>)
    requires Inv(s, p)
    ensures Inv(s, Exec(s, p, trace).0)
    decreases |trace|
  {
    if trace != [] && Enabled(s, p, trace[0]) {
      StepKeepsInv(s, p, trace[0]);
      TraceKeepsInv(s, Next(s, p, trace[0]), trace[1..]);
    }
  }

  lemma StartHoldsInv(s: Setup)
    ensures Inv(s, START)
  {
    assert Failed(s.failing, {}) == {};
  }

  // ---- What the pool has done when all workers have returned ----

  ghost predicate AllReturned(s: Setup, p: Pool) {
    forall w :: 1 <= w <= s.threads ==> w in p.returned
  }

  /** RunJobQueue's result once its workers are through: nil without a failure. */
  function ReturnsNil(p: Pool): bool {
    p.failures == 0
  }

  /** At least one worker, any schedule: when all have returned, every job has been run
      to its end, the counter is the number of failing jobs, and the result is nil
      exactly when none failed. */
  lemma PoolRunsEveryJob(s: Setup, trace: seq<Event>)
    requires s.threads >= 1 && Exec(s, START, trace).1 && AllReturned(s, Exec(s, START, trace).0)
    ensures var p := Exec(s, START, trace).0;
            && (forall i: nat :: i in p.finished <==> i < s.Total())
            && p.failures == |set i | 0 <= i < s.Total() && s.failing[i]|
            && (ReturnsNil(p) <==> forall i :: 0 <= i < s.Total() ==> !s.failing[i])
  {
    var p := Exec(s, START, trace).0;
    StartHoldsInv(s);
    TraceKeepsInv(s, START, trace);
    NoneBusy(s, p);
    var failed := set i | 0 <= i < s.Total() && s.failing[i];
    assert failed == Failed(s.failing, p.finished);
    if i :| 0 <= i < s.Total() && s.failing[i] {
      assert i in failed;
    }
    if p.failures != 0 {
      var i :| i in failed;
    }
  }

  /** The jobs some worker took in a trace, in the order they were taken. */
  function Taken(s: Setup, p: Pool, trace: seq<Event>): seq<nat>
    decreases |trace|
  {
    if trace == [] || !Enabled(s, p, trace[0]) then []
    else (if trace[0].Take? then [p.next] else []) + Taken(s, Next(s, p, trace[0]), trace[1..])
  }

  /** Jobs leave the channel in queue order, none twice and none skipped. */
  lemma {:induction false} TakenInOrder(s: Setup, p: Pool, trace: seq<Event>)
    ensures var q := Exec(s, p, trace).0;
            q.next >= p.next && Taken(s, p, trace) == seq(q.next - p.next, i => p.next + i)
    decreases |trace|
  {
    if trace != [] && Enabled(s, p, trace[0]) {
      TakenInOrder(s, Next(s, p, trace[0]), trace[1..]);
    }
  }

  // ---- Every schedule ends, and only with all workers returned ----

  function Range(n: int): set<int> {
    if n <= 0 then {} else Range(n - 1) + {n}
  }

  lemma {:induction false} RangeMembers(n: int)
    ensures forall w :: w in Range(n) <==> 1 <= w <= n
    ensures n >= 0 ==> |Range(n)| == n
    decreases if n < 0 then 0 else n
  {
    if n > 0 {
      RangeMembers(n - 1);
    }
  }

  /** The steps left: two for each job in the channel, one for each busy worker, and one
      for each that has not returned. */
  function Steps(s: Setup, p: Pool): int {
    2 * (s.Total() - p.next) + |p.busy| + |Range(s.threads) - p.returned|
  }

  lemma StepsDecrease(s: Setup, p: Pool, e: Event)
    requires Enabled(s, p, e)
    ensures Steps(s, Next(s, p, e)) == Steps(s, p) - 1
  {
    match e
    case Take(w) => OneKeyMore(p.busy, w, p.next);
    case Finish(w) => OneKeyLess(p.busy, w);
    case Return(w) =>
      RangeMembers(s.threads);
      OneLess(Range(s.threads), p.returned, w);
  }

  lemma OneLess(all: set<int>, some: set<int>, w: int)
    requires w in all && w !in some
    ensures |all - (some + {w})| == |all - some| - 1
  {
    assert all - (some + {w}) == (all - some) - {w};
  }

  lemma OneKeyMore<K, V>(m: map<K, V>, k: K, v: V)
    requires k !in m
    ensures |m[k := v]| == |m| + 1
  {
    assert m[k := v].Keys == m.Keys + {k};
  }

  lemma OneKeyLess<K, V>(m: map<K, V>, k: K)
    requires k in m
    ensures |m - {k}| == |m| - 1
  {
    assert (m - {k}).Keys == m.Keys - {k};
  }

  lemma {:induction false} StepsAreCounted(s: Setup, p: Pool, trace: seq<Event>)
    requires Exec(s, p, trace).1
    ensures |trace| + Steps(s, Exec(s, p, trace).0) == Steps(s, p)
    decreases |trace|
  {
    if trace != [] {
      StepsDecrease(s, p, trace[0]);
      StepsAreCounted(s, Next(s, p, trace[0]), trace[1..]);
    }
  }

  /** No schedule makes more than two steps a job and one a worker, so none runs
      forever; those that run to the end make exactly as many. */
  lemma SchedulesEnd(s: Setup, trace: seq<Event>)
    requires s.threads >= 1 && Exec(s, START, trace).1
    ensures |trace| <= 2 * s.Total() + s.threads
    ensures AllReturned(s, Exec(s, START, trace).0) ==> |trace| == 2 * s.Total() + s.threads
  {
    var p := Exec(s, START, trace).0;
    StartHoldsInv(s);
    TraceKeepsInv(s, START, trace);
    StepsAreCounted(s, START, trace);
    RangeMembers(s.threads);
    assert Range(s.threads) - {} == Range(s.threads);
    if AllReturned(s, p) {
      NoneBusy(s, p);
      forall w ensures w !in Range(s.threads) - p.returned {
      }
      assert Range(s.threads) - p.returned == {};
    }
  }

  lemma NoneBusy(s: Setup, p: Pool)
    requires Inv(s, p) && s.threads >= 1 && AllReturned(s, p)
    ensures p.busy == map[] && p.next == s.Total()
  {
    assert 1 in p.returned;
    forall w | 1 <= w <= s.threads ensures w !in p.busy {
      assert w in p.returned;
    }
  }

  /** Until all workers have returned, some step is possible: no deadlock. */
  lemma Progress(s: Setup, p: Pool) returns (e: Event)
    requires Inv(s, p) && !AllReturned(s, p)
    ensures Enabled(s, p, e)
  {
    var w :| 1 <= w <= s.threads && w !in p.returned;
    e := if w in p.busy then Finish(w) else if p.next < s.Total() then Take(w) else Return(w);
  }

  /** Without workers the queue is drained, no job runs, and the result is still nil. */
  lemma NoWorkersRunNothing(s: Setup, trace: seq<Event>)
    requires s.threads <= 0 && Exec(s, START, trace).1
    ensures trace == [] && AllReturned(s, START) && ReturnsNil(START) && START.finished == {}
  {
  }

  /** The pool over real jobs: a job fails when not all its tasks complete. */
  function SetupOf(r: Runner, jobs: seq<seq<Task>>, threads: int): Setup {
    Setup(seq(|jobs|, i requires 0 <= i < |jobs| => !JobCompletes(r, jobs[i])), threads)
  }

  /** RunJobQueue returns nil exactly when every task of every queued job completes. */
  lemma QueueSucceedsExactly(r: Runner, jobs: seq<seq<Task>>, threads: int, trace: seq<Event>)
    requires threads >= 1
    requires var s := SetupOf(r, jobs, threads); Exec(s, START, trace).1 && AllReturned(s, Exec(s, START, trace).0)
    ensures ReturnsNil(Exec(SetupOf(r, jobs, threads), START, trace).0)
            <==> forall i, t :: 0 <= i < |jobs| && t in jobs[i] ==> r.TaskCompletes(t)
  {
    var s := SetupOf(r, jobs, threads);
    PoolRunsEveryJob(s, trace);
    assert forall i :: 0 <= i < |jobs| ==> (s.failing[i] <==> !JobCompletes(r, jobs[i]));
  }
}
