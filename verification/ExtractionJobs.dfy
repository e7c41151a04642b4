/** An extraction run over its own job queue: what the retries, the ordered tasks and
    the worker pool make of the failures that Extraction takes as given. */
module ExtractionJobs {
  import opened Geometry
  import opened Wrappers
  import opened Batches
  import opened Retry
  import opened Jobs
  import opened Extraction
  import Workers

  /** The scripts of a run and the batches of each level, as they are queued. */
  datatype Queue = Queue(scripts: seq<string>, lod2: seq<seq<Id>>, lod3: seq<seq<Id>>)

  function JobsOver(batches: seq<seq<Id>>, scripts: seq<string>, lod: int): (jobs: seq<seq<Task>>)
    ensures |jobs| == |batches|
    ensures forall i :: 0 <= i < |batches| ==> jobs[i] == TasksOf(batches[i], scripts, lod)
  {
    seq(|batches|, i requires 0 <= i < |batches| => TasksOf(batches[i], scripts, lod))
  }

  /** The queue as the pool gets it: LOD2 before LOD3. */
  function AllJobs(q: Queue): seq<seq<Task>> {
    JobsOver(q.lod2, q.scripts, 2) + JobsOver(q.lod3, q.scripts, 3)
  }

  predicate AllComplete(r: Runner, jobs: seq<seq<Task>>) {
    forall i :: 0 <= i < |jobs| ==> JobCompletes(r, jobs[i])
  }

  /** The buildings of the jobs that complete. */
  function Finished(r: Runner, batches: seq<seq<Id>>, scripts: seq<string>, lod: int): set<Id> {
    set i, id | 0 <= i < |batches| && JobCompletes(r, TasksOf(batches[i], scripts, lod)) && id in batches[i] :: id
  }

  /** What the queue makes of a run's jobs; more is what its failing jobs wrote before
      they failed. */
  function QueueFails(r: Runner, q: Queue, more: Through): Option<Through> {
    if AllComplete(r, AllJobs(q)) then None
    else Some(Through(Finished(r, q.lod2, q.scripts, 2) + more.lod2, Finished(r, q.lod3, q.scripts, 3) + more.lod3))
  }

  /** One or more workers and any schedule of them: the pool returns nil exactly when the
      run is told of no failed job. */
  lemma PoolTellsTheRun(r: Runner, q: Queue, more: Through, threads: int, trace: seq<Workers.Event>)
    requires threads >= 1
    requires var s := Workers.SetupOf(r, AllJobs(q), threads);
             Workers.Exec(s, Workers.START, trace).1 && Workers.AllReturned(s, Workers.Exec(s, Workers.START, trace).0)
    ensures Workers.ReturnsNil(Workers.Exec(Workers.SetupOf(r, AllJobs(q), threads), Workers.START, trace).0)
            <==> QueueFails(r, q, more).None?
  {
    var jobs := AllJobs(q);
    Workers.QueueSucceedsExactly(r, jobs, threads, trace);
    if AllComplete(r, jobs) {
      forall i, t | 0 <= i < |jobs| && t in jobs[i] ensures r.TaskCompletes(t) {
        assert JobCompletes(r, jobs[i]);
      }
    }
  }

  /** Some attempt of this task succeeds within both limits. */
  ghost predicate Succeeds(r: Runner, t: Task) {
    exists i: nat :: SucceedsAt(r.Outcomes(t), r.config, i)
  }

  /** So does every script over every batch of a level. */
  ghost predicate EveryScriptSucceeds(r: Runner, batches: seq<seq<Id>>, scripts: seq<string>, lod: int) {
    forall i, k :: 0 <= i < |batches| && 0 <= k < |scripts| ==> Succeeds(r, Task(batches[i], scripts[k], k + 1, lod))
  }

  lemma JobCompletesExactly(r: Runner, tasks: seq<Task>)
    ensures JobCompletes(r, tasks) <==> forall k :: 0 <= k < |tasks| ==> Succeeds(r, tasks[k])
  {
    forall k | 0 <= k < |tasks| ensures r.TaskCompletes(tasks[k]) <==> Succeeds(r, tasks[k]) {
      CompletesExactly(r.Outcomes(tasks[k]), r.config);
    }
    if JobCompletes(r, tasks) {
      forall k | 0 <= k < |tasks| ensures Succeeds(r, tasks[k]) {
        assert tasks[k] in tasks;
      }
    }
  }

  lemma LevelCompletesExactly(r: Runner, batches: seq<seq<Id>>, scripts: seq<string>, lod: int)
    ensures AllComplete(r, JobsOver(batches, scripts, lod)) <==> EveryScriptSucceeds(r, batches, scripts, lod)
  {
    var jobs := JobsOver(batches, scripts, lod);
    forall i | 0 <= i < |batches|
      ensures JobCompletes(r, jobs[i])
              <==> forall k :: 0 <= k < |scripts| ==> Succeeds(r, Task(batches[i], scripts[k], k + 1, lod))
    {
      JobCompletesExactly(r, jobs[i]);
      assert forall k :: 0 <= k < |scripts| ==> jobs[i][k] == Task(batches[i], scripts[k], k + 1, lod);
    }
  }

  lemma BothComplete(r: Runner, first: seq<seq<Task>>, second: seq<seq<Task>>)
    ensures AllComplete(r, first + second) <==> AllComplete(r, first) && AllComplete(r, second)
  {
    var all := first + second;
    assert forall i :: 0 <= i < |first| ==> all[i] == first[i];
    assert forall i :: 0 <= i < |second| ==> all[|first| + i] == second[i];
  }

  lemma QueueCompletesExactly(r: Runner, q: Queue)
    ensures AllComplete(r, AllJobs(q))
            <==> EveryScriptSucceeds(r, q.lod2, q.scripts, 2) && EveryScriptSucceeds(r, q.lod3, q.scripts, 3)
  {
    BothComplete(r, JobsOver(q.lod2, q.scripts, 2), JobsOver(q.lod3, q.scripts, 3));
    LevelCompletesExactly(r, q.lod2, q.scripts, 2);
    LevelCompletesExactly(r, q.lod3, q.scripts, 3);
  }

  /** This run selected something, and q is its queue. */
  ghost predicate QueueOf(q: Queue, t: Tables, s: Sources, area: Option<Bbox>, cfg: Settings, f: Faults) {
    && !(Concat(q.lod2) == [] && Concat(q.lod3) == [])
    && Selected(t, s, area, cfg, f, 0, [], []) == Ok((Concat(q.lod2), Concat(q.lod3)))
  }

  /** A run that selects something, over its own queue, returns nil if and only if every
      script over every batch has an attempt that succeeds within both retry limits, and
      neither post scripts nor triggers fail at a level with buildings. */
  lemma RunSucceedsExactly(geo2: Geography, geo3: Geography, n: nat, t: Tables, s: Sources, area: Option<Bbox>,
                           cfg: Settings, f: Faults, r: Runner, q: Queue, more: Through)
    requires |t.lod2.marks| == |t.lod3.marks| == n
    requires QueueOf(q, t, s, area, cfg, f) && f.jobs == QueueFails(r, q, more)
    ensures Run(geo2, geo3, n, t, s, area, cfg, f).1
            <==> && EveryScriptSucceeds(r, q.lod2, q.scripts, 2) && EveryScriptSucceeds(r, q.lod3, q.scripts, 3)
                 && (Concat(q.lod2) != [] ==> !LevelFails(f, 2, n)) && (Concat(q.lod3) != [] ==> !LevelFails(f, 3, n))
  {
    QueueCompletesExactly(r, q);
  }

  /** Some batch that holds this building has only scripts that succeed. */
  ghost predicate InGoodBatch(r: Runner, batches: seq<seq<Id>>, scripts: seq<string>, lod: int, id: Id) {
    exists i :: 0 <= i < |batches| && id in batches[i]
                && forall k :: 0 <= k < |scripts| ==> Succeeds(r, Task(batches[i], scripts[k], k + 1, lod))
  }

  lemma FinishedExactly(r: Runner, batches: seq<seq<Id>>, scripts: seq<string>, lod: int, id: Id)
    ensures id in Finished(r, batches, scripts, lod) <==> InGoodBatch(r, batches, scripts, lod, id)
    ensures InGoodBatch(r, batches, scripts, lod, id) ==> id in Concat(batches)
  {
    forall i | 0 <= i < |batches|
      ensures JobCompletes(r, TasksOf(batches[i], scripts, lod))
              <==> forall k :: 0 <= k < |scripts| ==> Succeeds(r, Task(batches[i], scripts[k], k + 1, lod))
    {
      JobCompletesExactly(r, TasksOf(batches[i], scripts, lod));
      assert forall k :: 0 <= k < |scripts| ==> TasksOf(batches[i], scripts, lod)[k] == Task(batches[i], scripts[k], k + 1, lod);
    }
    if InGoodBatch(r, batches, scripts, lod, id) {
      var i :| 0 <= i < |batches| && id in batches[i]
               && forall k :: 0 <= k < |scripts| ==> Succeeds(r, Task(batches[i], scripts[k], k + 1, lod));
      MemberOf(batches, i, id);
    }
  }

  lemma RowsAfter(geo2: Geography, geo3: Geography, n: nat, t: Tables, s: Sources, area: Option<Bbox>,
                  cfg: Settings, f: Faults, q: Queue)
    requires |t.lod2.marks| == |t.lod3.marks| == n && QueueOf(q, t, s, area, cfg, f)
    ensures var after := Run(geo2, geo3, n, t, s, area, cfg, f).0;
            && after.lod2.rows == t.lod2.rows + Written(geo2, 2, Concat(q.lod2), f)
            && after.lod3.rows == t.lod3.rows + Written(geo3, 3, Concat(q.lod3), f)
  {
  }

  /** Which buildings have a row in the end: those that had one, and of those extracted
      and able to have one, all when every script over every batch succeeds, otherwise those
      of the batches in which every script does, and what failing jobs wrote before. */
  lemma RowsExactly(geo2: Geography, geo3: Geography, n: nat, t: Tables, s: Sources, area: Option<Bbox>,
                    cfg: Settings, f: Faults, r: Runner, q: Queue, more: Through, id: Id)
    requires |t.lod2.marks| == |t.lod3.marks| == n
    requires QueueOf(q, t, s, area, cfg, f) && f.jobs == QueueFails(r, q, more)
    ensures var after := Run(geo2, geo3, n, t, s, area, cfg, f).0;
            var all := EveryScriptSucceeds(r, q.lod2, q.scripts, 2) && EveryScriptSucceeds(r, q.lod3, q.scripts, 3);
            && (id in after.lod2.rows
                <==> || id in t.lod2.rows
                     || (id in Concat(q.lod2) && geo2.hasRow(id)
                         && (all || InGoodBatch(r, q.lod2, q.scripts, 2, id) || id in more.lod2)))
            && (id in after.lod3.rows
                <==> || id in t.lod3.rows
                     || (id in Concat(q.lod3) && geo3.hasRow(id)
                         && (all || InGoodBatch(r, q.lod3, q.scripts, 3, id) || id in more.lod3)))
  {
    RowsAfter(geo2, geo3, n, t, s, area, cfg, f, q);
    QueueCompletesExactly(r, q);
    FinishedExactly(r, q.lod2, q.scripts, 2, id);
    FinishedExactly(r, q.lod3, q.scripts, 3, id);
  }
}
