/** Jobs of ordered tasks, the first-in-first-out queue that holds them, and the channel
    the workers drain. */
module Jobs {
  import opened Wrappers
  import opened Retry
  import opened Batches
  import opened Sequences

  // ---- The queue ----

  /** A buffered channel: a send would block when the buffer is full, and panic when the
      channel is closed. */
  class Channel<T> {
    const capacity: nat
    var buffer: seq<T>
    var closed: bool

    constructor (capacity: nat)
      ensures this.capacity == capacity && buffer == [] && !closed
    {
      this.capacity, buffer, closed := capacity, [], false;
    }

    method Send(x: T)
      requires |buffer| < capacity && !closed
      modifies this
      ensures buffer == old(buffer) + [x] && !closed
    {
      buffer := buffer + [x];
    }

    method Close()
      requires !closed
      modifies this
      ensures buffer == old(buffer) && closed
    {
      closed := true;
    }
  }

  class JobQueue<T> {
    var jobs: seq<T>

    constructor ()
      ensures jobs == []
    {
      jobs := [];
    }

    method Enqueue(job: T)
      modifies this
      ensures jobs == old(jobs) + [job]
    {
      jobs := jobs + [job];
    }

    method Dequeue() returns (job: Option<T>)
      modifies this
      ensures old(jobs) == [] ==> job == None && jobs == []
      ensures old(jobs) != [] ==> job == Some(old(jobs)[0]) && jobs == old(jobs)[1..]
    {
      if |jobs| == 0 {
        return None;
      }
      job := Some(jobs[0]);
      jobs := jobs[1..];
    }

    method Peek() returns (job: Option<T>)
      ensures job == if jobs == [] then None else Some(jobs[0])
    {
      job := if |jobs| == 0 then None else Some(jobs[0]);
    }

    method Clear()
      modifies this
      ensures jobs == []
    {
      jobs := jobs[..0];
    }

    /** The whole queue in order, in a closed channel that no send overfilled. */
    method ToChannel() returns (ch: Channel<T>)
      modifies this
      ensures fresh(ch) && ch.closed && ch.capacity == |old(jobs)|
      ensures ch.buffer == old(jobs) && jobs == []
    {
      ch := new Channel<T>(|jobs|);
      while |jobs| > 0
        invariant !ch.closed && ch.capacity == |old(jobs)| && fresh(ch)
        invariant ch.buffer + jobs == old(jobs)
        decreases |jobs|
      {
        var job := Dequeue();
        ch.Send(job.value);
      }
      ch.Close();
    }
  }

  // ---- Jobs ----

  /** One script to run over a batch; lower priorities run first, and level -1 stands for
      no level of detail. */
  datatype Task = Task(buildingIds: seq<int>, sqlFile: string, priority: int, lodLevel: int)

  datatype JobType = LOD2 | LOD3 | Function | MainTable | Supplementary | SupplementaryTable | PyLovoLink

  function LodLevelOf(t: JobType): int {
    match t
    case LOD2 => 2
    case LOD3 => 3
    case PyLovoLink => 2
    case _ => -1
  }

  /** The tasks of a batch: each script once, in order, with its position as priority. */
  function TasksOf(batch: seq<int>, scripts: seq<string>, lodLevel: int): seq<Task> {
    seq(|scripts|, i requires 0 <= i < |scripts| => Task(batch, scripts[i], i + 1, lodLevel))
  }

  predicate IsByPriority(tasks: seq<Task>) {
    forall i, j :: 0 <= i < j < |tasks| ==> tasks[i].priority <= tasks[j].priority
  }

  /** What a task's attempts return, and the limits they are retried within. */
  datatype Runner = Runner(outcome: (Task, nat) -> Attempt, config: RetryConfig) {

    function Outcomes(t: Task): nat -> Attempt {
      (n: nat) => outcome(t, n)
    }

    predicate TaskCompletes(t: Task) {
      Completes(Outcomes(t), config)
    }

    /** The tasks of a sorted job that run: up to the first that fails. */
    function Executed(tasks: seq<Task>): (r: seq<Task>)
      ensures r <= tasks
      ensures forall i :: 0 <= i < |r| - 1 ==> TaskCompletes(tasks[i])
      ensures |r| < |tasks| ==> r != [] && !TaskCompletes(tasks[|r| - 1])
    {
      if tasks == [] then []
      else if !TaskCompletes(tasks[0]) then [tasks[0]]
      else [tasks[0]] + Executed(tasks[1..])
    }
  }

  predicate JobCompletes(r: Runner, tasks: seq<Task>) {
    forall t :: t in tasks ==> r.TaskCompletes(t)
  }

  class Job {
    var buildingIds: seq<int>
    var tasks: seq<Task>

    constructor (buildingIds: seq<int>)
      ensures this.buildingIds == buildingIds && tasks == []
    {
      this.buildingIds, tasks := buildingIds, [];
    }

    method AddTask(task: Task)
      modifies `tasks
      ensures tasks == old(tasks) + [task]
    {
      tasks := tasks + [task];
    }

    /** Puts the tasks in order of priority; the order of equals is not promised. */
    method SortTasks()
      modifies `tasks
      ensures IsByPriority(tasks) && multiset(tasks) == multiset(old(tasks))
    {
      var sorted, rest := [], tasks;
      while |rest| > 0
        invariant IsByPriority(sorted) && multiset(sorted) + multiset(rest) == multiset(old(tasks))
        decreases |rest|
      {
        TailMultiset(rest);
        InsertedKeeps(sorted, rest[0]);
        InsertedSorted(sorted, rest[0], LowestOf(sorted, rest[0]));
        sorted, rest := Inserted(sorted, rest[0]), rest[1..];
      }
      assert rest == [];
      tasks := sorted;
    }

    /** RunJob: the tasks by priority, each with its retries, up to the first that fails;
        nil exactly when every task of the job completes. */
    method RunJob(r: Runner) returns (ok: bool, executed: seq<Task>)
      modifies `tasks
      ensures IsByPriority(tasks) && multiset(tasks) == multiset(old(tasks))
      ensures executed == r.Executed(tasks)
      ensures ok <==> JobCompletes(r, old(tasks))
      ensures ok ==> executed == tasks
    {
      SortTasks();
      SameMembers(tasks, old(tasks));
      ok, executed := RunInOrder(r, tasks);
    }
  }

  /** The loop over the sorted tasks. */
  method RunInOrder(r: Runner, sorted: seq<Task>) returns (ok: bool, executed: seq<Task>)
    ensures executed == r.Executed(sorted)
    ensures ok <==> JobCompletes(r, sorted)
    ensures ok ==> executed == sorted
  {
    executed := [];
    assert sorted[0..] == sorted;
    for i := 0 to |sorted|
      invariant executed + r.Executed(sorted[i..]) == r.Executed(sorted)
      invariant JobCompletes(r, sorted) <==> JobCompletes(r, sorted[i..])
    {
      ExecutedStep(r, sorted, i);
      CompletesStep(r, sorted, i);
      Associative(executed, [sorted[i]], r.Executed(sorted[i + 1..]));
      executed := executed + [sorted[i]];
      var completed := RunTask(r, sorted[i]);
      if !completed {
        return false, executed;
      }
    }
    ok := true;
    NoTasks(r, sorted);
    AllExecuted(r, sorted);
  }

  lemma CompletesStep(r: Runner, sorted: seq<Task>, i: nat)
    requires i < |sorted|
    ensures JobCompletes(r, sorted[i..]) <==> r.TaskCompletes(sorted[i]) && JobCompletes(r, sorted[i + 1..])
  {
    assert sorted[i..] == [sorted[i]] + sorted[i + 1..];
  }

  lemma NoTasks(r: Runner, sorted: seq<Task>)
    ensures JobCompletes(r, sorted[|sorted|..]) && r.Executed(sorted[|sorted|..]) == []
  {
  }

  lemma {:induction false} AllExecuted(r: Runner, tasks: seq<Task>)
    requires JobCompletes(r, tasks)
    ensures r.Executed(tasks) == tasks
  {
    if tasks != [] {
      AllExecuted(r, tasks[1..]);
      assert tasks == [tasks[0]] + tasks[1..];
    }
  }

  lemma ExecutedStep(r: Runner, sorted: seq<Task>, i: nat)
    requires i < |sorted|
    ensures r.Executed(sorted[i..])
            == if r.TaskCompletes(sorted[i]) then [sorted[i]] + r.Executed(sorted[i + 1..]) else [sorted[i]]
  {
    assert sorted[i..][1..] == sorted[i + 1..];
  }

  method RunTask(r: Runner, task: Task) returns (ok: bool)
    ensures ok <==> r.TaskCompletes(task)
  {
    var attempts, slept;
    ok, attempts, slept := RunTaskWithRetry(r.Outcomes(task), r.config);
  }

  function Inserted(sorted: seq<Task>, t: Task): seq<Task> {
    if sorted == [] || t.priority < sorted[0].priority then [t] + sorted
    else [sorted[0]] + Inserted(sorted[1..], t)
  }

  function LowestOf(sorted: seq<Task>, t: Task): int {
    if sorted == [] || t.priority < sorted[0].priority then t.priority else sorted[0].priority
  }

  lemma {:induction false} InsertedKeeps(sorted: seq<Task>, t: Task)
    ensures multiset(Inserted(sorted, t)) == multiset(sorted) + multiset{t}
  {
    if sorted != [] {
      TailMultiset(sorted);
      if t.priority >= sorted[0].priority {
        InsertedKeeps(sorted[1..], t);
      }
    }
  }

  predicate AllAtLeast(tasks: seq<Task>, priority: int) {
    forall i :: 0 <= i < |tasks| ==> priority <= tasks[i].priority
  }

  lemma PriorityFirst(t: Task, rest: seq<Task>)
    requires IsByPriority(rest) && AllAtLeast(rest, t.priority)
    ensures IsByPriority([t] + rest)
  {
  }

  lemma {:induction false} InsertedSorted(sorted: seq<Task>, t: Task, priority: int)
    requires IsByPriority(sorted) && AllAtLeast(sorted, priority) && priority <= t.priority
    ensures IsByPriority(Inserted(sorted, t)) && AllAtLeast(Inserted(sorted, t), priority)
  {
    if sorted == [] || t.priority < sorted[0].priority {
      PriorityFirst(t, sorted);
    } else {
      assert AllAtLeast(sorted[1..], sorted[0].priority);
      InsertedSorted(sorted[1..], t, sorted[0].priority);
      PriorityFirst(sorted[0], Inserted(sorted[1..], t));
    }
  }

  lemma TailsInOrder(tasks: seq<Task>, sorted: seq<Task>)
    requires tasks != [] && sorted != [] && Ascending(tasks) && IsByPriority(sorted)
    ensures Ascending(tasks[1..]) && IsByPriority(sorted[1..])
  {
  }

  predicate Ascending(tasks: seq<Task>) {
    forall i, j :: 0 <= i < j < |tasks| ==> tasks[i].priority < tasks[j].priority
  }

  lemma SameFirst(tasks: seq<Task>, sorted: seq<Task>)
    requires tasks != [] && sorted != [] && Ascending(tasks) && IsByPriority(sorted)
    requires forall t :: t in sorted <==> t in tasks
    ensures sorted[0] == tasks[0]
  {
    assert sorted[0] in tasks && tasks[0] in sorted;
    var i :| 0 <= i < |tasks| && tasks[i] == sorted[0];
    var j :| 0 <= j < |sorted| && sorted[j] == tasks[0];
    assert tasks[0].priority <= tasks[i].priority;
    assert sorted[0].priority <= sorted[j].priority;
  }

  /** The tasks of a batch have distinct ascending priorities, so they run exactly in
      script order: each task after all earlier ones have completed. */
  lemma {:induction false} ScriptOrder(tasks: seq<Task>, sorted: seq<Task>)
    requires Ascending(tasks) && IsByPriority(sorted) && multiset(sorted) == multiset(tasks)
    ensures sorted == tasks
  {
    assert |sorted| == |multiset(sorted)| == |tasks|;
    if tasks != [] {
      SameMembers(sorted, tasks);
      SameFirst(tasks, sorted);
      TailMultiset(sorted);
      TailMultiset(tasks);
      MultisetCancels(tasks[0], multiset(sorted[1..]), multiset(tasks[1..]));
      TailsInOrder(tasks, sorted);
      ScriptOrder(tasks[1..], sorted[1..]);
      assert sorted == [sorted[0]] + sorted[1..];
      assert tasks == [tasks[0]] + tasks[1..];
    }
  }

  lemma PrefixOfScripts(run: seq<Task>, batch: seq<int>, scripts: seq<string>, lodLevel: int)
    requires run <= TasksOf(batch, scripts, lodLevel)
    ensures |run| <= |scripts|
    ensures forall k :: 0 <= k < |run| ==>
              run[k].sqlFile == scripts[k] && run[k].buildingIds == batch && run[k].lodLevel == lodLevel
  {
  }

  lemma StopsAtFailure(r: Runner, tasks: seq<Task>, n: nat)
    requires |tasks| == n
    ensures var run := r.Executed(tasks);
            && run <= tasks && (forall k :: 0 <= k < |run| - 1 ==> r.TaskCompletes(run[k]))
            && (|run| < n ==> run != [] && !r.TaskCompletes(run[|run| - 1]))
  {
    var run := r.Executed(tasks);
    forall k | 0 <= k < |run| - 1 ensures r.TaskCompletes(run[k]) {
      assert run[k] == tasks[k];
    }
  }

  /** So a batch's job runs its scripts over the batch in script order, however its tasks
      are sorted: the first scripts, each after all earlier ones have completed, and all of
      them unless the last one run fails. */
  lemma BatchRunsInScriptOrder(batch: seq<int>, scripts: seq<string>, lodLevel: int, r: Runner, sorted: seq<Task>)
    requires IsByPriority(sorted) && multiset(sorted) == multiset(TasksOf(batch, scripts, lodLevel))
    ensures var run := r.Executed(sorted);
            && |run| <= |scripts|
            && (forall k :: 0 <= k < |run| ==>
                  run[k].sqlFile == scripts[k] && run[k].buildingIds == batch && run[k].lodLevel == lodLevel)
            && (forall k :: 0 <= k < |run| - 1 ==> r.TaskCompletes(run[k]))
            && (|run| < |scripts| ==> run != [] && !r.TaskCompletes(run[|run| - 1]))
  {
    ScriptOrder(TasksOf(batch, scripts, lodLevel), sorted);
    StopsAtFailure(r, sorted, |scripts|);
    PrefixOfScripts(r.Executed(sorted), batch, scripts, lodLevel);
  }

  // ---- Building the queues ----

  method CreateJob(batch: seq<int>, scripts: seq<string>, jobType: JobType) returns (job: Job)
    ensures fresh(job) && job.buildingIds == batch
    ensures AreScripts(job.tasks, batch, scripts,
                       if jobType.LOD3? then 3 else if jobType.LOD2? || jobType.PyLovoLink? then 2 else -1)
  {
    job := new Job(batch);
    for i := 0 to |scripts|
      invariant fresh(job) && job.buildingIds == batch
      invariant job.tasks == TasksOf(batch, scripts, LodLevelOf(jobType))[..i]
    {
      job.AddTask(Task(batch, scripts[i], i + 1, LodLevelOf(jobType)));
    }
  }

  /** The tasks are the scripts over the batch, in order, with ascending priorities. */
  ghost predicate AreScripts(tasks: seq<Task>, batch: seq<int>, scripts: seq<string>, lodLevel: int) {
    && |tasks| == |scripts|
    && forall k :: 0 <= k < |tasks| ==> tasks[k] == Task(batch, scripts[k], k + 1, lodLevel)
  }

  /** One job a batch, in order. */
  ghost predicate OneJobEach(jobs: seq<Job>, batches: seq<seq<int>>, scripts: seq<string>, lodLevel: int)
    reads jobs
  {
    && |jobs| == |batches|
    && forall i :: 0 <= i < |jobs| ==>
         jobs[i].buildingIds == batches[i] && AreScripts(jobs[i].tasks, batches[i], scripts, lodLevel)
  }

  method EnqueueAll(queue: JobQueue<Job>, batches: seq<seq<int>>, scripts: seq<string>, jobType: JobType)
    modifies queue
    ensures |queue.jobs| == |old(queue.jobs)| + |batches| && old(queue.jobs) <= queue.jobs
    ensures forall i :: |old(queue.jobs)| <= i < |queue.jobs| ==> fresh(queue.jobs[i])
    ensures OneJobEach(queue.jobs[|old(queue.jobs)|..], batches, scripts, LodLevelOf(jobType))
  {
    ghost var n := |queue.jobs|;
    for i := 0 to |batches|
      invariant |queue.jobs| == n + i && old(queue.jobs) <= queue.jobs
      invariant forall j :: n <= j < n + i ==> fresh(queue.jobs[j])
      invariant OneJobEach(queue.jobs[n..], batches[..i], scripts, LodLevelOf(jobType))
    {
      var job := CreateJob(batches[i], scripts, jobType);
      queue.Enqueue(job);
    }
    assert batches[..|batches|] == batches;
  }

  /** BuildFeatureExtractionQueue: one job a batch, LOD2 before LOD3, in order. */
  method BuildFeatureExtractionQueue(scripts: seq<string>, lod2Batches: seq<seq<int>>, lod3Batches: seq<seq<int>>)
    returns (queue: JobQueue<Job>)
    ensures fresh(queue) && |queue.jobs| == |lod2Batches| + |lod3Batches|
    ensures OneJobEach(queue.jobs[..|lod2Batches|], lod2Batches, scripts, 2)
    ensures OneJobEach(queue.jobs[|lod2Batches|..], lod3Batches, scripts, 3)
  {
    queue := new JobQueue<Job>();
    EnqueueAll(queue, lod2Batches, scripts, LOD2);
    ghost var lod2Jobs := queue.jobs;
    assert lod2Jobs[0..] == lod2Jobs;
    EnqueueAll(queue, lod3Batches, scripts, LOD3);
    assert queue.jobs[..|lod2Batches|] == lod2Jobs;
  }

  /** The jobs of a run: for each level they hold its ids in order, each batch full but
      possibly the last, and every LOD2 job comes before every LOD3 job. */
  method QueueExtraction(scripts: seq<string>, lod2Ids: seq<int>, lod3Ids: seq<int>, batchSize: int)
    returns (queue: JobQueue<Job>, ghost lod2Batches: seq<seq<int>>, ghost lod3Batches: seq<seq<int>>)
    ensures fresh(queue) && |queue.jobs| == |lod2Batches| + |lod3Batches|
    ensures Concat(lod2Batches) == lod2Ids && Concat(lod3Batches) == lod3Ids
    ensures batchSize > 0 ==> IsBatching(lod2Batches, lod2Ids, batchSize) && IsBatching(lod3Batches, lod3Ids, batchSize)
    ensures OneJobEach(queue.jobs[..|lod2Batches|], lod2Batches, scripts, 2)
    ensures OneJobEach(queue.jobs[|lod2Batches|..], lod3Batches, scripts, 3)
  {
    var batches2 := CreateBatches(lod2Ids, batchSize);
    var batches3 := CreateBatches(lod3Ids, batchSize);
    queue := BuildFeatureExtractionQueue(scripts, batches2, batches3);
    lod2Batches, lod3Batches := batches2, batches3;
  }

  /** PyLovoLinkJobQueue: one job a batch, every task moved to the given level. */
  method PyLovoLinkJobQueue(scripts: seq<string>, batches: seq<seq<int>>, lodLevel: int) returns (queue: JobQueue<Job>)
    ensures fresh(queue) && OneJobEach(queue.jobs, batches, scripts, lodLevel)
  {
    queue := new JobQueue<Job>();
    for i := 0 to |batches|
      invariant fresh(queue) && |queue.jobs| == i
      invariant forall j :: 0 <= j < i ==> fresh(queue.jobs[j])
      invariant forall j :: 0 <= j < i ==>
        queue.jobs[j].buildingIds == batches[j] && AreScripts(queue.jobs[j].tasks, batches[j], scripts, lodLevel)
    {
      var job := CreateLinkJob(batches[i], scripts, lodLevel);
      queue.Enqueue(job);
    }
  }

  method CreateLinkJob(batch: seq<int>, scripts: seq<string>, lodLevel: int) returns (job: Job)
    ensures fresh(job) && job.buildingIds == batch && AreScripts(job.tasks, batch, scripts, lodLevel)
  {
    job := CreateJob(batch, scripts, PyLovoLink);
    SetLevel(job, lodLevel);
  }

  method SetLevel(job: Job, lodLevel: int)
    modifies job`tasks
    ensures |job.tasks| == |old(job.tasks)|
    ensures forall i :: 0 <= i < |job.tasks| ==> job.tasks[i] == old(job.tasks)[i].(lodLevel := lodLevel)
  {
    ghost var was := job.tasks;
    for i := 0 to |job.tasks|
      invariant |job.tasks| == |was|
      invariant forall j :: 0 <= j < i ==> job.tasks[j] == was[j].(lodLevel := lodLevel)
      invariant forall j :: i <= j < |was| ==> job.tasks[j] == was[j]
    {
      job.tasks := job.tasks[i := job.tasks[i].(lodLevel := lodLevel)];
    }
  }
}
