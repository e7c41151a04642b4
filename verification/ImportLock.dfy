/** The imports of the runs of one server: the region lock and the order of a run's
    stages and datasets give what one row per place needs. One event is a step of the
    server or a step of an import. */
module ImportLock {
  import opened Wrappers
  import opened ImportCache
  import opened ImportHistory
  import opened ImportParallel
  import RunProtocol

  datatype Joint = Joint(server: RunProtocol.Sys, imports: Par)

  /** All imports go to one database; task i belongs to run[i] of the server. */
  datatype Plan = Plan(db: string, run: seq<nat>)

  datatype Event = Serve(serve: RunProtocol.Event) | Work(work: ImportParallel.Event)

  /** No import of this run is under way, but for that of one task. */
  ghost predicate NoneUnderWay(plan: Plan, s: Par, run: nat, but: int) {
    forall k :: 0 <= k < |s.tasks| && k < |plan.run| && k != but && plan.run[k] == run ==> !Active(s.tasks[k])
  }

  /** The run of task i is in its import stage, on this database and for this box. */
  ghost predicate InImportStage(plan: Plan, j: Joint, i: nat)
    requires i < |j.imports.tasks| && i < |plan.run|
  {
    var run, e := plan.run[i], j.imports.tasks[i].e;
    && run < |j.server.threads| && j.server.threads[run].phase == RunProtocol.Working(1)
    && j.server.threads[run].key.db == plan.db
    && e.request.Area? && e.request.b == j.server.threads[run].key.bbox
  }

  /** A run imports in its first stage, one dataset after another, and leaves the stage
      only when its import has ended. */
  ghost predicate Enabled(plan: Plan, j: Joint, ev: Event) {
    match ev
    case Serve(e) =>
      && RunProtocol.Enabled(j.server, e)
      && (e.Enter? || e.Finish? ==> NoneUnderWay(plan, j.imports, e.run, -1))
    case Work(e) =>
      && ImportParallel.Enabled(j.imports, e)
      && (e.Look? ==> e.i < |plan.run| && InImportStage(plan, j, e.i) && NoneUnderWay(plan, j.imports, plan.run[e.i], e.i))
  }

  ghost function Next(source: Source, project: Projection, plan: Plan, j: Joint, ev: Event): Joint
    requires Enabled(plan, j, ev)
  {
    match ev
    case Serve(e) => j.(server := RunProtocol.Next(j.server, e))
    case Work(e) => j.(imports := ImportParallel.Next(source, project, j.imports, e))
  }

  ghost function Exec(source: Source, project: Projection, plan: Plan, j: Joint, events: seq<Event>): Option<Joint>
    decreases |events|
  {
    if events == [] then Some(j)
    else if Enabled(plan, j, events[0]) then
      Exec(source, project, plan, Next(source, project, plan, j, events[0]), events[1..])
    else None
  }

  // ---- What every step keeps ----

  /** Every import under way belongs to a run that holds its region in its import stage,
      and to another run than the others. */
  ghost predicate UnderTheLock(plan: Plan, j: Joint) {
    && |plan.run| == |j.imports.tasks|
    && (forall i :: 0 <= i < |plan.run| && Active(j.imports.tasks[i]) ==> InImportStage(plan, j, i))
    && (forall i, k :: 0 <= i < k < |plan.run| && Active(j.imports.tasks[i]) && Active(j.imports.tasks[k]) ==>
          plan.run[i] != plan.run[k])
  }

  ghost predicate OrderedBoxes(s: Par) {
    forall i :: 0 <= i < |s.tasks| && s.tasks[i].e.request.Area? ==> s.tasks[i].e.request.b.Ordered()
  }

  ghost predicate Inv(plan: Plan, j: Joint) {
    && RunProtocol.Inv(j.server) && UnderTheLock(plan, j)
    && OrderedBoxes(j.imports) && RowsApart(j.imports)
  }

  /** Two holders on one database never have one and the same box with ordered corners. */
  lemma HoldersDiffer(server: RunProtocol.Sys, i: nat, j: nat)
    requires RunProtocol.Inv(server) && i < |server.threads| && j < |server.threads| && i != j
    requires server.threads[i].phase.Holds() && server.threads[j].phase.Holds()
    requires server.threads[i].key.db == server.threads[j].key.db && server.threads[i].key.bbox.Ordered()
    ensures server.threads[i].key.bbox != server.threads[j].key.bbox
  {
    RunProtocol.HoldersExclude(server);
    var first, second := if i < j then i else j, if i < j then j else i;
    assert !server.threads[first].key.Hold().Conflicts(server.threads[second].key.Hold());
  }

  /** The region lock keeps imports of one place apart. */
  lemma LockKeepsPlacesApart(plan: Plan, j: Joint)
    requires RunProtocol.Inv(j.server) && UnderTheLock(plan, j) && OrderedBoxes(j.imports)
    ensures PlacesExclusive(j.imports)
  {
    var tasks := j.imports.tasks;
    forall i, k | 0 <= i < k < |tasks| && Active(tasks[i]) && Active(tasks[k]) ensures !SamePlaceOf(tasks[i].e, tasks[k].e) {
      assert InImportStage(plan, j, i) && InImportStage(plan, j, k);
      HoldersDiffer(j.server, plan.run[i], plan.run[k]);
    }
  }

  lemma ServingKeepsTheLock(source: Source, project: Projection, plan: Plan, j: Joint, e: RunProtocol.Event)
    requires UnderTheLock(plan, j) && Enabled(plan, j, Serve(e))
    ensures UnderTheLock(plan, Next(source, project, plan, j, Serve(e)))
  {
    var next := Next(source, project, plan, j, Serve(e));
    forall i | 0 <= i < |plan.run| && Active(next.imports.tasks[i]) ensures InImportStage(plan, next, i) {
      assert InImportStage(plan, j, i);
      assert next.server.threads[plan.run[i]] == j.server.threads[plan.run[i]];
    }
  }

  lemma WorkingKeepsTheLock(source: Source, project: Projection, plan: Plan, j: Joint, e: ImportParallel.Event)
    requires UnderTheLock(plan, j) && OrderedBoxes(j.imports) && Enabled(plan, j, Work(e))
    ensures var next := Next(source, project, plan, j, Work(e)); UnderTheLock(plan, next) && OrderedBoxes(next.imports)
  {
    var next := Next(source, project, plan, j, Work(e));
    StepKeepsImports(source, project, j.imports, e);
    forall i | 0 <= i < |plan.run| && Active(next.imports.tasks[i])
      ensures InImportStage(plan, next, i) && (Active(j.imports.tasks[i]) || (i == e.i && e.Look?))
    {
      assert InImportStage(plan, j, i);
    }
  }

  lemma StepKeepsInv(source: Source, project: Projection, plan: Plan, j: Joint, ev: Event)
    requires Inv(plan, j) && Enabled(plan, j, ev)
    ensures Inv(plan, Next(source, project, plan, j, ev))
  {
    match ev
    case Serve(e) =>
      RunProtocol.InvariantKept(j.server, e);
      ServingKeepsTheLock(source, project, plan, j, e);
    case Work(e) =>
      LockKeepsPlacesApart(plan, j);
      StepKeepsRowsApart(source, project, j.imports, e);
      WorkingKeepsTheLock(source, project, plan, j, e);
  }

  lemma {:induction false} ScheduleKeepsInv(source: Source, project: Projection, plan: Plan, j: Joint, events: seq<Event>)
    requires Inv(plan, j) && Exec(source, project, plan, j, events).Some?
    ensures Inv(plan, Exec(source, project, plan, j, events).value)
    decreases |events|
  {
    if events != [] {
      StepKeepsInv(source, project, plan, j, events[0]);
      ScheduleKeepsInv(source, project, plan, Next(source, project, plan, j, events[0]), events[1..]);
    }
  }

  // ---- Every schedule of a server and its imports ----

  ghost predicate Begins(plan: Plan, j: Joint) {
    && j.server == RunProtocol.INITIAL && |plan.run| == |j.imports.tasks|
    && forall i :: 0 <= i < |j.imports.tasks| ==> j.imports.tasks[i].phase.Waiting?
  }

  /** From a new server and any record with one row per place: whatever requests come,
      and however the runs and the steps of their imports interleave, the record holds at
      most one row per dataset, mode and box at every moment, for boxes with ordered
      corners. */
  lemma LockedImportsLeaveOneRowEach(source: Source, project: Projection, plan: Plan, j: Joint, events: seq<Event>)
    requires Begins(plan, j) && OneRowEach(j.imports.db.rows) && OrderedBoxes(j.imports)
    requires Exec(source, project, plan, j, events).Some?
    ensures var after := Exec(source, project, plan, j, events).value;
            OneRowEach(after.imports.db.rows) && PlacesExclusive(after.imports)
  {
    RunProtocol.InitialInvariant();
    ScheduleKeepsInv(source, project, plan, j, events);
    LockKeepsPlacesApart(plan, Exec(source, project, plan, j, events).value);
  }
}
