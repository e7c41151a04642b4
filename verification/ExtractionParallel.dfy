/** Area runs side by side: their boxes are disjoint, but buildings attached across a
    border belong to both. One table of one level of detail; one event is one selection,
    one building's row, one scope query or one post script of one run. */
module ExtractionParallel {
  import opened Geometry
  import opened Wrappers
  import opened Extraction
  import opened ExtractionHistory

  /** Where a run stands on this table: it has selected ids and adds their rows in any
      order, then takes its scope once all are there, and runs the post scripts over it. */
  datatype Phase = Waiting | Extracting(ids: seq<Id>) | Scripting(ids: seq<Id>, scope: Option<set<Id>>, next: nat) | Ended

  datatype Worker = Worker(source: seq<Building>, area: Option<Bbox>, limit: int, phase: Phase)

  datatype Par = Par(table: Table, runs: seq<Worker>)

  datatype Event = Select(r: nat) | Insert(r: nat, id: Id) | TakeScope(r: nat) | RunScript(r: nat)

  predicate Enabled(geo: Geography, s: Par, e: Event) {
    && e.r < |s.runs|
    && var phase := s.runs[e.r].phase;
       match e
       case Select(_) => phase.Waiting?
       case Insert(_, id) => phase.Extracting? && id in phase.ids && geo.hasRow(id)
       case TakeScope(_) => phase.Extracting? && Rows(geo, phase.ids) <= s.table.rows
       case RunScript(_) => phase.Scripting? && phase.next < |s.table.marks|
  }

  function InPhase(s: Par, r: nat, phase: Phase): Par
    requires r < |s.runs|
  {
    s.(runs := s.runs[r := s.runs[r].(phase := phase)])
  }

  /** The post scripts from next on, or the end. */
  function FromScript(n: nat, ids: seq<Id>, scope: Option<set<Id>>, next: nat): Phase {
    if next >= n then Ended else Scripting(ids, scope, next)
  }

  function Next(geo: Geography, s: Par, e: Event): Par
    requires Enabled(geo, s, e)
  {
    var w, n := s.runs[e.r], |s.table.marks|;
    match e
    case Select(r) =>
      var ids := ToExtract(w.source, s.table.rows, w.area, w.limit);
      InPhase(s, r, if ids == [] then Ended else Extracting(ids))
    case Insert(_, id) => s.(table := s.table.(rows := s.table.rows + {id}))
    case TakeScope(r) =>
      var scope := if w.area.None? then None else Some(PostScope(geo, s.table.rows, w.phase.ids));
      InPhase(s, r, FromScript(n, w.phase.ids, scope, 0))
    case RunScript(r) =>
      var k := w.phase.next;
      InPhase(s.(table := Marked(geo, s.table, k, w.phase.scope)), r, FromScript(n, w.phase.ids, w.phase.scope, k + 1))
  }

  function Exec(geo: Geography, s: Par, events: seq<Event>): Option<Par>
    decreases |events|
  {
    if events == [] then Some(s)
    else if Enabled(geo, s, events[0]) then Exec(geo, Next(geo, s, events[0]), events[1..])
    else None
  }

  // ---- What every step keeps ----

  /** The run is still to compute b by script k: b is in the scope it took, or will be in
      the one it takes. */
  ghost predicate Pending(geo: Geography, t: Table, w: Worker, b: Id, k: nat) {
    match w.phase
    case Waiting => false
    case Ended => false
    case Extracting(ids) => w.area.None? || b in ids || exists a :: a in ids && a in t.rows && geo.near(a, b)
    case Scripting(_, scope, next) => next <= k && (scope.None? || b in scope.value)
  }

  /** Up to date, or some run is still to make it so. */
  ghost predicate Due(geo: Geography, s: Par, b: Id, k: nat)
    requires k < |s.table.marks|
  {
    UpToDate(geo, s.table, k, b) || exists r :: 0 <= r < |s.runs| && Pending(geo, s.table, s.runs[r], b, k)
  }

  ghost predicate AllDue(geo: Geography, s: Par) {
    forall k: nat, b :: k < |s.table.marks| && b in s.table.rows ==> Due(geo, s, b, k)
  }

  lemma SelectKeepsDue(geo: Geography, s: Par, r: nat, b: Id, k: nat)
    requires Enabled(geo, s, Select(r)) && k < |s.table.marks| && Due(geo, s, b, k)
    ensures Due(geo, Next(geo, s, Select(r)), b, k)
  {
    var after := Next(geo, s, Select(r));
    if !UpToDate(geo, s.table, k, b) {
      var q :| 0 <= q < |s.runs| && Pending(geo, s.table, s.runs[q], b, k);
      assert Pending(geo, after.table, after.runs[q], b, k);
    }
  }

  /** A new row makes only its neighbours and itself out of date, and the run that added
      it is still to compute all of these. */
  lemma InsertKeepsDue(geo: Geography, s: Par, r: nat, id: Id, b: Id, k: nat)
    requires Symmetric(geo) && Enabled(geo, s, Insert(r, id)) && k < |s.table.marks|
    requires b in s.table.rows + {id} && (b in s.table.rows ==> Due(geo, s, b, k))
    ensures Due(geo, Next(geo, s, Insert(r, id)), b, k)
  {
    var after := Next(geo, s, Insert(r, id));
    if b == id || geo.near(id, b) {
      assert Pending(geo, after.table, after.runs[r], b, k);
    } else if UpToDate(geo, s.table, k, b) {
      assert !geo.near(b, id);
      assert Neighbours(geo, after.table.rows, b) == Neighbours(geo, s.table.rows, b);
    } else {
      var q :| 0 <= q < |s.runs| && Pending(geo, s.table, s.runs[q], b, k);
      assert Pending(geo, after.table, after.runs[q], b, k);
    }
  }

  /** The scope holds every row the run was to compute. */
  lemma ScopeKeepsDue(geo: Geography, s: Par, r: nat, b: Id, k: nat)
    requires Enabled(geo, s, TakeScope(r)) && k < |s.table.marks| && b in s.table.rows && Due(geo, s, b, k)
    ensures Due(geo, Next(geo, s, TakeScope(r)), b, k)
  {
    var after := Next(geo, s, TakeScope(r));
    if !UpToDate(geo, s.table, k, b) {
      var q :| 0 <= q < |s.runs| && Pending(geo, s.table, s.runs[q], b, k);
      assert Pending(geo, after.table, after.runs[q], b, k);
    }
  }

  /** A script brings its scope up to date, whatever others added before it. */
  lemma ScriptKeepsDue(geo: Geography, s: Par, r: nat, b: Id, k: nat)
    requires Enabled(geo, s, RunScript(r)) && k < |s.table.marks| && b in s.table.rows && Due(geo, s, b, k)
    ensures Due(geo, Next(geo, s, RunScript(r)), b, k)
  {
    var after, w := Next(geo, s, RunScript(r)), s.runs[r];
    if k == w.phase.next && (w.phase.scope.None? || b in w.phase.scope.value) {
      assert UpToDate(geo, after.table, k, b);
    } else if UpToDate(geo, s.table, k, b) {
      assert UpToDate(geo, after.table, k, b);
    } else {
      var q :| 0 <= q < |s.runs| && Pending(geo, s.table, s.runs[q], b, k);
      assert Pending(geo, after.table, after.runs[q], b, k);
    }
  }

  lemma StepKeepsDue(geo: Geography, s: Par, e: Event)
    requires Symmetric(geo) && AllDue(geo, s) && Enabled(geo, s, e)
    ensures AllDue(geo, Next(geo, s, e))
  {
    var after := Next(geo, s, e);
    forall k: nat, b | k < |after.table.marks| && b in after.table.rows ensures Due(geo, after, b, k) {
      match e
      case Select(r) => SelectKeepsDue(geo, s, r, b, k);
      case Insert(r, id) => InsertKeepsDue(geo, s, r, id, b, k);
      case TakeScope(r) => ScopeKeepsDue(geo, s, r, b, k);
      case RunScript(r) => ScriptKeepsDue(geo, s, r, b, k);
    }
  }

  lemma {:induction false} ScheduleKeepsDue(geo: Geography, s: Par, events: seq<Event>)
    requires Symmetric(geo) && AllDue(geo, s) && Exec(geo, s, events).Some?
    ensures AllDue(geo, Exec(geo, s, events).value)
    decreases |events|
  {
    if events != [] {
      StepKeepsDue(geo, s, events[0]);
      ScheduleKeepsDue(geo, Next(geo, s, events[0]), events[1..]);
    }
  }

  // ---- Quiescence ----

  ghost predicate AllEnded(s: Par) {
    forall r :: 0 <= r < |s.runs| ==> s.runs[r].phase.Ended?
  }

  /** Runs over any areas in any interleaving: once all have ended, every stored value
      equals a full recomputation, also across the borders of the areas. */
  lemma ParallelRunsAgree(geo: Geography, s: Par, events: seq<Event>)
    requires Symmetric(geo) && Consistent(geo, s.table) && Exec(geo, s, events).Some?
    requires AllEnded(Exec(geo, s, events).value)
    ensures Consistent(geo, Exec(geo, s, events).value.table)
  {
    forall k: nat, b | k < |s.table.marks| && b in s.table.rows ensures Due(geo, s, b, k) {
      assert UpToDate(geo, s.table, k, b);
    }
    ScheduleKeepsDue(geo, s, events);
    var end := Exec(geo, s, events).value;
    forall k: nat, b | k < |end.table.marks| && b in end.table.rows ensures UpToDate(geo, end.table, k, b) {
      assert Due(geo, end, b, k);
    }
  }

  // ---- Every run can end ----

  ghost predicate Reaches(geo: Geography, s: Par, t: Par) {
    exists events :: Exec(geo, s, events) == Some(t)
  }

  lemma {:induction false} ExecConcat(geo: Geography, s: Par, first: seq<Event>, more: seq<Event>)
    requires Exec(geo, s, first).Some?
    ensures Exec(geo, s, first + more) == Exec(geo, Exec(geo, s, first).value, more)
    decreases |first|
  {
    if first == [] {
      assert first + more == more;
    } else {
      assert (first + more)[1..] == first[1..] + more;
      ExecConcat(geo, Next(geo, s, first[0]), first[1..], more);
    }
  }

  lemma ReachesOn(geo: Geography, s: Par, t: Par, u: Par)
    requires Reaches(geo, s, t) && Reaches(geo, t, u)
    ensures Reaches(geo, s, u)
  {
    var first :| Exec(geo, s, first) == Some(t);
    var more :| Exec(geo, t, more) == Some(u);
    ExecConcat(geo, s, first, more);
  }

  lemma StepReaches(geo: Geography, s: Par, e: Event)
    requires Enabled(geo, s, e)
    ensures Reaches(geo, s, Next(geo, s, e))
  {
    var events := [e];
    assert events[1..] == [];
    assert Exec(geo, s, events) == Exec(geo, Next(geo, s, e), events[1..]);
  }

  lemma Here(geo: Geography, s: Par)
    ensures Reaches(geo, s, s)
  {
    assert Exec(geo, s, []) == Some(s);
  }

  /** Only run r has moved. */
  ghost predicate OthersStay(s: Par, t: Par, r: nat) {
    && |t.runs| == |s.runs| && |t.table.marks| == |s.table.marks|
    && forall q :: 0 <= q < |s.runs| && q != r ==> t.runs[q] == s.runs[q]
  }

  lemma {:induction false} ScriptsReachTheEnd(geo: Geography, s: Par, r: nat) returns (t: Par)
    requires r < |s.runs| && (s.runs[r].phase.Ended? || (s.runs[r].phase.Scripting? && s.runs[r].phase.next < |s.table.marks|))
    ensures Reaches(geo, s, t) && OthersStay(s, t, r) && t.runs[r].phase.Ended?
    decreases if s.runs[r].phase.Ended? then 0 else 1 + |s.table.marks| - s.runs[r].phase.next
  {
    if s.runs[r].phase.Ended? {
      Here(geo, s);
      t := s;
    } else {
      var u := Next(geo, s, RunScript(r));
      StepReaches(geo, s, RunScript(r));
      t := ScriptsReachTheEnd(geo, u, r);
      ReachesOn(geo, s, u, t);
    }
  }

  /** The rows of the ids from k on are added, then the scope is taken. */
  lemma {:induction false} RowsReachTheEnd(geo: Geography, s: Par, r: nat, ids: seq<Id>, k: nat) returns (t: Par)
    requires r < |s.runs| && s.runs[r].phase == Extracting(ids) && k <= |ids|
    requires forall j :: 0 <= j < k && geo.hasRow(ids[j]) ==> ids[j] in s.table.rows
    ensures Reaches(geo, s, t) && OthersStay(s, t, r) && t.runs[r].phase.Ended?
    decreases |ids| - k
  {
    if k == |ids| {
      assert Enabled(geo, s, TakeScope(r));
      var u := Next(geo, s, TakeScope(r));
      StepReaches(geo, s, TakeScope(r));
      t := ScriptsReachTheEnd(geo, u, r);
      ReachesOn(geo, s, u, t);
    } else if geo.hasRow(ids[k]) {
      var u := Next(geo, s, Insert(r, ids[k]));
      StepReaches(geo, s, Insert(r, ids[k]));
      t := RowsReachTheEnd(geo, u, r, ids, k + 1);
      ReachesOn(geo, s, u, t);
    } else {
      t := RowsReachTheEnd(geo, s, r, ids, k + 1);
    }
  }

  /** Whatever the others have done, a run in any state it can get into can go on to its
      end on its own. */
  lemma RunReachesTheEnd(geo: Geography, s: Par, r: nat) returns (t: Par)
    requires r < |s.runs| && (s.runs[r].phase.Scripting? ==> s.runs[r].phase.next < |s.table.marks|)
    ensures Reaches(geo, s, t) && OthersStay(s, t, r) && t.runs[r].phase.Ended?
  {
    match s.runs[r].phase
    case Waiting =>
      var u := Next(geo, s, Select(r));
      StepReaches(geo, s, Select(r));
      if u.runs[r].phase.Ended? {
        t := u;
      } else {
        t := RowsReachTheEnd(geo, u, r, u.runs[r].phase.ids, 0);
        ReachesOn(geo, s, u, t);
      }
    case Extracting(ids) => t := RowsReachTheEnd(geo, s, r, ids, 0);
    case _ => t := ScriptsReachTheEnd(geo, s, r);
  }

  /** So all runs can end, from any state a schedule leads to. */
  lemma {:induction false} AllCanEnd(geo: Geography, s: Par, r: nat) returns (t: Par)
    requires r <= |s.runs| && forall q :: 0 <= q < r ==> s.runs[q].phase.Ended?
    requires forall q :: 0 <= q < |s.runs| && s.runs[q].phase.Scripting? ==> s.runs[q].phase.next < |s.table.marks|
    ensures Reaches(geo, s, t) && AllEnded(t)
    decreases |s.runs| - r
  {
    if r == |s.runs| {
      Here(geo, s);
      t := s;
    } else {
      var u := RunReachesTheEnd(geo, s, r);
      t := AllCanEnd(geo, u, r + 1);
      ReachesOn(geo, s, u, t);
    }
  }

  // ---- Together they build the whole table ----

  /** A run without a limit: what it is to extract and what is there already. */
  ghost predicate Accounted(geo: Geography, t: Table, source: seq<Building>, w: Worker) {
    && w.source == source && w.limit <= 0
    && (w.phase.Extracting? ==> forall id :: id in w.phase.ids ==> id in BuildingIds(source, None))
    && forall id :: id in BuildingIds(source, w.area) && geo.hasRow(id) && !w.phase.Waiting? ==>
         id in t.rows || (w.phase.Extracting? && id in w.phase.ids)
  }

  ghost predicate AllAccounted(geo: Geography, s: Par, source: seq<Building>, areas: seq<Option<Bbox>>) {
    && WithinSource(geo, s.table, source) && |s.runs| == |areas|
    && forall r :: 0 <= r < |areas| ==> s.runs[r].area == areas[r] && Accounted(geo, s.table, source, s.runs[r])
  }

  lemma SelectAccounts(geo: Geography, s: Par, source: seq<Building>, areas: seq<Option<Bbox>>, r: nat)
    requires AllAccounted(geo, s, source, areas) && Enabled(geo, s, Select(r))
    ensures AllAccounted(geo, Next(geo, s, Select(r)), source, areas)
  {
    var w := s.runs[r];
    forall id ensures id in ToExtract(source, s.table.rows, w.area, w.limit)
                      <==> id in BuildingIds(source, w.area) && id !in s.table.rows
    {
      UnprocessedMembers(BuildingIds(source, w.area), s.table.rows, id);
    }
    forall id | id in BuildingIds(source, w.area) ensures id in BuildingIds(source, None) {
      PickedIsListed(source, w.area, id);
    }
    var ids := ToExtract(source, s.table.rows, w.area, w.limit);
    assert ids == [] ==> forall id :: id in BuildingIds(source, w.area) ==> id in s.table.rows;
    assert Accounted(geo, s.table, source, Next(geo, s, Select(r)).runs[r]);
  }

  lemma ScopeAccounts(geo: Geography, s: Par, source: seq<Building>, areas: seq<Option<Bbox>>, r: nat)
    requires AllAccounted(geo, s, source, areas) && Enabled(geo, s, TakeScope(r))
    ensures AllAccounted(geo, Next(geo, s, TakeScope(r)), source, areas)
  {
    var w := s.runs[r];
    forall id | id in BuildingIds(source, w.area) && geo.hasRow(id) ensures id in s.table.rows {
      assert id in w.phase.ids ==> id in Rows(geo, w.phase.ids);
    }
    assert Accounted(geo, s.table, source, Next(geo, s, TakeScope(r)).runs[r]);
  }

  lemma InsertAccounts(geo: Geography, s: Par, source: seq<Building>, areas: seq<Option<Bbox>>, r: nat, id: Id)
    requires AllAccounted(geo, s, source, areas) && Enabled(geo, s, Insert(r, id))
    ensures AllAccounted(geo, Next(geo, s, Insert(r, id)), source, areas)
  {
    assert Accounted(geo, s.table, source, s.runs[r]);
    var after := Next(geo, s, Insert(r, id));
    forall q | 0 <= q < |areas| ensures Accounted(geo, after.table, source, after.runs[q]) {
      assert Accounted(geo, s.table, source, s.runs[q]);
    }
  }

  lemma ScriptAccounts(geo: Geography, s: Par, source: seq<Building>, areas: seq<Option<Bbox>>, r: nat)
    requires AllAccounted(geo, s, source, areas) && Enabled(geo, s, RunScript(r))
    ensures AllAccounted(geo, Next(geo, s, RunScript(r)), source, areas)
  {
    var after := Next(geo, s, RunScript(r));
    forall q | 0 <= q < |areas| ensures Accounted(geo, after.table, source, after.runs[q]) {
      assert Accounted(geo, s.table, source, s.runs[q]);
    }
  }

  lemma {:induction false} ScheduleAccounts(geo: Geography, s: Par, source: seq<Building>, areas: seq<Option<Bbox>>,
                                            events: seq<Event>)
    requires AllAccounted(geo, s, source, areas) && Exec(geo, s, events).Some?
    ensures AllAccounted(geo, Exec(geo, s, events).value, source, areas)
    ensures |Exec(geo, s, events).value.table.marks| == |s.table.marks|
    decreases |events|
  {
    if events != [] {
      match events[0] {
        case Select(r) => SelectAccounts(geo, s, source, areas, r);
        case Insert(r, id) => InsertAccounts(geo, s, source, areas, r, id);
        case TakeScope(r) => ScopeAccounts(geo, s, source, areas, r);
        case RunScript(r) => ScriptAccounts(geo, s, source, areas, r);
      }
      ScheduleAccounts(geo, Next(geo, s, events[0]), source, areas, events[1..]);
    }
  }

  /** No rows yet, and one run without a limit for each area, none of them begun. */
  function Start(n: nat, source: seq<Building>, areas: seq<Option<Bbox>>): Par {
    Par(Table({}, seq(n, _ => map[])),
        seq(|areas|, r requires 0 <= r < |areas| => Worker(source, areas[r], 0, Waiting)))
  }

  /** Runs without a limit that between them look at every building, in any
      interleaving, end in the table one whole-table run builds. */
  lemma ParallelRunsEqualWholeRun(geo: Geography, n: nat, source: seq<Building>, areas: seq<Option<Bbox>>, events: seq<Event>)
    requires Symmetric(geo) && Exec(geo, Start(n, source, areas), events).Some?
    requires AllEnded(Exec(geo, Start(n, source, areas), events).value)
    requires forall id :: id in BuildingIds(source, None) ==>
      exists r :: 0 <= r < |areas| && id in BuildingIds(source, areas[r])
    ensures Exec(geo, Start(n, source, areas), events).value.table == Full(geo, n, source)
  {
    var start := Start(n, source, areas);
    ScheduleAccounts(geo, start, source, areas, events);
    var end := Exec(geo, start, events).value;
    ParallelRunsAgree(geo, start, events);
    forall id | id in BuildingIds(source, None) && geo.hasRow(id) ensures id in end.table.rows {
      var r :| 0 <= r < |areas| && id in BuildingIds(source, areas[r]);
      assert Accounted(geo, end.table, source, end.runs[r]);
    }
    FullWhenAllExtracted(geo, end.table, source);
  }
}
