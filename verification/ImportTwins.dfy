/** When imports side by side leave two rows for one place: exactly when two of them
    would record the very same row. */
module ImportTwins {
  import opened Wrappers
  import opened TextEncoders
  import opened ImportCache
  import opened ImportHistory
  import opened ImportParallel

  predicate Records(e: Import) {
    !e.limited && !e.request.BadBox?
  }

  /** The row an import records when it is not skipped. */
  function OwnRow(source: Source, project: Projection, e: Import): Row
    requires Records(e)
  {
    RowOf(e, FilesOf(source, project, e))
  }

  /** Two imports of one dataset, mode and box that choose the same files. */
  predicate Twins(source: Source, project: Projection, a: Import, b: Import) {
    Records(a) && Records(b) && OwnRow(source, project, a) == OwnRow(source, project, b)
  }

  ghost predicate HasTwins(source: Source, project: Projection, s: Par) {
    exists i, j :: 0 <= i < j < |s.tasks| && Twins(source, project, s.tasks[i].e, s.tasks[j].e)
  }

  /** Neither look of this import hits the record. */
  predicate Misses(source: Source, project: Projection, rows: seq<Row>, e: Import) {
    && AfterLook(rows, e) != Ended(true)
    && (SkipsEmpty(e) ==> AfterDecide(rows, e, FilesOf(source, project, e)) != Ended(true))
  }

  /** Any imports are about to start, and the record skips none of them. */
  ghost predicate NothingCovered(source: Source, project: Projection, s: Par) {
    && Begins(source, s) && OneRowEach(s.db.rows)
    && forall i :: 0 <= i < |s.tasks| && Records(s.tasks[i].e) ==> Misses(source, project, s.db.rows, s.tasks[i].e)
  }

  lemma EmptyRecordCoversNothing(source: Source, project: Projection, s: Par)
    requires Begins(source, s) && s.db.rows == []
    ensures NothingCovered(source, project, s)
  {
  }

  ghost predicate LeavesTwoRows(source: Source, project: Projection, s: Par, events: seq<Event>) {
    Exec(source, project, s, events).Some? && !OneRowEach(Exec(source, project, s, events).value.db.rows)
  }

  // ---- Without twins, one row each ----

  lemma StepKeepsTwins(source: Source, project: Projection, s: Par, ev: Event)
    requires Enabled(s, ev) && HasTwins(source, project, Next(source, project, s, ev))
    ensures HasTwins(source, project, s)
  {
    var t := Next(source, project, s, ev);
    StepKeepsImports(source, project, s, ev);
    var i, j :| 0 <= i < j < |t.tasks| && Twins(source, project, t.tasks[i].e, t.tasks[j].e);
    assert Twins(source, project, s.tasks[i].e, s.tasks[j].e);
  }

  lemma OtherRowStaysMissing(rows: seq<Row>, n: Row, other: Row)
    requires NoTwin(rows, other) && n != other
    ensures NoTwin(Record(rows, n), other)
  {
    var after, filtered := Record(rows, n), WithoutOutdated(rows, n);
    forall k | 0 <= k < |after| && SamePlace(after[k], other) ensures after[k].fingerprint != other.fingerprint {
      if k < |filtered| {
        assert filtered[k] in filtered;
        assert after[k] in rows;
      }
    }
  }

  /** What an import under way is to record. */
  lemma UnderWayIsOwn(source: Source, project: Projection, before: set<string>, s: Par, i: nat)
    requires Inv(source, project, before, s) && i < |s.tasks| && s.tasks[i].phase.Importing?
    requires Records(s.tasks[i].e)
    ensures RowOf(s.tasks[i].e, s.tasks[i].phase.files) == OwnRow(source, project, s.tasks[i].e)
  {
    assert Fits(source, project, s.db.imported, s.tasks[i]);
  }

  lemma RowsDiffer(source: Source, project: Projection, s: Par, i: nat, j: nat)
    requires !HasTwins(source, project, s) && i < |s.tasks| && j < |s.tasks| && i != j
    requires Records(s.tasks[i].e) && Records(s.tasks[j].e)
    ensures OwnRow(source, project, s.tasks[i].e) != OwnRow(source, project, s.tasks[j].e)
  {
    var first, second := if i < j then i else j, if i < j then j else i;
    assert !Twins(source, project, s.tasks[first].e, s.tasks[second].e);
  }

  lemma FinishWithoutTwins(source: Source, project: Projection, before: set<string>, s: Par, i: nat)
    requires Inv(source, project, before, s) && RowsApart(s) && !HasTwins(source, project, s)
    requires Enabled(s, Finish(i)) && !s.tasks[i].e.limited
    ensures RowsApart(Next(source, project, s, Finish(i)))
  {
    var t := s.tasks[i];
    var n, after := RowOf(t.e, t.phase.files), Next(source, project, s, Finish(i));
    RecordedApart(s.db.rows, n);
    UnderWayIsOwn(source, project, before, s, i);
    forall j | 0 <= j < |after.tasks| && after.tasks[j].phase.Importing? && !after.tasks[j].e.limited
               && !after.tasks[j].e.request.BadBox?
      ensures NoTwin(after.db.rows, RowOf(after.tasks[j].e, after.tasks[j].phase.files))
    {
      assert j != i && after.tasks[j] == s.tasks[j];
      UnderWayIsOwn(source, project, before, s, j);
      RowsDiffer(source, project, s, i, j);
      OtherRowStaysMissing(s.db.rows, n, RowOf(s.tasks[j].e, s.tasks[j].phase.files));
    }
  }

  lemma {:induction false} WithoutTwinsRowsStayApart(source: Source, project: Projection, before: set<string>, s: Par,
                                                     events: seq<Event>)
    requires Honest(source, project) && Inv(source, project, before, s) && RowsApart(s)
    requires !HasTwins(source, project, s) && Exec(source, project, s, events).Some?
    ensures RowsApart(Exec(source, project, s, events).value)
    decreases |events|
  {
    if events != [] {
      var ev := events[0];
      var t := Next(source, project, s, ev);
      StepKeepsInv(source, project, before, s, ev);
      if ev.Finish? && !s.tasks[ev.i].e.limited {
        FinishWithoutTwins(source, project, before, s, ev.i);
      } else {
        QuietStepKeepsRowsApart(source, project, s, ev);
      }
      if HasTwins(source, project, t) {
        StepKeepsTwins(source, project, s, ev);
      }
      WithoutTwinsRowsStayApart(source, project, before, t, events[1..]);
    }
  }

  /** Whatever the record holds at the start: without twins no schedule leaves two rows. */
  lemma NoTwinsOneRowEach(source: Source, project: Projection, s: Par, events: seq<Event>)
    requires Honest(source, project) && Begins(source, s) && OneRowEach(s.db.rows)
    requires !HasTwins(source, project, s)
    ensures !LeavesTwoRows(source, project, s, events)
  {
    if Exec(source, project, s, events).Some? {
      WithoutTwinsRowsStayApart(source, project, s.db.imported, s, events);
    }
  }

  // ---- Twins can both record ----

  ghost predicate Reaches(source: Source, project: Projection, s: Par, t: Par) {
    exists events :: Exec(source, project, s, events) == Some(t)
  }

  lemma {:induction false} ExecConcat(source: Source, project: Projection, s: Par, first: seq<Event>, more: seq<Event>)
    requires Exec(source, project, s, first).Some?
    ensures Exec(source, project, s, first + more) == Exec(source, project, Exec(source, project, s, first).value, more)
    decreases |first|
  {
    if first == [] {
      assert first + more == more;
    } else {
      assert (first + more)[1..] == first[1..] + more;
      ExecConcat(source, project, Next(source, project, s, first[0]), first[1..], more);
    }
  }

  lemma ReachesOn(source: Source, project: Projection, s: Par, t: Par, u: Par)
    requires Reaches(source, project, s, t) && Reaches(source, project, t, u)
    ensures Reaches(source, project, s, u)
  {
    var first :| Exec(source, project, s, first) == Some(t);
    var more :| Exec(source, project, t, more) == Some(u);
    ExecConcat(source, project, s, first, more);
  }

  lemma StepReaches(source: Source, project: Projection, s: Par, ev: Event)
    requires Enabled(s, ev)
    ensures Reaches(source, project, s, Next(source, project, s, ev))
  {
    var events := [ev];
    assert events[1..] == [];
    assert Exec(source, project, s, events) == Exec(source, project, Next(source, project, s, ev), events[1..]);
  }

  lemma Here(source: Source, project: Projection, s: Par)
    ensures Reaches(source, project, s, s)
  {
    assert Exec(source, project, s, []) == Some(s);
  }

  /** The same state but for the phase of one task and what is imported. */
  ghost predicate Moved(s: Par, t: Par, i: nat, phase: Phase)
    requires i < |s.tasks|
  {
    t.tasks == s.tasks[i := s.tasks[i].(phase := phase)] && t.db.rows == s.db.rows && t.cache == s.cache
  }

  /** All remaining calls complete. */
  lemma {:induction false} CallsReach(source: Source, project: Projection, s: Par, i: nat) returns (t: Par)
    requires i < |s.tasks| && s.tasks[i].phase.Importing? && !s.tasks[i].e.request.BadBox?
    requires s.tasks[i].phase.done <= |s.tasks[i].phase.files|
    ensures Reaches(source, project, s, t)
    ensures var files := s.tasks[i].phase.files; Moved(s, t, i, Importing(files, |files|))
    decreases |s.tasks[i].phase.files| - s.tasks[i].phase.done
  {
    var files, k := s.tasks[i].phase.files, s.tasks[i].phase.done;
    if k == |files| {
      Here(source, project, s);
      t := s;
    } else {
      var ev := Call(i, Completed);
      var u := Next(source, project, s, ev);
      assert Moved(s, u, i, Importing(files, k + 1));
      StepReaches(source, project, s, ev);
      t := CallsReach(source, project, u, i);
      ReachesOn(source, project, s, u, t);
    }
  }

  /** The next folder is read and chosen from, with no write in between. */
  lemma ChooseNext(source: Source, project: Projection, s: Par, i: nat, chosen: seq<seq<Stamp>>)
    requires i < |s.tasks| && SkipsEmpty(s.tasks[i].e) && Agrees(source, s.cache)
    requires s.tasks[i].phase == Selecting(chosen, None) && |chosen| < |s.tasks[i].e.folder|
    ensures var kept := Kept(source, project, s.tasks[i].e.folder[|chosen|].models, s.tasks[i].e.request.b);
            Reaches(source, project, s, InPhase(s, i, Selecting(chosen + [kept], None)))
  {
    var e := s.tasks[i].e;
    var models := e.folder[|chosen|].models;
    var u := InPhase(s, i, Selecting(chosen, Some(s.cache)));
    SnapshotChoosesTheSame(source, project, s.cache, models, e.request.b);
    StepReaches(source, project, s, ReadCache(i));
    StepReaches(source, project, u, Choose(i));
    SetTwice(s, i, Selecting(chosen, Some(s.cache)),
             Selecting(chosen + [Kept(source, project, models, e.request.b)], None));
    ReachesOn(source, project, s, u, Next(source, project, u, Choose(i)));
  }

  lemma SetTwice(s: Par, i: nat, first: Phase, second: Phase)
    requires i < |s.tasks|
    ensures InPhase(InPhase(s, i, first), i, second) == InPhase(s, i, second)
  {
  }

  lemma SetAsIs(s: Par, i: nat)
    requires i < |s.tasks|
    ensures InPhase(s, i, s.tasks[i].phase) == s
  {
  }

  /** All folders left are chosen from. */
  lemma {:induction false} ChoosingReaches(source: Source, project: Projection, s: Par, i: nat, chosen: seq<seq<Stamp>>)
    requires i < |s.tasks| && SkipsEmpty(s.tasks[i].e) && Agrees(source, s.cache)
    requires s.tasks[i].phase == Selecting(chosen, None) && chosen <= FilesOf(source, project, s.tasks[i].e)
    ensures Reaches(source, project, s, InPhase(s, i, Selecting(FilesOf(source, project, s.tasks[i].e), None)))
    decreases |s.tasks[i].e.folder| - |chosen|
  {
    var e := s.tasks[i].e;
    var all := FilesOf(source, project, e);
    if |chosen| == |e.folder| {
      assert chosen == all;
      SetAsIs(s, i);
      Here(source, project, s);
    } else {
      var more := chosen + [all[|chosen|]];
      assert more <= all;
      var v := InPhase(s, i, Selecting(more, None));
      ChooseNext(source, project, s, i, chosen);
      ChoosingReaches(source, project, v, i, more);
      SetTwice(s, i, Selecting(more, None), Selecting(all, None));
      ReachesOn(source, project, s, v, InPhase(s, i, Selecting(all, None)));
    }
  }

  /** An import that misses the record can get to where only its own row is missing. */
  lemma MissReaches(source: Source, project: Projection, s: Par, i: nat) returns (t: Par)
    requires i < |s.tasks| && s.tasks[i].phase.Waiting? && Records(s.tasks[i].e) && Agrees(source, s.cache)
    requires Misses(source, project, s.db.rows, s.tasks[i].e)
    ensures Reaches(source, project, s, t)
    ensures var files := FilesOf(source, project, s.tasks[i].e); Moved(s, t, i, Importing(files, |files|))
  {
    var e := s.tasks[i].e;
    var files := FilesOf(source, project, e);
    var u := InPhase(s, i, AfterLook(s.db.rows, e));
    StepReaches(source, project, s, Look(i));
    var begun := u;
    if e.request.Area? {
      ChoosingReaches(source, project, u, i, []);
      var v := InPhase(u, i, Selecting(files, None));
      ReachesOn(source, project, s, u, v);
      StepReaches(source, project, v, Decide(i));
      begun := Next(source, project, v, Decide(i));
      ReachesOn(source, project, s, v, begun);
    }
    assert Moved(s, begun, i, Importing(files, 0));
    t := CallsReach(source, project, begun, i);
    ReachesOn(source, project, s, begun, t);
  }

  lemma TwinStays(rows: seq<Row>, n: Row)
    ensures !OneRowEach(Record(Record(rows, n), n))
  {
    var once, twice := Record(rows, n), Record(Record(rows, n), n);
    assert once[|once| - 1] == n;
    var kept := WithoutOutdated(once, n);
    assert n in kept;
    var k :| 0 <= k < |kept| && kept[k] == n;
    assert SamePlace(twice[k], twice[|kept|]);
  }

  /** Twins that both miss can both get that far before either records. */
  lemma TwinsBothRecord(source: Source, project: Projection, s: Par, i: nat, j: nat) returns (events: seq<Event>)
    requires NothingCovered(source, project, s)
    requires i < j < |s.tasks| && Twins(source, project, s.tasks[i].e, s.tasks[j].e)
    ensures LeavesTwoRows(source, project, s, events)
  {
    var a, b := s.tasks[i].e, s.tasks[j].e;
    var n := OwnRow(source, project, a);
    var t := MissReaches(source, project, s, i);
    var u := MissReaches(source, project, t, j);
    ReachesOn(source, project, s, t, u);
    var v := Next(source, project, u, Finish(i));
    var w := Next(source, project, v, Finish(j));
    assert w.db.rows == Record(Record(s.db.rows, n), n);
    StepReaches(source, project, u, Finish(i));
    StepReaches(source, project, v, Finish(j));
    ReachesOn(source, project, s, u, v);
    ReachesOn(source, project, s, v, w);
    TwinStays(s.db.rows, n);
    events :| Exec(source, project, s, events) == Some(w);
  }

  /** Among any imports that the record does not skip yet, some schedule leaves two rows
      for one dataset, mode and box if and only if two of them are twins. */
  lemma TwoRowsExactlyForTwins(source: Source, project: Projection, s: Par)
    requires Honest(source, project) && NothingCovered(source, project, s)
    ensures (exists events :: LeavesTwoRows(source, project, s, events)) <==> HasTwins(source, project, s)
  {
    if HasTwins(source, project, s) {
      var i, j :| 0 <= i < j < |s.tasks| && Twins(source, project, s.tasks[i].e, s.tasks[j].e);
      var events := TwinsBothRecord(source, project, s, i, j);
    } else {
      forall events ensures !LeavesTwoRows(source, project, s, events) {
        NoTwinsOneRowEach(source, project, s, events);
      }
    }
  }

  /** So into an empty record: whatever is imported side by side. */
  lemma FirstImportsLeaveTwoRows(source: Source, project: Projection, s: Par)
    requires Honest(source, project) && Begins(source, s) && s.db.rows == []
    ensures (exists events :: LeavesTwoRows(source, project, s, events)) <==> HasTwins(source, project, s)
  {
    EmptyRecordCoversNothing(source, project, s);
    TwoRowsExactlyForTwins(source, project, s);
  }

  /** For one: two imports of the same, whatever it is, when nothing excludes them. */
  lemma TwoRowsWithoutTheLock(source: Source, project: Projection, e: Import) returns (s: Par, events: seq<Event>)
    requires Honest(source, project) && ValidFolder(e.folder) && Records(e)
    ensures s.tasks == [Task(e, Waiting), Task(e, Waiting)] && Begins(source, s) && s.db.rows == []
    ensures LeavesTwoRows(source, project, s, events) && !ExclusiveThroughout(source, project, s, events)
  {
    s := Par(Db([], {}), map[], [Task(e, Waiting), Task(e, Waiting)]);
    EmptyRecordCoversNothing(source, project, s);
    events := TwinsBothRecord(source, project, s, 0, 1);
    if ExclusiveThroughout(source, project, s, events) {
      OneRowUnderTheLock(source, project, s, events);
      assert false;
    }
  }
}
