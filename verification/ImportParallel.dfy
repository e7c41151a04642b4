/** Imports side by side: runs over disjoint regions import into one database at once,
    and each import is several steps. One event is one query, one write, or one
    citydb-tool call of one import; failures are events too. */
module ImportParallel {
  import opened Geometry
  import opened Wrappers
  import opened TextEncoders
  import opened ImportCache
  import opened ImportHistory
  import opened Batches

  /** Where an import stands. Selecting holds the files chosen so far and, while one
      folder is read, the cache rows it found; Importing counts the folders done. */
  datatype Phase =
    | Waiting
    | Selecting(chosen: seq<seq<Stamp>>, snapshot: Option<ExtentCache>)
    | Importing(files: seq<seq<Stamp>>, done: nat)
    | Ended(ok: bool)

  /** An import of ImportHistory; what fails is told by the events, not by its io. */
  datatype Task = Task(e: Import, phase: Phase)

  datatype Par = Par(db: Db, cache: ExtentCache, tasks: seq<Task>)

  datatype Event =
    | Look(i: nat)                          // the first look at the record
    | ReadCache(i: nat)                     // the cached extents of the next folder
    | SaveRows(i: nat, paths: set<string>)  // some of its fresh rows are written
    | Choose(i: nat)                        // its files that meet the box
    | Decide(i: nat)                        // the second look
    | Call(i: nat, run: ToolRun)            // one folder through citydb-tool
    | Finish(i: nat)                        // the record, or the end of a limited import
    | Fail(i: nat)                          // any error: the import ends

  // ---- Steps ----

  function FilterOf(e: Import): Filter
    requires !e.request.BadBox?
  {
    if e.request.Whole? then Everything else Box(e.request.b, e.request.mode)
  }

  function DeclaredBy(source: Source, snapshot: ExtentCache, f: Stamp): Declared {
    if f.path in snapshot && snapshot[f.path].size == f.size && snapshot[f.path].mtime == f.mtime
    then snapshot[f.path].declared
    else source(f).declared
  }

  function KeptBy(source: Source, project: Projection, snapshot: ExtentCache, files: seq<Stamp>, b: Bbox): seq<Stamp> {
    if files == [] then []
    else (if Keeps(project, DeclaredBy(source, snapshot, files[0]), b) then [files[0]] else [])
         + KeptBy(source, project, snapshot, files[1..], b)
  }

  /** The rows of some paths, as read from their files. */
  function RowsRead(source: Source, files: seq<Stamp>, paths: set<string>): ExtentCache {
    if files == [] then map[]
    else
      var rest := RowsRead(source, files[1..], paths);
      if files[0].path in paths then rest[files[0].path := Current(source, files[0])] else rest
  }

  predicate Enabled(s: Par, ev: Event) {
    && ev.i < |s.tasks|
    && var t := s.tasks[ev.i];
       match ev
       case Look(_) => t.phase.Waiting?
       case ReadCache(_) => t.phase.Selecting? && t.phase.snapshot.None? && |t.phase.chosen| < |t.e.folder|
       case SaveRows(_, _) => t.phase.Selecting? && t.phase.snapshot.Some? && |t.phase.chosen| < |t.e.folder|
       case Choose(_) =>
         t.phase.Selecting? && t.phase.snapshot.Some? && |t.phase.chosen| < |t.e.folder| && t.e.request.Area?
       case Decide(_) =>
         t.phase.Selecting? && t.phase.snapshot.None? && |t.phase.chosen| == |t.e.folder| && t.e.request.Area?
       case Call(_, run) =>
         && t.phase.Importing? && t.phase.done < |t.phase.files| && !t.e.request.BadBox?
         && (run.Capped? ==> t.e.limited)
       case Finish(_) => t.phase.Importing? && t.phase.done == |t.phase.files| && !t.e.request.BadBox?
       case Fail(_) => !t.phase.Ended?
  }

  function InPhase(s: Par, i: nat, phase: Phase): Par
    requires i < |s.tasks|
  {
    s.(tasks := s.tasks[i := s.tasks[i].(phase := phase)])
  }

  /** The first look: limited imports do not look, and a whole folder is not selected from. */
  function AfterLook(rows: seq<Row>, e: Import): Phase {
    if e.request.BadBox? then Ended(false)
    else if e.limited then Importing(AllModels(e.folder), 0)
    else
      var fingerprint := FingerprintText(Concat(AllFiles(e.folder)));
      if e.request.Whole? then
        if Covered(rows, e.dataset, fingerprint, WHOLE_FOLDER, Intersects) then Ended(true)
        else Importing(AllModels(e.folder), 0)
      else if Covered(rows, e.dataset, fingerprint, e.request.b, e.request.mode) then Ended(true)
      else Selecting([], None)
  }

  function AfterDecide(rows: seq<Row>, e: Import, chosen: seq<seq<Stamp>>): Phase
    requires e.request.Area?
  {
    if Covered(rows, e.dataset, FingerprintText(Concat(chosen)), e.request.b, e.request.mode) then Ended(true)
    else Importing(chosen, 0)
  }

  /** An empty selection of a folder: no call is made. */
  predicate Skips(t: Task) {
    t.phase.Importing? && t.phase.done < |t.phase.files| && SkipsEmpty(t.e) && t.phase.files[t.phase.done] == []
  }

  /** What a call adds to the imported set. */
  function AddedBy(source: Source, t: Task, run: ToolRun): set<string>
    requires t.phase.Importing? && t.phase.done < |t.phase.files| && !t.e.request.BadBox?
  {
    if Skips(t) then {}
    else
      var targets := Targets(source, t.phase.files[t.phase.done], FilterOf(t.e));
      match run
      case Completed => targets
      case Capped(part) => targets * part
      case Crashed(part) => targets * part
  }

  function AfterCall(source: Source, s: Par, i: nat, run: ToolRun): Par
    requires Enabled(s, Call(i, run))
  {
    var t := s.tasks[i];
    InPhase(s.(db := s.db.(imported := s.db.imported + AddedBy(source, t, run))), i,
            if run.Crashed? && !Skips(t) then Ended(false) else Importing(t.phase.files, t.phase.done + 1))
  }

  function Next(source: Source, project: Projection, s: Par, ev: Event): Par
    requires Enabled(s, ev)
  {
    var t := s.tasks[ev.i];
    match ev
    case Look(i) => InPhase(s, i, AfterLook(s.db.rows, t.e))
    case ReadCache(i) => InPhase(s, i, Selecting(t.phase.chosen, Some(s.cache)))
    case SaveRows(i, paths) => s.(cache := s.cache + RowsRead(source, t.e.folder[|t.phase.chosen|].models, paths))
    case Choose(i) =>
      var kept := KeptBy(source, project, t.phase.snapshot.value, t.e.folder[|t.phase.chosen|].models, t.e.request.b);
      InPhase(s, i, Selecting(t.phase.chosen + [kept], None))
    case Decide(i) => InPhase(s, i, AfterDecide(s.db.rows, t.e, t.phase.chosen))
    case Call(i, run) => AfterCall(source, s, i, run)
    case Finish(i) =>
      InPhase(if t.e.limited then s else s.(db := s.db.(rows := Record(s.db.rows, RowOf(t.e, t.phase.files)))),
              i, Ended(true))
    case Fail(i) => InPhase(s, i, Ended(false))
  }

  function Exec(source: Source, project: Projection, s: Par, events: seq<Event>): Option<Par>
    decreases |events|
  {
    if events == [] then Some(s)
    else if Enabled(s, events[0]) then Exec(source, project, Next(source, project, s, events[0]), events[1..])
    else None
  }

  // ---- What every step keeps ----

  lemma StepKeepsImports(source: Source, project: Projection, s: Par, ev: Event)
    requires Enabled(s, ev)
    ensures var t := Next(source, project, s, ev);
            |t.tasks| == |s.tasks| && forall k :: 0 <= k < |s.tasks| ==> t.tasks[k].e == s.tasks[k].e
  {
  }

  /** A task's own knowledge, which other tasks cannot take away: imports only grow. */
  ghost predicate Fits(source: Source, project: Projection, imported: set<string>, t: Task) {
    && ValidFolder(t.e.folder)
    && match t.phase
       case Waiting => true
       case Selecting(chosen, snapshot) =>
         && SkipsEmpty(t.e) && |chosen| <= |t.e.folder|
         && (forall j :: 0 <= j < |chosen| ==> chosen[j] == Kept(source, project, t.e.folder[j].models, t.e.request.b))
         && (snapshot.Some? ==> Agrees(source, snapshot.value))
       case Importing(files, done) =>
         && !t.e.request.BadBox? && files == FilesOf(source, project, t.e) && done <= |files|
         && (!t.e.limited ==> Targets(source, Concat(files[..done]), FilterOf(t.e)) <= imported)
       case Ended(ok) => ok && !t.e.limited ==> Naive(source, t.e) <= imported
  }

  /** Everything imported was there before or belongs to some task. */
  ghost predicate NothingElse(source: Source, before: set<string>, s: Par) {
    forall id :: id in s.db.imported ==>
      id in before || exists i :: 0 <= i < |s.tasks| && id in Naive(source, s.tasks[i].e)
  }

  ghost predicate Inv(source: Source, project: Projection, before: set<string>, s: Par) {
    && Agrees(source, s.cache) && RowsTrue(source, s.db)
    && (forall i :: 0 <= i < |s.tasks| ==> Fits(source, project, s.db.imported, s.tasks[i]))
    && before <= s.db.imported && NothingElse(source, before, s)
  }

  lemma {:induction false} ReadRowsAreCurrent(source: Source, files: seq<Stamp>, paths: set<string>)
    ensures Agrees(source, RowsRead(source, files, paths))
  {
    if files != [] {
      ReadRowsAreCurrent(source, files[1..], paths);
      var f := files[0];
      assert f == Stamp(f.path, f.size, f.mtime);
    }
  }

  lemma MoreRowsAgree(source: Source, cache: ExtentCache, rows: ExtentCache)
    requires Agrees(source, cache) && Agrees(source, rows)
    ensures Agrees(source, cache + rows)
  {
  }

  /** A snapshot that agrees gives the same choice as reading every file, however many
      writes came after it. */
  lemma {:induction false} SnapshotChoosesTheSame(source: Source, project: Projection, snapshot: ExtentCache,
                                                  files: seq<Stamp>, b: Bbox)
    requires Agrees(source, snapshot)
    ensures KeptBy(source, project, snapshot, files, b) == Kept(source, project, files, b)
  {
    if files != [] {
      SnapshotChoosesTheSame(source, project, snapshot, files[1..], b);
      var f := files[0];
      assert f == Stamp(f.path, f.size, f.mtime);
      assert DeclaredBy(source, snapshot, f) == source(f).declared;
    }
  }

  /** A folder's files give no more than the whole import, and all of them give it all. */
  lemma FilesGiveTheNaiveImport(source: Source, project: Projection, e: Import)
    requires Honest(source, project) && !e.request.BadBox?
    ensures Targets(source, Concat(FilesOf(source, project, e)), FilterOf(e)) == Naive(source, e)
  {
    if SkipsEmpty(e) {
      FileSelectionIsComplete(source, project, e.folder, e.request.b, e.request.mode);
    }
  }

  lemma {:induction false} TargetsOfOne(source: Source, files: seq<seq<Stamp>>, k: nat, filter: Filter)
    requires k < |files|
    ensures Targets(source, files[k], filter) <= Targets(source, Concat(files), filter)
  {
    forall s | s in files[k] ensures s in Concat(files) {
      ConcatMembers(files, s);
    }
  }

  lemma TargetsOneMore(source: Source, files: seq<seq<Stamp>>, k: nat, filter: Filter)
    requires k < |files|
    ensures Targets(source, Concat(files[..k + 1]), filter)
            == Targets(source, Concat(files[..k]), filter) + Targets(source, files[k], filter)
  {
    ConcatOneMore(files[..k], files[k]);
    assert files[..k] + [files[k]] == files[..k + 1];
    TargetsSplit(source, Concat(files[..k]), files[k], filter);
  }

  /** Skipped at the first look: there was nothing left to import. */
  lemma FirstHit(source: Source, project: Projection, db: Db, e: Import)
    requires Honest(source, project) && RowsTrue(source, db) && ValidFolder(e.folder)
    requires AfterLook(db.rows, e) == Ended(true)
    ensures Naive(source, e) <= db.imported
  {
    var all := Concat(AllFiles(e.folder));
    FolderFilesAreNulFree(e.folder);
    if e.request.Whole? {
      WholeFolderIsEverything(source, project, e.folder);
      HitMeansImported(source, project, db, e.dataset, all, WHOLE_FOLDER, Intersects);
    } else {
      FolderHoldsTheModels(source, project, e.folder, FilterOf(e));
      HitMeansImported(source, project, db, e.dataset, all, e.request.b, e.request.mode);
    }
  }

  lemma SecondHit(source: Source, project: Projection, db: Db, e: Import)
    requires Honest(source, project) && RowsTrue(source, db) && ValidFolder(e.folder) && SkipsEmpty(e)
    requires AfterDecide(db.rows, e, Selection(source, project, e.folder, e.request.b)) == Ended(true)
    ensures Naive(source, e) <= db.imported
  {
    var b := e.request.b;
    SelectionIsNulFree(source, project, e.folder, b);
    FilesGiveTheNaiveImport(source, project, e);
    HitMeansImported(source, project, db, e.dataset, Concat(Selection(source, project, e.folder, b)), b, e.request.mode);
  }

  /** Recording after all calls: the row is true, whatever others did in between. */
  lemma RecordedRowIsTrue(source: Source, project: Projection, db: Db, e: Import)
    requires Honest(source, project) && RowsTrue(source, db) && ValidFolder(e.folder)
    requires !e.request.BadBox? && !e.limited && Naive(source, e) <= db.imported
    ensures RowsTrue(source, db.(rows := Record(db.rows, RowOf(e, FilesOf(source, project, e)))))
  {
    var files := FilesOf(source, project, e);
    if e.request.Whole? {
      FolderFilesAreNulFree(e.folder);
      WholeFolderIsEverything(source, project, e.folder);
      RecordingKeepsRowsTrue(source, db, RowOf(e, files), Concat(AllFiles(e.folder)));
    } else {
      SelectionIsNulFree(source, project, e.folder, e.request.b);
      FilesGiveTheNaiveImport(source, project, e);
      RecordingKeepsRowsTrue(source, db, RowOf(e, files), Concat(files));
    }
  }

  lemma LookKeepsInv(source: Source, project: Projection, before: set<string>, s: Par, i: nat)
    requires Honest(source, project) && Inv(source, project, before, s) && Enabled(s, Look(i))
    ensures Inv(source, project, before, Next(source, project, s, Look(i)))
  {
    var e := s.tasks[i].e;
    if AfterLook(s.db.rows, e) == Ended(true) {
      FirstHit(source, project, s.db, e);
    }
    if !e.request.BadBox? {
      NothingDoneYet(source, project, s.db.imported, e);
    }
    SameImported(source, project, before, s, i, AfterLook(s.db.rows, e));
  }

  lemma NothingDoneYet(source: Source, project: Projection, imported: set<string>, e: Import)
    requires !e.request.BadBox?
    ensures var files := FilesOf(source, project, e); Targets(source, Concat(files[..0]), FilterOf(e)) <= imported
  {
  }

  /** A step of one task that changes only its own phase. */
  lemma SameImported(source: Source, project: Projection, before: set<string>, s: Par, i: nat, phase: Phase)
    requires Inv(source, project, before, s) && i < |s.tasks|
    requires Fits(source, project, s.db.imported, s.tasks[i].(phase := phase))
    ensures Inv(source, project, before, InPhase(s, i, phase))
  {
    var t := InPhase(s, i, phase);
    assert forall j :: 0 <= j < |s.tasks| ==> t.tasks[j].e == s.tasks[j].e;
    forall id | id in t.db.imported && id !in before
      ensures exists j :: 0 <= j < |t.tasks| && id in Naive(source, t.tasks[j].e)
    {
      var j :| 0 <= j < |s.tasks| && id in Naive(source, s.tasks[j].e);
      assert id in Naive(source, t.tasks[j].e);
    }
  }

  lemma SelectingKeepsInv(source: Source, project: Projection, before: set<string>, s: Par, ev: Event)
    requires Honest(source, project) && Inv(source, project, before, s) && Enabled(s, ev)
    requires ev.ReadCache? || ev.Choose? || ev.Decide?
    ensures Inv(source, project, before, Next(source, project, s, ev))
  {
    var t := s.tasks[ev.i];
    var e, chosen := t.e, t.phase.chosen;
    assert Fits(source, project, s.db.imported, t);
    match ev
    case ReadCache(i) => SameImported(source, project, before, s, i, Selecting(chosen, Some(s.cache)));
    case Choose(i) =>
      var models := e.folder[|chosen|].models;
      SnapshotChoosesTheSame(source, project, t.phase.snapshot.value, models, e.request.b);
      var kept := KeptBy(source, project, t.phase.snapshot.value, models, e.request.b);
      SameImported(source, project, before, s, i, Selecting(chosen + [kept], None));
    case Decide(i) =>
      assert chosen == Selection(source, project, e.folder, e.request.b);
      if AfterDecide(s.db.rows, e, chosen) == Ended(true) {
        SecondHit(source, project, s.db, e);
      }
      NothingDoneYet(source, project, s.db.imported, e);
      SameImported(source, project, before, s, i, AfterDecide(s.db.rows, e, chosen));
  }

  lemma SavingKeepsInv(source: Source, project: Projection, before: set<string>, s: Par, i: nat, paths: set<string>)
    requires Inv(source, project, before, s) && Enabled(s, SaveRows(i, paths))
    ensures Inv(source, project, before, Next(source, project, s, SaveRows(i, paths)))
  {
    var models := s.tasks[i].e.folder[|s.tasks[i].phase.chosen|].models;
    ReadRowsAreCurrent(source, models, paths);
    MoreRowsAgree(source, s.cache, RowsRead(source, models, paths));
  }

  lemma FitsWithMore(source: Source, project: Projection, some: set<string>, more: set<string>, t: Task)
    requires Fits(source, project, some, t) && some <= more
    ensures Fits(source, project, more, t)
  {
  }

  /** A step of one task that imports something of its own. */
  lemma OwnImported(source: Source, project: Projection, before: set<string>, s: Par, i: nat, added: set<string>, phase: Phase)
    requires Inv(source, project, before, s) && i < |s.tasks| && added <= Naive(source, s.tasks[i].e)
    requires Fits(source, project, s.db.imported + added, s.tasks[i].(phase := phase))
    ensures Inv(source, project, before, InPhase(s.(db := s.db.(imported := s.db.imported + added)), i, phase))
  {
    var more := s.(db := s.db.(imported := s.db.imported + added));
    MoreImported(source, s.db, added);
    forall j | 0 <= j < |s.tasks| ensures Fits(source, project, more.db.imported, more.tasks[j]) {
      FitsWithMore(source, project, s.db.imported, more.db.imported, s.tasks[j]);
    }
    forall id | id in more.db.imported && id !in before
      ensures exists j :: 0 <= j < |more.tasks| && id in Naive(source, more.tasks[j].e)
    {
      if id in added {
        assert id in Naive(source, more.tasks[i].e);
      }
    }
    SameImported(source, project, before, more, i, phase);
  }

  /** What a task knows after one more folder. */
  lemma OneFolderMore(source: Source, project: Projection, imported: set<string>, t: Task, added: set<string>)
    requires Fits(source, project, imported, t) && t.phase.Importing? && t.phase.done < |t.phase.files|
    requires !t.e.limited ==> Targets(source, t.phase.files[t.phase.done], FilterOf(t.e)) <= added
    ensures Fits(source, project, imported + added, t.(phase := Importing(t.phase.files, t.phase.done + 1)))
  {
    TargetsOneMore(source, t.phase.files, t.phase.done, FilterOf(t.e));
  }

  /** A folder gives no more than the whole import. */
  lemma FolderIsOwn(source: Source, project: Projection, t: Task, imported: set<string>)
    requires Honest(source, project) && Fits(source, project, imported, t)
    requires t.phase.Importing? && t.phase.done < |t.phase.files|
    ensures Targets(source, t.phase.files[t.phase.done], FilterOf(t.e)) <= Naive(source, t.e)
  {
    TargetsOfOne(source, t.phase.files, t.phase.done, FilterOf(t.e));
    FilesGiveTheNaiveImport(source, project, t.e);
  }

  /** A folder that a limit may cut short, or that has nothing to import. */
  lemma FolderKeepsInv(source: Source, project: Projection, before: set<string>, s: Par, i: nat, added: set<string>)
    requires Honest(source, project) && Inv(source, project, before, s)
    requires i < |s.tasks| && s.tasks[i].phase.Importing? && s.tasks[i].phase.done < |s.tasks[i].phase.files|
    requires !s.tasks[i].e.request.BadBox?
    requires var t := s.tasks[i];
             var targets := Targets(source, t.phase.files[t.phase.done], FilterOf(t.e));
             added <= targets && (!t.e.limited ==> targets <= added)
    ensures var phase := s.tasks[i].phase;
            Inv(source, project, before, InPhase(s.(db := s.db.(imported := s.db.imported + added)), i,
                                                 Importing(phase.files, phase.done + 1)))
  {
    var t := s.tasks[i];
    assert Fits(source, project, s.db.imported, t);
    FolderIsOwn(source, project, t, s.db.imported);
    OneFolderMore(source, project, s.db.imported, t, added);
    OwnImported(source, project, before, s, i, added, Importing(t.phase.files, t.phase.done + 1));
  }

  lemma CrashKeepsInv(source: Source, project: Projection, before: set<string>, s: Par, i: nat, added: set<string>)
    requires Honest(source, project) && Inv(source, project, before, s)
    requires i < |s.tasks| && s.tasks[i].phase.Importing? && s.tasks[i].phase.done < |s.tasks[i].phase.files|
    requires !s.tasks[i].e.request.BadBox?
    requires var t := s.tasks[i]; added <= Targets(source, t.phase.files[t.phase.done], FilterOf(t.e))
    ensures Inv(source, project, before, InPhase(s.(db := s.db.(imported := s.db.imported + added)), i, Ended(false)))
  {
    var t := s.tasks[i];
    assert Fits(source, project, s.db.imported, t);
    FolderIsOwn(source, project, t, s.db.imported);
    OwnImported(source, project, before, s, i, added, Ended(false));
  }

  lemma AddedAreTargets(source: Source, t: Task, run: ToolRun)
    requires t.phase.Importing? && t.phase.done < |t.phase.files| && !t.e.request.BadBox?
    ensures var targets := Targets(source, t.phase.files[t.phase.done], FilterOf(t.e));
            && AddedBy(source, t, run) <= targets
            && (run.Completed? || Skips(t) ==> targets <= AddedBy(source, t, run))
  {
  }

  lemma CallIs(source: Source, project: Projection, s: Par, i: nat, run: ToolRun)
    requires Enabled(s, Call(i, run))
    ensures var t := s.tasks[i];
            Next(source, project, s, Call(i, run))
            == InPhase(s.(db := s.db.(imported := s.db.imported + AddedBy(source, t, run))), i,
                       if run.Crashed? && !Skips(t) then Ended(false) else Importing(t.phase.files, t.phase.done + 1))
  {
  }

  lemma CallKeepsInv(source: Source, project: Projection, before: set<string>, s: Par, i: nat, run: ToolRun)
    requires Honest(source, project) && Inv(source, project, before, s) && Enabled(s, Call(i, run))
    ensures Inv(source, project, before, Next(source, project, s, Call(i, run)))
  {
    var t := s.tasks[i];
    CallIs(source, project, s, i, run);
    AddedAreTargets(source, t, run);
    if run.Crashed? && !Skips(t) {
      CrashKeepsInv(source, project, before, s, i, AddedBy(source, t, run));
    } else {
      FolderKeepsInv(source, project, before, s, i, AddedBy(source, t, run));
    }
  }

  lemma FinishKeepsInv(source: Source, project: Projection, before: set<string>, s: Par, i: nat)
    requires Honest(source, project) && Inv(source, project, before, s) && Enabled(s, Finish(i))
    ensures Inv(source, project, before, Next(source, project, s, Finish(i)))
  {
    var t := s.tasks[i];
    var files := t.phase.files;
    assert Fits(source, project, s.db.imported, t);
    assert files[..|files|] == files;
    FilesGiveTheNaiveImport(source, project, t.e);
    if t.e.limited {
      SameImported(source, project, before, s, i, Ended(true));
    } else {
      RecordedRowIsTrue(source, project, s.db, t.e);
      var recorded := s.(db := s.db.(rows := Record(s.db.rows, RowOf(t.e, files))));
      assert Inv(source, project, before, recorded);
      SameImported(source, project, before, recorded, i, Ended(true));
    }
  }

  lemma StepKeepsInv(source: Source, project: Projection, before: set<string>, s: Par, ev: Event)
    requires Honest(source, project) && Inv(source, project, before, s) && Enabled(s, ev)
    ensures Inv(source, project, before, Next(source, project, s, ev))
  {
    match ev
    case Look(i) => LookKeepsInv(source, project, before, s, i);
    case SaveRows(i, paths) => SavingKeepsInv(source, project, before, s, i, paths);
    case Call(i, run) => CallKeepsInv(source, project, before, s, i, run);
    case Finish(i) => FinishKeepsInv(source, project, before, s, i);
    case Fail(i) =>
      assert Fits(source, project, s.db.imported, s.tasks[i]);
      SameImported(source, project, before, s, i, Ended(false));
    case _ => SelectingKeepsInv(source, project, before, s, ev);
  }

  lemma {:induction false} ScheduleKeepsInv(source: Source, project: Projection, before: set<string>, s: Par,
                                            events: seq<Event>)
    requires Honest(source, project) && Inv(source, project, before, s) && Exec(source, project, s, events).Some?
    ensures Inv(source, project, before, Exec(source, project, s, events).value)
    decreases |events|
  {
    if events != [] {
      StepKeepsInv(source, project, before, s, events[0]);
      ScheduleKeepsInv(source, project, before, Next(source, project, s, events[0]), events[1..]);
    }
  }

  // ---- Every schedule of any number of imports ----

  ghost predicate Begins(source: Source, s: Par) {
    && Agrees(source, s.cache) && RowsTrue(source, s.db)
    && forall i :: 0 <= i < |s.tasks| ==> s.tasks[i].phase.Waiting? && ValidFolder(s.tasks[i].e.folder)
  }

  /** At every moment of every schedule: the cache agrees with the files, each row of the
      record is true, nothing foreign is imported, and every unlimited import that ended
      well has all its features imported, skipped or not. */
  lemma ParallelImportsAreSound(source: Source, project: Projection, s: Par, events: seq<Event>)
    requires Honest(source, project) && Begins(source, s) && Exec(source, project, s, events).Some?
    ensures var t := Exec(source, project, s, events).value;
            && Agrees(source, t.cache) && RowsTrue(source, t.db)
            && s.db.imported <= t.db.imported && NothingElse(source, s.db.imported, t)
            && forall i :: 0 <= i < |t.tasks| && t.tasks[i].phase == Ended(true) && !t.tasks[i].e.limited
                 ==> Naive(source, t.tasks[i].e) <= t.db.imported
  {
    ScheduleKeepsInv(source, project, s.db.imported, s, events);
    var t := Exec(source, project, s, events).value;
    forall i | 0 <= i < |t.tasks| && t.tasks[i].phase == Ended(true) && !t.tasks[i].e.limited
      ensures Naive(source, t.tasks[i].e) <= t.db.imported
    {
      assert Fits(source, project, t.db.imported, t.tasks[i]);
    }
  }

  /** When all have ended well without a limit, the imported set is what importing
      everything one after another, with no record and no selection, gives. */
  lemma ParallelEqualsNaive(source: Source, project: Projection, s: Par, events: seq<Event>)
    requires Honest(source, project) && Begins(source, s) && Exec(source, project, s, events).Some?
    requires var t := Exec(source, project, s, events).value;
             forall i :: 0 <= i < |t.tasks| ==> t.tasks[i].phase == Ended(true) && !t.tasks[i].e.limited
    ensures var t := Exec(source, project, s, events).value;
            forall id :: id in t.db.imported
                         <==> id in s.db.imported || exists i :: 0 <= i < |t.tasks| && id in Naive(source, t.tasks[i].e)
  {
    ParallelImportsAreSound(source, project, s, events);
  }

  // ---- One row per place ----

  /** The place of the row an import may leave. */
  ghost predicate SamePlaceOf(a: Import, b: Import) {
    && !a.request.BadBox? && !b.request.BadBox? && !a.limited && !b.limited
    && SamePlace(RowOf(a, []), RowOf(b, []))
  }

  predicate Active(t: Task) {
    t.phase.Selecting? || t.phase.Importing?
  }

  /** No two imports of one place are under way at once. The region lock sees to it:
      two runs with one box on one database exclude each other, and one run imports its
      datasets one after another. */
  ghost predicate PlacesExclusive(s: Par) {
    forall i, j :: 0 <= i < j < |s.tasks| && Active(s.tasks[i]) && Active(s.tasks[j]) ==>
      !SamePlaceOf(s.tasks[i].e, s.tasks[j].e)
  }

  ghost predicate ExclusiveThroughout(source: Source, project: Projection, s: Par, events: seq<Event>)
    decreases |events|
  {
    && PlacesExclusive(s)
    && (events != [] && Enabled(s, events[0])
        ==> ExclusiveThroughout(source, project, Next(source, project, s, events[0]), events[1..]))
  }

  /** No row of this place stands for these files. */
  ghost predicate NoTwin(rows: seq<Row>, n: Row) {
    forall k :: 0 <= k < |rows| && SamePlace(rows[k], n) ==> rows[k].fingerprint != n.fingerprint
  }

  /** What an import under way has found missing is still missing. */
  ghost predicate StillMissing(s: Par) {
    forall i :: 0 <= i < |s.tasks| && s.tasks[i].phase.Importing? && !s.tasks[i].e.limited
                && !s.tasks[i].e.request.BadBox?
      ==> NoTwin(s.db.rows, RowOf(s.tasks[i].e, s.tasks[i].phase.files))
  }

  ghost predicate RowsApart(s: Par) {
    OneRowEach(s.db.rows) && StillMissing(s)
  }

  lemma MissMeansNoTwin(rows: seq<Row>, n: Row)
    requires !Covered(rows, n.dataset, n.fingerprint, n.geom, n.mode)
    ensures NoTwin(rows, n)
  {
    forall k | 0 <= k < |rows| && SamePlace(rows[k], n) ensures rows[k].fingerprint != n.fingerprint {
      assert !CoveredBy(rows[k], n.dataset, n.fingerprint, n.geom, n.mode);
    }
  }

  lemma RecordedApart(rows: seq<Row>, n: Row)
    requires OneRowEach(rows) && NoTwin(rows, n)
    ensures OneRowEach(Record(rows, n))
  {
    FilteredRowsApart(rows, n);
    forall x | x in WithoutOutdated(rows, n) ensures !SamePlace(x, n) {
      var k :| 0 <= k < |rows| && rows[k] == x;
    }
  }

  lemma OtherPlaceStaysMissing(rows: seq<Row>, n: Row, other: Row)
    requires NoTwin(rows, other) && !SamePlace(n, other)
    ensures NoTwin(Record(rows, n), other)
  {
    var after := Record(rows, n);
    forall k | 0 <= k < |after| && SamePlace(after[k], other) ensures after[k].fingerprint != other.fingerprint {
      var filtered := WithoutOutdated(rows, n);
      assert k < |filtered| && filtered[k] in filtered;
      assert after[k] in rows;
    }
  }

  lemma FinishKeepsRowsApart(source: Source, project: Projection, s: Par, i: nat)
    requires RowsApart(s) && PlacesExclusive(s) && Enabled(s, Finish(i)) && !s.tasks[i].e.limited
    ensures RowsApart(Next(source, project, s, Finish(i)))
  {
    var t := s.tasks[i];
    var n, after := RowOf(t.e, t.phase.files), Next(source, project, s, Finish(i));
    RecordedApart(s.db.rows, n);
    forall j | 0 <= j < |after.tasks| && after.tasks[j].phase.Importing? && !after.tasks[j].e.limited
               && !after.tasks[j].e.request.BadBox?
      ensures NoTwin(after.db.rows, RowOf(after.tasks[j].e, after.tasks[j].phase.files))
    {
      assert j != i && after.tasks[j] == s.tasks[j];
      assert !SamePlaceOf(s.tasks[if i < j then i else j].e, s.tasks[if i < j then j else i].e);
      OtherPlaceStaysMissing(s.db.rows, n, RowOf(s.tasks[j].e, s.tasks[j].phase.files));
    }
  }

  /** A step that records nothing: what it finds missing is missing. */
  lemma QuietStepKeepsRowsApart(source: Source, project: Projection, s: Par, ev: Event)
    requires RowsApart(s) && Enabled(s, ev) && !(ev.Finish? && !s.tasks[ev.i].e.limited)
    ensures RowsApart(Next(source, project, s, ev))
  {
    var t, after := s.tasks[ev.i], Next(source, project, s, ev);
    forall j | 0 <= j < |after.tasks| && after.tasks[j].phase.Importing? && !after.tasks[j].e.limited
               && !after.tasks[j].e.request.BadBox?
      ensures NoTwin(after.db.rows, RowOf(after.tasks[j].e, after.tasks[j].phase.files))
    {
      if j == ev.i && (ev.Look? || ev.Decide?) {
        MissMeansNoTwin(s.db.rows, RowOf(t.e, after.tasks[j].phase.files));
      }
    }
  }

  lemma StepKeepsRowsApart(source: Source, project: Projection, s: Par, ev: Event)
    requires RowsApart(s) && PlacesExclusive(s) && Enabled(s, ev)
    ensures RowsApart(Next(source, project, s, ev))
  {
    if ev.Finish? && !s.tasks[ev.i].e.limited {
      FinishKeepsRowsApart(source, project, s, ev.i);
    } else {
      QuietStepKeepsRowsApart(source, project, s, ev);
    }
  }

  /** While imports of one place exclude each other, the record holds at most one row per
      dataset, mode and box at every moment of every schedule. */
  lemma {:induction false} OneRowUnderTheLock(source: Source, project: Projection, s: Par, events: seq<Event>)
    requires RowsApart(s) && ExclusiveThroughout(source, project, s, events)
    requires Exec(source, project, s, events).Some?
    ensures RowsApart(Exec(source, project, s, events).value)
    decreases |events|
  {
    if events != [] {
      StepKeepsRowsApart(source, project, s, events[0]);
      OneRowUnderTheLock(source, project, Next(source, project, s, events[0]), events[1..]);
    }
  }
}
