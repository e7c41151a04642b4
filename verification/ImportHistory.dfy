/** Skipping imports is invisible: over every history of file edits, failures and
    imports, the cached importer stores what importing everything anew would. */
module ImportHistory {
  import opened FileNames
  import opened Geometry
  import opened TextEncoders
  import opened ImportCache
  import opened Batches

  /** One import of a history. folder is the disk as it is then, so any edit may
      have happened since the import before; io is what fails this time. */
  datatype Import = Import(
    dataset: string, folder: seq<InputFolder>, request: Request, limited: bool, selected: bool, io: Faults)

  /** Only an import with a limit is ever capped. */
  ghost predicate Possible(e: Import) {
    ValidFolder(e.folder)
    && (!e.limited ==> forall k :: 0 <= k < |e.io.tool| ==> !e.io.tool[k].Capped?)
  }

  function Step(source: Source, project: Projection, db: Db, e: Import): (Db, bool) {
    ImportDataset(source, project, db, e.dataset, e.folder, e.request, e.limited, e.selected, e.io)
  }

  function After(source: Source, project: Projection, db: Db, es: seq<Import>): Db
    decreases |es|
  {
    if es == [] then db else After(source, project, Step(source, project, db, es[0]).0, es[1..])
  }

  /** What the same import stores when nothing is ever skipped and every file of
      the folder is read. */
  function Naive(source: Source, e: Import): set<string> {
    match e.request
    case Whole => Targets(source, Concat(AllModels(e.folder)), Everything)
    case Area(b, mode) => Targets(source, Concat(AllModels(e.folder)), Box(b, mode))
    case BadBox => {}
  }

  /** Only the selection of a box may leave a folder without files. */
  predicate SkipsEmpty(e: Import) {
    e.request.Area? && !e.limited
  }

  /** The files an import is to import. */
  function FilesOf(source: Source, project: Projection, e: Import): seq<seq<Stamp>> {
    if SkipsEmpty(e) then Selection(source, project, e.folder, e.request.b) else AllModels(e.folder)
  }

  /** The row an import leaves for the files it imported. */
  function RowOf(e: Import, files: seq<seq<Stamp>>): Row
    requires !e.request.BadBox?
  {
    if e.request.Whole? then Row(e.dataset, FingerprintText(Concat(AllFiles(e.folder))), Intersects, WHOLE_FOLDER)
    else Row(e.dataset, FingerprintText(Concat(files)), e.request.mode, e.request.b)
  }

  predicate Proper(s: Stamp, f: Feature) {
    && IsModelFile(s.path)
    && f.envelope.Ordered() && f.envelope.Covers(f.x, f.y) && f.envelope.Overlaps(WHOLE_FOLDER)
  }

  /** The file declares an extent in a CRS that resolves to a code. */
  predicate Resolves(d: Declared) {
    d.Extent? && d.epsg.Some?
  }

  /** What the files are taken to be: features have an ordered envelope around their
      anchor, somewhere on the map, only model files hold any, and an extent that a file
      declares in a CRS that resolves meets every box that one of its features meets. */
  ghost predicate Honest(source: Source, project: Projection) {
    && (forall s: Stamp, f: Feature :: f in source(s).features ==> Proper(s, f))
    && (forall s: Stamp, f: Feature, b: Bbox ::
          f in source(s).features && f.envelope.Overlaps(b) && Resolves(source(s).declared) ==>
            source(s).declared.box.Overlaps(project(source(s).declared.epsg.value, b)))
  }

  /** Each row tells the truth: whatever its mode and box select from the files its
      fingerprint stands for is imported. */
  ghost predicate RowsTrue(source: Source, db: Db) {
    forall i, files :: 0 <= i < |db.rows| && NulFree(files) && FingerprintText(files) == db.rows[i].fingerprint ==>
      Targets(source, files, Box(db.rows[i].geom, db.rows[i].mode)) <= db.imported
  }

  // ---- Selection ----

  lemma SelectedMeetsBox(mode: Mode, b: Bbox, f: Feature)
    requires f.envelope.Ordered() && f.envelope.Covers(f.x, f.y) && Selects(mode, b, f)
    ensures f.envelope.Overlaps(b)
  {
  }

  /** A wider box in the same mode, or in intersects mode, selects no less. */
  lemma SelectionGrows(mode: Mode, b: Bbox, wide: Mode, c: Bbox, f: Feature)
    requires f.envelope.Ordered() && f.envelope.Covers(f.x, f.y)
    requires Selects(mode, b, f) && b.Within(c) && (wide == mode || wide == Intersects)
    ensures Selects(wide, c, f)
  {
  }

  /** Which files of a folder are selected: all whose extent or CRS cannot be read, and
      of the others, for boxes with ordered corners, exactly those whose extent shares
      ground with the box in their CRS. */
  lemma SelectedExactly(source: Source, project: Projection, folder: seq<InputFolder>, b: Bbox, i: nat, s: Stamp)
    requires i < |folder|
    ensures var chosen, d := Selection(source, project, folder, b)[i], source(s).declared;
            && (!Resolves(d) ==> (s in chosen <==> s in folder[i].models))
            && (Resolves(d) && d.box.Ordered() && project(d.epsg.value, b).Ordered() ==>
                  (s in chosen <==> s in folder[i].models && ShareGround(d.box, project(d.epsg.value, b))))
  {
    var d := source(s).declared;
    KeptMembers(source, project, folder[i].models, b, s);
    if Resolves(d) {
      OverlapsIsCommonGround(d.box, project(d.epsg.value, b));
    }
  }

  /** The selection of a folder keeps the order of its model files and lists none twice. */
  lemma {:induction false} SelectedInOrder(source: Source, project: Projection, files: seq<Stamp>, b: Bbox, i: nat, j: nat)
    returns (k: nat, l: nat)
    requires i < j < |Kept(source, project, files, b)|
    ensures k < l < |files| && files[k] == Kept(source, project, files, b)[i] && files[l] == Kept(source, project, files, b)[j]
  {
    var rest := Kept(source, project, files[1..], b);
    var first := if Keeps(project, source(files[0]).declared, b) then 1 else 0;
    if i < first {
      k := 0;
      KeptMembers(source, project, files[1..], b, rest[j - 1]);
      var m :| 0 <= m < |files[1..]| && files[1..][m] == rest[j - 1];
      l := m + 1;
    } else {
      k, l := SelectedInOrder(source, project, files[1..], b, i - first, j - first);
      k, l := k + 1, l + 1;
    }
  }

  /** What the modes of a request mean, for ordered envelopes and boxes. */
  lemma ModesMean(f: Feature, b: Bbox)
    requires f.envelope.Ordered() && b.Ordered()
    ensures Selects(Intersects, b, f) <==> ShareGround(f.envelope, b)
    ensures Selects(Contains, b, f) <==> forall x: real, y: real :: f.envelope.Covers(x, y) ==> b.Covers(x, y)
  {
    OverlapsIsCommonGround(f.envelope, b);
    if forall x: real, y: real :: f.envelope.Covers(x, y) ==> b.Covers(x, y) {
      assert f.envelope.Covers(f.envelope.xmin, f.envelope.ymin) && f.envelope.Covers(f.envelope.xmax, f.envelope.ymax);
    }
  }

  /** Tiles that meet share no feature, and together have those of the undivided box. */
  lemma EachFeatureOnOneTile(f: Feature, b: Bbox, x: real, y: real)
    requires b.xmin <= x <= b.xmax && b.ymin <= y <= b.ymax
    ensures var left, right := b.(xmax := x), b.(xmin := x);
            && !(Selects(OnTile, left, f) && Selects(OnTile, right, f))
            && (Selects(OnTile, b, f) <==> Selects(OnTile, left, f) || Selects(OnTile, right, f))
    ensures var low, high := b.(ymax := y), b.(ymin := y);
            && !(Selects(OnTile, low, f) && Selects(OnTile, high, f))
            && (Selects(OnTile, b, f) <==> Selects(OnTile, low, f) || Selects(OnTile, high, f))
    ensures Selects(OnTile, b, f) ==> b.Covers(f.x, f.y)
    ensures b.Covers(f.x, f.y) && f.x != b.xmax && f.y != b.ymax ==> Selects(OnTile, b, f)
  {
  }

  lemma FeatureIsKept(source: Source, project: Projection, s: Stamp, f: Feature, b: Bbox)
    requires Honest(source, project) && f in source(s).features && f.envelope.Overlaps(b)
    ensures Keeps(project, source(s).declared, b)
  {
  }

  /** Dropping the files that do not meet the box loses no feature. */
  lemma FileSelectionIsComplete(source: Source, project: Projection, folder: seq<InputFolder>, b: Bbox, mode: Mode)
    requires Honest(source, project)
    ensures Targets(source, Concat(Selection(source, project, folder, b)), Box(b, mode))
            == Targets(source, Concat(AllModels(folder)), Box(b, mode))
  {
    var selection, models := Selection(source, project, folder, b), AllModels(folder);
    forall s, f | s in Concat(selection) && f in source(s).features && Selects(mode, b, f)
      ensures s in Concat(models)
    {
      ConcatMembers(selection, s);
      ConcatMembers(models, s);
      var i :| 0 <= i < |selection| && s in selection[i];
      KeptMembers(source, project, folder[i].models, b, s);
      assert s in models[i];
    }
    forall s, f | s in Concat(models) && f in source(s).features && Selects(mode, b, f)
      ensures s in Concat(selection)
    {
      ConcatMembers(selection, s);
      ConcatMembers(models, s);
      var i :| 0 <= i < |models| && s in models[i];
      SelectedMeetsBox(mode, b, f);
      FeatureIsKept(source, project, s, f, b);
      KeptMembers(source, project, folder[i].models, b, s);
      assert s in selection[i];
    }
  }

  // ---- One run of citydb-tool ----

  lemma TargetsSplit(source: Source, a: seq<Stamp>, b: seq<Stamp>, filter: Filter)
    ensures Targets(source, a + b, filter) == Targets(source, a, filter) + Targets(source, b, filter)
  {
  }

  /** The calls never import more than the files hold, and all of it when every
      call completes. */
  lemma {:induction false} ImportedExactly(source: Source, files: seq<seq<Stamp>>, skipEmpty: bool, filter: Filter,
                                           tool: seq<ToolRun>, i: nat)
    requires i <= |files|
    ensures var (added, ok) := ImportFrom(source, files, skipEmpty, filter, tool, i);
            var targets := Targets(source, Concat(files[i..]), filter);
            && added <= targets
            && (ok && (forall k :: 0 <= k < |tool| ==> !tool[k].Capped?) ==> added == targets)
    decreases |files| - i
  {
    if i < |files| {
      ImportedExactly(source, files, skipEmpty, filter, tool, i + 1);
      assert files[i..][1..] == files[i + 1..];
      TargetsSplit(source, files[i], Concat(files[i + 1..]), filter);
      assert files[i] == [] ==> Targets(source, files[i], filter) == {};
    }
  }

  /** citydb-tool is called for folder k: only an empty selection is left out. */
  predicate Called(files: seq<seq<Stamp>>, skipEmpty: bool, k: nat)
    requires k < |files|
  {
    !skipEmpty || files[k] != []
  }

  /** Every call from i up to k went through. */
  ghost predicate Reached(files: seq<seq<Stamp>>, skipEmpty: bool, tool: seq<ToolRun>, i: nat, k: nat)
    requires k <= |files|
  {
    forall j :: i <= j < k && Called(files, skipEmpty, j) ==> !ToolAt(tool, j).Crashed?
  }

  /** The call for folder k stores this id. */
  ghost predicate StoredBy(source: Source, files: seq<seq<Stamp>>, skipEmpty: bool, filter: Filter, tool: seq<ToolRun>,
                           k: nat, id: string)
    requires k < |files|
  {
    && Called(files, skipEmpty, k) && id in Targets(source, files[k], filter)
    && match ToolAt(tool, k)
       case Completed => true
       case Capped(part) => id in part
       case Crashed(part) => id in part
  }

  lemma ReachedLater(files: seq<seq<Stamp>>, skipEmpty: bool, tool: seq<ToolRun>, i: nat, k: nat)
    requires i < k <= |files| && !(Called(files, skipEmpty, i) && ToolAt(tool, i).Crashed?)
    ensures Reached(files, skipEmpty, tool, i, k) <==> Reached(files, skipEmpty, tool, i + 1, k)
  {
  }

  ghost predicate StoredFrom(source: Source, files: seq<seq<Stamp>>, skipEmpty: bool, filter: Filter, tool: seq<ToolRun>,
                             i: nat, id: string) {
    exists k :: i <= k < |files| && Reached(files, skipEmpty, tool, i, k)
                && StoredBy(source, files, skipEmpty, filter, tool, k, id)
  }

  lemma StoredFromStep(source: Source, files: seq<seq<Stamp>>, skipEmpty: bool, filter: Filter, tool: seq<ToolRun>,
                       i: nat, id: string)
    requires i < |files|
    ensures StoredFrom(source, files, skipEmpty, filter, tool, i, id)
            <==> || StoredBy(source, files, skipEmpty, filter, tool, i, id)
                 || (!(Called(files, skipEmpty, i) && ToolAt(tool, i).Crashed?)
                     && StoredFrom(source, files, skipEmpty, filter, tool, i + 1, id))
  {
    assert Reached(files, skipEmpty, tool, i, i);
    var crashed := Called(files, skipEmpty, i) && ToolAt(tool, i).Crashed?;
    if StoredFrom(source, files, skipEmpty, filter, tool, i, id) {
      var k :| i <= k < |files| && Reached(files, skipEmpty, tool, i, k)
               && StoredBy(source, files, skipEmpty, filter, tool, k, id);
      if k > i {
        assert !crashed;
        ReachedLater(files, skipEmpty, tool, i, k);
      }
    }
    if !crashed && StoredFrom(source, files, skipEmpty, filter, tool, i + 1, id) {
      var k :| i + 1 <= k < |files| && Reached(files, skipEmpty, tool, i + 1, k)
               && StoredBy(source, files, skipEmpty, filter, tool, k, id);
      ReachedLater(files, skipEmpty, tool, i, k);
    }
  }

  /** The calls succeed exactly when none of them crashes, and what they store is what
      each call up to the first crash stores. */
  lemma {:induction false} CallsExactly(source: Source, files: seq<seq<Stamp>>, skipEmpty: bool, filter: Filter,
                                        tool: seq<ToolRun>, i: nat, id: string)
    requires i <= |files|
    ensures var (added, ok) := ImportFrom(source, files, skipEmpty, filter, tool, i);
            && (ok <==> Reached(files, skipEmpty, tool, i, |files|))
            && (id in added <==> StoredFrom(source, files, skipEmpty, filter, tool, i, id))
    decreases |files| - i
  {
    if i < |files| {
      CallsExactly(source, files, skipEmpty, filter, tool, i + 1, id);
      StoredFromStep(source, files, skipEmpty, filter, tool, i, id);
      if !(Called(files, skipEmpty, i) && ToolAt(tool, i).Crashed?) {
        ReachedLater(files, skipEmpty, tool, i, |files|);
      }
    }
  }

  // ---- Rows ----

  lemma {:induction false} ConcatNulFree(lists: seq<seq<Stamp>>)
    requires forall i :: 0 <= i < |lists| ==> NulFree(lists[i])
    ensures NulFree(Concat(lists))
  {
    if lists != [] {
      ConcatNulFree(lists[1..]);
    }
  }

  lemma ModelsAreFiles(folder: seq<InputFolder>, s: Stamp)
    requires ValidFolder(folder)
    ensures s in Concat(AllModels(folder)) <==> s in Concat(AllFiles(folder)) && IsModelFile(s.path)
  {
    ConcatMembers(AllModels(folder), s);
    ConcatMembers(AllFiles(folder), s);
    if i :| 0 <= i < |folder| && s in folder[i].models {
      assert s in AllModels(folder)[i] && s in AllFiles(folder)[i];
    }
    if i :| 0 <= i < |folder| && s in folder[i].files && IsModelFile(s.path) {
      assert s in AllModels(folder)[i] && s in AllFiles(folder)[i];
    }
  }

  lemma FolderFilesAreNulFree(folder: seq<InputFolder>)
    requires ValidFolder(folder)
    ensures NulFree(Concat(AllFiles(folder)))
  {
    ConcatNulFree(AllFiles(folder));
  }

  lemma SelectionIsNulFree(source: Source, project: Projection, folder: seq<InputFolder>, b: Bbox)
    requires ValidFolder(folder)
    ensures NulFree(Concat(Selection(source, project, folder, b)))
  {
    var selection := Selection(source, project, folder, b);
    forall i | 0 <= i < |selection| ensures NulFree(selection[i]) {
      forall j | 0 <= j < |selection[i]| ensures '\0' !in selection[i][j].path {
        var s := selection[i][j];
        KeptMembers(source, project, folder[i].models, b, s);
        assert s in folder[i].files;
      }
    }
    ConcatNulFree(selection);
  }

  /** A hit on the record means there is nothing left to import. */
  lemma HitMeansImported(source: Source, project: Projection, db: Db, dataset: string, files: seq<Stamp>, b: Bbox, mode: Mode)
    requires Honest(source, project) && RowsTrue(source, db) && NulFree(files)
    requires Covered(db.rows, dataset, FingerprintText(files), b, mode)
    ensures Targets(source, files, Box(b, mode)) <= db.imported
  {
    var i :| 0 <= i < |db.rows| && CoveredBy(db.rows[i], dataset, FingerprintText(files), b, mode);
    var r := db.rows[i];
    forall s, f | s in files && f in source(s).features && Selects(mode, b, f) ensures f.id in db.imported {
      SelectionGrows(mode, b, r.mode, r.geom, f);
      assert f.id in Targets(source, files, Box(r.geom, r.mode));
    }
  }

  /** Lists and filters that pass the same features have the same targets. */
  lemma SameTargets(source: Source, a: seq<Stamp>, p: Filter, b: seq<Stamp>, q: Filter)
    requires forall s, f :: f in source(s).features ==> (s in a && Passes(p, f) <==> s in b && Passes(q, f))
    ensures Targets(source, a, p) == Targets(source, b, q)
  {
    forall id ensures id in Targets(source, a, p) <==> id in Targets(source, b, q) {
      if id in Targets(source, a, p) {
        var s, f :| s in a && f in source(s).features && Passes(p, f) && f.id == id;
        assert s in b && Passes(q, f);
      }
      if id in Targets(source, b, q) {
        var s, f :| s in b && f in source(s).features && Passes(q, f) && f.id == id;
        assert s in a && Passes(p, f);
      }
    }
  }

  /** Every feature is in a model file, and somewhere on the map. */
  lemma FeatureIsProper(source: Source, project: Projection, s: Stamp, f: Feature)
    requires Honest(source, project) && f in source(s).features
    ensures IsModelFile(s.path) && Selects(Intersects, WHOLE_FOLDER, f)
  {
    assert Proper(s, f);
  }

  lemma WholeFolderIsEverything(source: Source, project: Projection, folder: seq<InputFolder>)
    requires Honest(source, project) && ValidFolder(folder)
    ensures Targets(source, Concat(AllFiles(folder)), Box(WHOLE_FOLDER, Intersects))
            == Targets(source, Concat(AllModels(folder)), Everything)
  {
    var files, models, all := Concat(AllFiles(folder)), Concat(AllModels(folder)), Box(WHOLE_FOLDER, Intersects);
    forall s, f | f in source(s).features ensures s in files && Passes(all, f) <==> s in models && Passes(Everything, f) {
      FeatureIsProper(source, project, s, f);
      ModelsAreFiles(folder, s);
    }
    SameTargets(source, files, all, models, Everything);
  }

  lemma FolderHoldsTheModels(source: Source, project: Projection, folder: seq<InputFolder>, filter: Filter)
    requires Honest(source, project) && ValidFolder(folder)
    ensures Targets(source, Concat(AllFiles(folder)), filter) == Targets(source, Concat(AllModels(folder)), filter)
  {
    var files, models := Concat(AllFiles(folder)), Concat(AllModels(folder));
    forall s, f | f in source(s).features ensures s in files && Passes(filter, f) <==> s in models && Passes(filter, f) {
      FeatureIsProper(source, project, s, f);
      ModelsAreFiles(folder, s);
    }
    SameTargets(source, files, filter, models, filter);
  }

  lemma MoreImported(source: Source, db: Db, added: set<string>)
    requires RowsTrue(source, db)
    ensures RowsTrue(source, db.(imported := db.imported + added))
  {
  }

  /** Recording what was just imported keeps the rows true; that the fingerprint
      stands for these files and no others is what makes it so. */
  lemma RecordingKeepsRowsTrue(source: Source, db: Db, n: Row, files: seq<Stamp>)
    requires RowsTrue(source, db) && NulFree(files) && n.fingerprint == FingerprintText(files)
    requires Targets(source, files, Box(n.geom, n.mode)) <= db.imported
    ensures RowsTrue(source, db.(rows := Record(db.rows, n)))
  {
    var rows := Record(db.rows, n);
    forall i, others | 0 <= i < |rows| && NulFree(others) && FingerprintText(others) == rows[i].fingerprint
      ensures Targets(source, others, Box(rows[i].geom, rows[i].mode)) <= db.imported
    {
      if rows[i] == n {
        FingerprintInjective(files, others);
      } else {
        assert rows[i] in WithoutOutdated(db.rows, n);
        var j :| 0 <= j < |db.rows| && db.rows[j] == rows[i];
      }
    }
  }

  lemma StoringIsSound(source: Source, db: Db, added: set<string>, ok: bool, n: Row, recordFails: bool, files: seq<Stamp>)
    requires RowsTrue(source, db) && NulFree(files) && n.fingerprint == FingerprintText(files)
    requires ok ==> Targets(source, files, Box(n.geom, n.mode)) <= added
    ensures var (after, done) := Store(db, added, ok, n, recordFails);
            RowsTrue(source, after) && after.imported == db.imported + added && (done ==> ok)
  {
    MoreImported(source, db, added);
    if ok {
      RecordingKeepsRowsTrue(source, db.(imported := db.imported + added), n, files);
    }
  }

  // ---- One import ----

  ghost predicate Sound(source: Source, db: Db, e: Import, after: Db, ok: bool) {
    && RowsTrue(source, after)
    && db.imported <= after.imported <= db.imported + Naive(source, e)
    && (ok && !e.limited ==> Naive(source, e) <= after.imported)
  }

  lemma WholeImportIsSound(source: Source, project: Projection, db: Db, e: Import)
    requires Honest(source, project) && RowsTrue(source, db) && Possible(e) && e.request.Whole? && !e.limited
    ensures var (after, ok) := ImportWhole(source, db, e.dataset, e.folder, e.io); Sound(source, db, e, after, ok)
  {
    var files, fingerprint := Concat(AllFiles(e.folder)), FingerprintText(Concat(AllFiles(e.folder)));
    FolderFilesAreNulFree(e.folder);
    WholeFolderIsEverything(source, project, e.folder);
    if Covered(db.rows, e.dataset, fingerprint, WHOLE_FOLDER, Intersects) {
      HitMeansImported(source, project, db, e.dataset, files, WHOLE_FOLDER, Intersects);
    } else {
      var models := AllModels(e.folder);
      var (added, ok) := ImportFrom(source, models, false, Everything, e.io.tool, 0);
      ImportedExactly(source, models, false, Everything, e.io.tool, 0);
      assert models[0..] == models;
      StoringIsSound(source, db, added, ok, Row(e.dataset, fingerprint, Intersects, WHOLE_FOLDER), e.io.record, files);
    }
  }

  lemma AreaImportIsSound(source: Source, project: Projection, db: Db, e: Import)
    requires Honest(source, project) && RowsTrue(source, db) && Possible(e) && e.request.Area? && !e.limited
    ensures var (after, ok) := ImportArea(source, project, db, e.dataset, e.folder, e.request.b, e.request.mode, e.selected, e.io);
            Sound(source, db, e, after, ok)
  {
    var Area(b, mode) := e.request;
    var all := Concat(AllFiles(e.folder));
    var selection := Selection(source, project, e.folder, b);
    var files := Concat(selection);
    FolderFilesAreNulFree(e.folder);
    SelectionIsNulFree(source, project, e.folder, b);
    FolderHoldsTheModels(source, project, e.folder, Box(b, mode));
    FileSelectionIsComplete(source, project, e.folder, b, mode);
    if Covered(db.rows, e.dataset, FingerprintText(all), b, mode) {
      HitMeansImported(source, project, db, e.dataset, all, b, mode);
    } else if Covered(db.rows, e.dataset, FingerprintText(files), b, mode) {
      HitMeansImported(source, project, db, e.dataset, files, b, mode);
    } else {
      var (added, ok) := ImportFrom(source, selection, true, Box(b, mode), e.io.tool, 0);
      ImportedExactly(source, selection, true, Box(b, mode), e.io.tool, 0);
      assert selection[0..] == selection;
      StoringIsSound(source, db, added, ok, Row(e.dataset, FingerprintText(files), mode, b), e.io.record, files);
    }
  }

  /** An import, skipped, selected, failed part-way or limited, keeps every row
      true, imports nothing a naive import would not, and when it reports success
      without a limit leaves everything a naive import would store. */
  lemma ImportIsSound(source: Source, project: Projection, db: Db, e: Import)
    requires Honest(source, project) && RowsTrue(source, db) && Possible(e)
    ensures var (after, ok) := Step(source, project, db, e); Sound(source, db, e, after, ok)
  {
    if e.limited {
      if !e.request.BadBox? {
        var filter := if e.request.Whole? then Everything else Box(e.request.b, e.request.mode);
        var models := AllModels(e.folder);
        ImportedExactly(source, models, false, filter, e.io.tool, 0);
        assert models[0..] == models;
        MoreImported(source, db, ImportFrom(source, models, false, filter, e.io.tool, 0).0);
      }
    } else if !e.io.fingerprint {
      match e.request
      case Whole => WholeImportIsSound(source, project, db, e);
      case Area(_, _) => AreaImportIsSound(source, project, db, e);
      case BadBox =>
    }
  }

  /** All calls of this import go through. */
  ghost predicate CallsWork(source: Source, project: Projection, e: Import)
    requires !e.request.BadBox?
  {
    var files := FilesOf(source, project, e);
    Reached(files, SkipsEmpty(e), e.io.tool, 0, |files|)
  }

  /** The record covers this unlimited import: at the first look by the files of the whole
      folder, or at the second by the files selected. */
  ghost predicate IsCovered(source: Source, project: Projection, db: Db, e: Import) {
    var all := FingerprintText(Concat(AllFiles(e.folder)));
    match e.request
    case Whole => Covered(db.rows, e.dataset, all, WHOLE_FOLDER, Intersects)
    case Area(b, mode) =>
      || Covered(db.rows, e.dataset, all, b, mode)
      || (e.selected && !e.io.recheck
          && Covered(db.rows, e.dataset, FingerprintText(Concat(Selection(source, project, e.folder, b))), b, mode))
    case BadBox => false
  }

  /** Up to the calls, nothing fails that this unlimited import needs. */
  ghost predicate GetsToCalls(e: Import) {
    && !e.io.fingerprint && !e.io.check && !e.request.BadBox?
    && (e.request.Area? ==> e.selected && !e.io.recheck)
  }

  lemma LimitedSucceedsExactly(source: Source, project: Projection, db: Db, e: Import)
    requires e.limited
    ensures var (after, ok) := Step(source, project, db, e);
            after.rows == db.rows && (ok <==> !e.request.BadBox? && CallsWork(source, project, e))
  {
    if !e.request.BadBox? {
      var filter := if e.request.Whole? then Everything else Box(e.request.b, e.request.mode);
      CallsExactly(source, AllModels(e.folder), false, filter, e.io.tool, 0, "");
    }
  }

  /** When an import succeeds, and what it leaves of the record: a limited one when all its
      calls do, and it records nothing; another one when it is covered, which changes
      nothing, or when its calls and the record itself go through, which records its row.
      A failed import leaves the record as it was. */
  lemma ImportSucceedsExactly(source: Source, project: Projection, db: Db, e: Import)
    ensures var (after, ok) := Step(source, project, db, e);
            && (e.limited ==> after.rows == db.rows && (ok <==> !e.request.BadBox? && CallsWork(source, project, e)))
            && (!e.limited ==>
                  var covered := !e.io.fingerprint && !e.io.check && IsCovered(source, project, db, e);
                  && (ok <==> covered || (GetsToCalls(e) && CallsWork(source, project, e) && !e.io.record))
                  && (covered ==> after == db)
                  && (ok && !covered ==>
                        !e.request.BadBox? && after.rows == Record(db.rows, RowOf(e, FilesOf(source, project, e))))
                  && (!ok ==> after.rows == db.rows))
  {
    if e.limited {
      LimitedSucceedsExactly(source, project, db, e);
    } else {
      match e.request
      case Whole => CallsExactly(source, AllModels(e.folder), false, Everything, e.io.tool, 0, "");
      case Area(b, mode) =>
        CallsExactly(source, Selection(source, project, e.folder, b), true, Box(b, mode), e.io.tool, 0, "");
      case BadBox =>
    }
  }

  // ---- Every history ----

  /** Rows stay true over every history, so any later successful import without a
      limit ends with everything it stands for. */
  lemma {:induction false} RowsStayTrue(source: Source, project: Projection, db: Db, es: seq<Import>)
    requires Honest(source, project) && RowsTrue(source, db)
    requires forall k :: 0 <= k < |es| ==> Possible(es[k])
    ensures RowsTrue(source, After(source, project, db, es))
    ensures db.imported <= After(source, project, db, es).imported
    decreases |es|
  {
    if es != [] {
      assert Possible(es[0]);
      var next := Step(source, project, db, es[0]).0;
      ImportIsSound(source, project, db, es[0]);
      RowsStayTrue(source, project, next, es[1..]);
    }
  }

  lemma SkippedImportLosesNothing(source: Source, project: Projection, es: seq<Import>, e: Import)
    requires Honest(source, project) && Possible(e) && !e.limited
    requires forall k :: 0 <= k < |es| ==> Possible(es[k])
    requires Step(source, project, After(source, project, Db([], {}), es), e).1
    ensures Naive(source, e) <= Step(source, project, After(source, project, Db([], {}), es), e).0.imported
  {
    RowsStayTrue(source, project, Db([], {}), es);
    ImportIsSound(source, project, After(source, project, Db([], {}), es), e);
  }

  ghost predicate AllSucceed(source: Source, project: Projection, db: Db, es: seq<Import>)
    decreases |es|
  {
    es != [] ==>
      && Possible(es[0]) && !es[0].limited && Step(source, project, db, es[0]).1
      && AllSucceed(source, project, Step(source, project, db, es[0]).0, es[1..])
  }

  function AllNaive(source: Source, es: seq<Import>): set<string> {
    if es == [] then {} else Naive(source, es[0]) + AllNaive(source, es[1..])
  }

  /** Where every import succeeds without a limit, the cached importer and one that
      never skips or selects reach the very same imported set. */
  lemma {:induction false} CachedEqualsNaive(source: Source, project: Projection, db: Db, es: seq<Import>)
    requires Honest(source, project) && RowsTrue(source, db) && AllSucceed(source, project, db, es)
    ensures After(source, project, db, es).imported == db.imported + AllNaive(source, es)
    decreases |es|
  {
    if es != [] {
      ImportIsSound(source, project, db, es[0]);
      CachedEqualsNaive(source, project, Step(source, project, db, es[0]).0, es[1..]);
    }
  }

  // ---- The record itself ----

  predicate SamePlace(a: Row, b: Row) {
    a.dataset == b.dataset && a.mode == b.mode && a.geom == b.geom
  }

  /** At most one row per dataset, mode and box. */
  ghost predicate OneRowEach(rows: seq<Row>) {
    forall i, j :: 0 <= i < j < |rows| ==> !SamePlace(rows[i], rows[j])
  }

  lemma {:induction false} FilteredRowsApart(rows: seq<Row>, n: Row)
    requires OneRowEach(rows)
    ensures OneRowEach(WithoutOutdated(rows, n))
  {
    if rows != [] {
      var rest := WithoutOutdated(rows[1..], n);
      FilteredRowsApart(rows[1..], n);
      forall x | x in rest ensures !SamePlace(rows[0], x) {
        assert x in rows[1..];
        var k :| 0 <= k < |rows[1..]| && rows[1..][k] == x;
        assert rows[k + 1] == x;
      }
    }
  }

  /** Recording drops the rows of the same dataset, mode and box that other files left,
      and no other row. */
  lemma RecordedMembers(rows: seq<Row>, n: Row, x: Row)
    ensures x in Record(rows, n)
            <==> x == n || (x in rows && !(x.dataset == n.dataset && x.mode == n.mode && x.geom == n.geom
                                           && x.fingerprint != n.fingerprint))
  {
    assert Record(rows, n)[|Record(rows, n)| - 1] == n;
    assert x in WithoutOutdated(rows, n) ==> x in Record(rows, n);
  }

  // ---- A second import is skipped ----

  /** Whatever imported the first request leaves nothing to do for the second. */
  ghost predicate Serves(first: Request, second: Request) {
    match first
    case Whole => second.Whole? || (second.Area? && second.b.Within(WHOLE_FOLDER))
    case Area(b, mode) => second.Area? && second.b == b && (second.mode == mode || mode == Intersects)
    case BadBox => false
  }

  /** None of the queries before citydb-tool is called fails. */
  ghost predicate LooksWork(e: Import) {
    && !e.limited && !e.io.fingerprint && !e.io.check
    && (e.request.Area? ==> e.selected && !e.io.recheck)
  }

  /** Some row covers this. */
  lemma CoveredByRow(rows: seq<Row>, i: nat, dataset: string, fingerprint: string, b: Bbox, mode: Mode)
    requires i < |rows| && CoveredBy(rows[i], dataset, fingerprint, b, mode)
    ensures Covered(rows, dataset, fingerprint, b, mode)
  {
  }

  lemma WholeLeavesCover(source: Source, db: Db, e: Import, b: Bbox, mode: Mode)
    requires var (after, ok) := ImportWhole(source, db, e.dataset, e.folder, e.io); ok
    requires b.Within(WHOLE_FOLDER)
    ensures var (after, ok) := ImportWhole(source, db, e.dataset, e.folder, e.io);
            Covered(after.rows, e.dataset, FingerprintText(Concat(AllFiles(e.folder))), b, mode)
  {
    var (after, ok) := ImportWhole(source, db, e.dataset, e.folder, e.io);
    var fingerprint := FingerprintText(Concat(AllFiles(e.folder)));
    if Covered(db.rows, e.dataset, fingerprint, WHOLE_FOLDER, Intersects) {
      var i :| 0 <= i < |db.rows| && CoveredBy(db.rows[i], e.dataset, fingerprint, WHOLE_FOLDER, Intersects);
      CoveredByRow(after.rows, i, e.dataset, fingerprint, b, mode);
    } else {
      CoveredByRow(after.rows, |after.rows| - 1, e.dataset, fingerprint, b, mode);
    }
  }

  lemma SameCover(rows: seq<Row>, dataset: string, fingerprint: string, b: Bbox, mode: Mode, other: Mode)
    requires Covered(rows, dataset, fingerprint, b, mode) && (other == mode || mode == Intersects)
    ensures Covered(rows, dataset, fingerprint, b, other)
  {
    var i :| 0 <= i < |rows| && CoveredBy(rows[i], dataset, fingerprint, b, mode);
    CoveredByRow(rows, i, dataset, fingerprint, b, other);
  }

  lemma AreaLeavesCover(source: Source, project: Projection, db: Db, e: Import)
    requires e.request.Area? && !e.limited && Step(source, project, db, e).1
    ensures var rows, b, mode := Step(source, project, db, e).0.rows, e.request.b, e.request.mode;
            || Covered(rows, e.dataset, FingerprintText(Concat(AllFiles(e.folder))), b, mode)
            || Covered(rows, e.dataset, FingerprintText(Concat(Selection(source, project, e.folder, b))), b, mode)
  {
    var rows, b, mode := Step(source, project, db, e).0.rows, e.request.b, e.request.mode;
    var all := FingerprintText(Concat(AllFiles(e.folder)));
    var fingerprint := FingerprintText(Concat(Selection(source, project, e.folder, b)));
    if !Covered(db.rows, e.dataset, all, b, mode) && !Covered(db.rows, e.dataset, fingerprint, b, mode) {
      CoveredByRow(rows, |rows| - 1, e.dataset, fingerprint, b, mode);
    }
  }

  /** A row of this dataset from these files whose box and mode cover the request. */
  ghost predicate HasOwnRow(rows: seq<Row>, dataset: string, fingerprint: string, b: Bbox, mode: Mode) {
    exists i :: 0 <= i < |rows| && rows[i].dataset == dataset && rows[i].fingerprint == fingerprint
                && (rows[i].mode == mode || rows[i].mode == Intersects)
                && rows[i].geom.xmin <= b.xmin && b.xmax <= rows[i].geom.xmax
                && rows[i].geom.ymin <= b.ymin && b.ymax <= rows[i].geom.ymax
  }

  /** A look at the record hits exactly on a row of its own. */
  lemma CoveredExactly(rows: seq<Row>, dataset: string, fingerprint: string, b: Bbox, mode: Mode)
    ensures Covered(rows, dataset, fingerprint, b, mode) <==> HasOwnRow(rows, dataset, fingerprint, b, mode)
  {
    forall i | 0 <= i < |rows|
      ensures CoveredBy(rows[i], dataset, fingerprint, b, mode)
              <==> && rows[i].dataset == dataset && rows[i].fingerprint == fingerprint
                   && (rows[i].mode == mode || rows[i].mode == Intersects)
                   && rows[i].geom.xmin <= b.xmin && b.xmax <= rows[i].geom.xmax
                   && rows[i].geom.ymin <= b.ymin && b.ymax <= rows[i].geom.ymax
    {
    }
    if HasOwnRow(rows, dataset, fingerprint, b, mode) {
      var i :| 0 <= i < |rows| && rows[i].dataset == dataset && rows[i].fingerprint == fingerprint
               && (rows[i].mode == mode || rows[i].mode == Intersects)
               && rows[i].geom.xmin <= b.xmin && b.xmax <= rows[i].geom.xmax
               && rows[i].geom.ymin <= b.ymin && b.ymax <= rows[i].geom.ymax;
      CoveredByRow(rows, i, dataset, fingerprint, b, mode);
    }
  }

  /** Every unlimited import that succeeds leaves a row of its own dataset, from its own
      files, whose box and mode cover the request. */
  lemma SuccessLeavesARow(source: Source, project: Projection, db: Db, e: Import)
    requires !e.limited && Step(source, project, db, e).1
    ensures var rows := Step(source, project, db, e).0.rows;
            var all := FingerprintText(Concat(AllFiles(e.folder)));
            match e.request
            case Whole => HasOwnRow(rows, e.dataset, all, WHOLE_FOLDER, Intersects)
            case Area(b, mode) =>
              || HasOwnRow(rows, e.dataset, all, b, mode)
              || HasOwnRow(rows, e.dataset, FingerprintText(Concat(Selection(source, project, e.folder, b))), b, mode)
            case BadBox => false
  {
    var rows := Step(source, project, db, e).0.rows;
    var all := FingerprintText(Concat(AllFiles(e.folder)));
    match e.request
    case Whole =>
      WholeLeavesCover(source, db, e, WHOLE_FOLDER, Intersects);
      CoveredExactly(rows, e.dataset, all, WHOLE_FOLDER, Intersects);
    case Area(b, mode) =>
      AreaLeavesCover(source, project, db, e);
      CoveredExactly(rows, e.dataset, all, b, mode);
      CoveredExactly(rows, e.dataset, FingerprintText(Concat(Selection(source, project, e.folder, b))), b, mode);
    case BadBox =>
  }

  /** After an unlimited import that succeeded, the same dataset from the same files is
      not imported again for a request that it serves: no call is made, so none can fail,
      and nothing changes. A whole folder serves every box of the map in every mode, and
      an intersects import every mode of its box. */
  lemma SecondImportIsSkipped(source: Source, project: Projection, db: Db, e: Import, again: Import)
    requires !e.limited && Step(source, project, db, e).1
    requires again.dataset == e.dataset && again.folder == e.folder && Serves(e.request, again.request) && LooksWork(again)
    ensures var after := Step(source, project, db, e).0; Step(source, project, after, again) == (after, true)
  {
    var after := Step(source, project, db, e).0;
    var all := FingerprintText(Concat(AllFiles(e.folder)));
    if e.request.Whole? {
      var b, mode := if again.request.Whole? then WHOLE_FOLDER else again.request.b,
                     if again.request.Whole? then Intersects else again.request.mode;
      WholeLeavesCover(source, db, e, b, mode);
      assert Covered(after.rows, again.dataset, all, b, mode);
    } else {
      var b, mode, other := e.request.b, e.request.mode, again.request.mode;
      AreaLeavesCover(source, project, db, e);
      var some := FingerprintText(Concat(Selection(source, project, e.folder, b)));
      if Covered(after.rows, e.dataset, all, b, mode) {
        SameCover(after.rows, e.dataset, all, b, mode, other);
      } else {
        SameCover(after.rows, e.dataset, some, b, mode, other);
      }
    }
  }

  lemma RecordedRowsApart(rows: seq<Row>, n: Row)
    requires OneRowEach(rows) && !Covered(rows, n.dataset, n.fingerprint, n.geom, n.mode)
    ensures OneRowEach(Record(rows, n))
  {
    FilteredRowsApart(rows, n);
    forall x | x in WithoutOutdated(rows, n) ensures !SamePlace(x, n) {
      var k :| 0 <= k < |rows| && rows[k] == x;
      assert !CoveredBy(rows[k], n.dataset, n.fingerprint, n.geom, n.mode);
    }
  }

  lemma StoringKeepsOneRowEach(db: Db, added: set<string>, ok: bool, n: Row, recordFails: bool)
    requires OneRowEach(db.rows) && !Covered(db.rows, n.dataset, n.fingerprint, n.geom, n.mode)
    ensures OneRowEach(Store(db, added, ok, n, recordFails).0.rows)
  {
    RecordedRowsApart(db.rows, n);
  }

  lemma WholeKeepsOneRowEach(source: Source, db: Db, dataset: string, folder: seq<InputFolder>, io: Faults)
    requires OneRowEach(db.rows)
    ensures OneRowEach(ImportWhole(source, db, dataset, folder, io).0.rows)
  {
    var n := Row(dataset, FingerprintText(Concat(AllFiles(folder))), Intersects, WHOLE_FOLDER);
    if !Covered(db.rows, n.dataset, n.fingerprint, n.geom, n.mode) {
      var (added, ok) := ImportFrom(source, AllModels(folder), false, Everything, io.tool, 0);
      StoringKeepsOneRowEach(db, added, ok, n, io.record);
    }
  }

  lemma AreaKeepsOneRowEach(source: Source, project: Projection, db: Db, e: Import)
    requires OneRowEach(db.rows) && e.request.Area?
    ensures OneRowEach(ImportArea(source, project, db, e.dataset, e.folder, e.request.b, e.request.mode, e.selected, e.io).0.rows)
  {
    var Area(b, mode) := e.request;
    var selection := Selection(source, project, e.folder, b);
    var n := Row(e.dataset, FingerprintText(Concat(selection)), mode, b);
    if !Covered(db.rows, n.dataset, n.fingerprint, n.geom, n.mode) {
      var (added, ok) := ImportFrom(source, selection, true, Box(b, mode), e.io.tool, 0);
      StoringKeepsOneRowEach(db, added, ok, n, e.io.record);
    }
  }

  lemma ImportKeepsOneRowEach(source: Source, project: Projection, db: Db, e: Import)
    requires OneRowEach(db.rows)
    ensures OneRowEach(Step(source, project, db, e).0.rows)
  {
    if !e.limited && !e.io.fingerprint {
      match e.request
      case Whole => WholeKeepsOneRowEach(source, db, e.dataset, e.folder, e.io);
      case Area(_, _) => AreaKeepsOneRowEach(source, project, db, e);
      case BadBox =>
    }
  }

  lemma {:induction false} OneRowPerPlace(source: Source, project: Projection, db: Db, es: seq<Import>)
    requires OneRowEach(db.rows)
    ensures OneRowEach(After(source, project, db, es).rows)
    decreases |es|
  {
    if es != [] {
      var next := Step(source, project, db, es[0]).0;
      ImportKeepsOneRowEach(source, project, db, es[0]);
      OneRowPerPlace(source, project, next, es[1..]);
    }
  }
}
