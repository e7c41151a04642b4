/** The import skip cache of one database schema: which boxes were imported from
    which files, and the extent each file declares. ImportStore is the state the
    Go code keeps in the database, with its methods over the same branches;
    failures of the disk, the database and citydb-tool are inputs. */
module ImportCache {
  import opened FileNames
  import opened Geometry
  import opened Wrappers
  import opened TextEncoders
  import opened Batches
  import opened Sequences

  // ---- Source files ----

  datatype Mode = Intersects | Contains | OnTile

  /** anchor is the point by which on_tile assigns a feature to one box. */
  datatype Feature = Feature(id: string, envelope: Bbox, x: real, y: real)

  /** What a file declares: nothing readable, or an extent in a CRS that may not
      resolve to an EPSG code. */
  datatype Declared = Unreadable | Extent(box: Bbox, epsg: Option<int>)

  datatype Content = Content(declared: Declared, features: set<Feature>)

  /** A file's content is a function of its path, size and modification time. */
  type Source = Stamp -> Content

  /** The image of a box in the CRS an EPSG code names (PostGIS: ST_Transform). */
  type Projection = (int, Bbox) -> Bbox

  /** One model folder on disk: every file in walk order, and its model files in
      the order the importer lists them. */
  datatype InputFolder = InputFolder(files: seq<Stamp>, models: seq<Stamp>)

  predicate DistinctPaths(files: seq<Stamp>) {
    forall i, j :: 0 <= i < j < |files| ==> files[i].path != files[j].path
  }

  predicate ValidFolder(folder: seq<InputFolder>) {
    forall i :: 0 <= i < |folder| ==>
      && NulFree(folder[i].files) && DistinctPaths(folder[i].models)
      && (forall s :: s in folder[i].models ==> s in folder[i].files && IsModelFile(s.path))
      && (forall s :: s in folder[i].files && IsModelFile(s.path) ==> s in folder[i].models)
  }

  // ---- What an import selects ----

  predicate Selects(mode: Mode, b: Bbox, f: Feature) {
    match mode
    case Intersects => f.envelope.Overlaps(b)
    case Contains => f.envelope.Within(b)
    case OnTile => b.xmin <= f.x < b.xmax && b.ymin <= f.y < b.ymax
  }

  /** None stands for the whole folder. */
  datatype Filter = Everything | Box(b: Bbox, mode: Mode)

  predicate Passes(filter: Filter, f: Feature) {
    filter.Everything? || Selects(filter.mode, filter.b, f)
  }

  /** The ids citydb-tool stores from these files. */
  function Targets(source: Source, files: seq<Stamp>, filter: Filter): set<string> {
    set s, f | s in files && f in source(s).features && Passes(filter, f) :: f.id
  }

  /** Whether a file's declared extent meets b; a file whose extent or CRS cannot
      be read is left to citydb-tool's own filter. */
  predicate Keeps(project: Projection, e: Declared, b: Bbox) {
    e.Unreadable? || e.epsg.None? || e.box.Overlaps(project(e.epsg.value, b))
  }

  function Kept(source: Source, project: Projection, files: seq<Stamp>, b: Bbox): seq<Stamp> {
    if files == [] then []
    else (if Keeps(project, source(files[0]).declared, b) then [files[0]] else [])
         + Kept(source, project, files[1..], b)
  }

  lemma {:induction false} KeptMembers(source: Source, project: Projection, files: seq<Stamp>, b: Bbox, s: Stamp)
    ensures s in Kept(source, project, files, b) <==> s in files && Keeps(project, source(s).declared, b)
  {
    if files != [] {
      KeptMembers(source, project, files[1..], b, s);
      assert files == [files[0]] + files[1..];
    }
  }

  function Selection(source: Source, project: Projection, folder: seq<InputFolder>, b: Bbox): (r: seq<seq<Stamp>>)
    ensures |r| == |folder|
    ensures forall i :: 0 <= i < |folder| ==> r[i] == Kept(source, project, folder[i].models, b)
  {
    seq(|folder|, i requires 0 <= i < |folder| => Kept(source, project, folder[i].models, b))
  }

  lemma {:induction false} ConcatMembers(lists: seq<seq<Stamp>>, s: Stamp)
    ensures s in Concat(lists) <==> exists i :: 0 <= i < |lists| && s in lists[i]
  {
    if lists != [] {
      ConcatMembers(lists[1..], s);
      if i :| 0 <= i < |lists| && s in lists[i] {
        assert i > 0 ==> lists[1..][i - 1] == lists[i];
      }
      if i :| 0 <= i < |lists[1..]| && s in lists[1..][i] {
        assert lists[i + 1] == lists[1..][i];
      }
    }
  }

  function AllFiles(folder: seq<InputFolder>): seq<seq<Stamp>> {
    seq(|folder|, i requires 0 <= i < |folder| => folder[i].files)
  }

  function AllModels(folder: seq<InputFolder>): seq<seq<Stamp>> {
    seq(|folder|, i requires 0 <= i < |folder| => folder[i].models)
  }

  // ---- The record of imports ----

  datatype Row = Row(dataset: string, fingerprint: string, mode: Mode, geom: Bbox)

  /** A bbox import and the record of it see only this part of the database. */
  datatype Db = Db(rows: seq<Row>, imported: set<string>)

  predicate CoveredBy(r: Row, dataset: string, fingerprint: string, b: Bbox, mode: Mode) {
    && r.dataset == dataset && r.fingerprint == fingerprint
    && (r.mode == mode || r.mode == Intersects)
    && b.Within(r.geom)
  }

  predicate Covered(rows: seq<Row>, dataset: string, fingerprint: string, b: Bbox, mode: Mode) {
    exists i :: 0 <= i < |rows| && CoveredBy(rows[i], dataset, fingerprint, b, mode)
  }

  predicate Outdated(r: Row, n: Row) {
    r.dataset == n.dataset && r.fingerprint != n.fingerprint && r.mode == n.mode && r.geom == n.geom
  }

  function WithoutOutdated(rows: seq<Row>, n: Row): (r: seq<Row>)
    ensures forall x :: x in r <==> x in rows && !Outdated(x, n)
  {
    if rows == [] then []
    else (if Outdated(rows[0], n) then [] else [rows[0]]) + WithoutOutdated(rows[1..], n)
  }

  function Record(rows: seq<Row>, n: Row): seq<Row> {
    WithoutOutdated(rows, n) + [n]
  }

  const WHOLE_FOLDER := Bbox(-180.0, -90.0, 180.0, 90.0)

  // ---- Failures ----

  /** How one citydb-tool call ends: it imports all it selects, is capped by the
      import limit, or fails; the last two import some part. */
  datatype ToolRun = Completed | Capped(part: set<string>) | Crashed(part: set<string>)

  /** Reading the file extents of one folder: the cache query, the stat or the read
      of the file at an index, and the nth write of unsaved rows, which then keeps
      only some paths. */
  datatype ReadFaults = ReadFaults(query: bool, stat: set<nat>, read: set<nat>, store: map<nat, set<string>>)

  /** list and extents are per model folder, by index. */
  datatype SelectFaults = SelectFaults(list: set<nat>, extents: map<nat, ReadFaults>, project: set<int>, stat: bool)

  datatype Faults = Faults(
    fingerprint: bool, check: bool, select: SelectFaults, recheck: bool, tool: seq<ToolRun>, record: bool)

  const NO_READ_FAULTS := ReadFaults(false, {}, {}, map[])
  const NO_SELECT_FAULTS := SelectFaults({}, map[], {}, false)

  function FlushFault(io: ReadFaults, flush: nat): Option<set<string>> {
    if flush in io.store then Some(io.store[flush]) else None
  }

  function ToolAt(tool: seq<ToolRun>, i: nat): ToolRun {
    if i < |tool| then tool[i] else Completed
  }

  // ---- What one import does to the record, as a function ----

  /** The ids imported from the folders from i on, and whether every call succeeded. */
  function ImportFrom(source: Source, files: seq<seq<Stamp>>, skipEmpty: bool, filter: Filter, tool: seq<ToolRun>, i: nat):
      (set<string>, bool)
    requires i <= |files|
    decreases |files| - i
  {
    if i == |files| then ({}, true)
    else if skipEmpty && files[i] == [] then ImportFrom(source, files, skipEmpty, filter, tool, i + 1)
    else
      var targets := Targets(source, files[i], filter);
      match ToolAt(tool, i)
      case Crashed(part) => (targets * part, false)
      case Capped(part) =>
        var (rest, ok) := ImportFrom(source, files, skipEmpty, filter, tool, i + 1);
        (targets * part + rest, ok)
      case Completed =>
        var (rest, ok) := ImportFrom(source, files, skipEmpty, filter, tool, i + 1);
        (targets + rest, ok)
  }

  function Store(db: Db, added: set<string>, ok: bool, n: Row, recordFails: bool): (Db, bool) {
    var after := db.(imported := db.imported + added);
    if !ok || recordFails then (after, false)
    else (after.(rows := Record(db.rows, n)), true)
  }

  function ImportWhole(source: Source, db: Db, dataset: string, folder: seq<InputFolder>, io: Faults): (Db, bool) {
    var fingerprint := FingerprintText(Concat(AllFiles(folder)));
    if io.check then (db, false)
    else if Covered(db.rows, dataset, fingerprint, WHOLE_FOLDER, Intersects) then (db, true)
    else
      var (added, ok) := ImportFrom(source, AllModels(folder), false, Everything, io.tool, 0);
      Store(db, added, ok, Row(dataset, fingerprint, Intersects, WHOLE_FOLDER), io.record)
  }

  /** selected says whether the file selection went through. */
  function ImportArea(source: Source, project: Projection, db: Db, dataset: string, folder: seq<InputFolder>,
                      b: Bbox, mode: Mode, selected: bool, io: Faults): (Db, bool) {
    if io.check then (db, false)
    else if Covered(db.rows, dataset, FingerprintText(Concat(AllFiles(folder))), b, mode) then (db, true)
    else if !selected then (db, false)
    else
      var selection := Selection(source, project, folder, b);
      var fingerprint := FingerprintText(Concat(selection));
      if io.recheck then (db, false)
      else if Covered(db.rows, dataset, fingerprint, b, mode) then (db, true)
      else
        var (added, ok) := ImportFrom(source, selection, true, Box(b, mode), io.tool, 0);
        Store(db, added, ok, Row(dataset, fingerprint, mode, b), io.record)
  }

  /** A request whose box text did not parse is BadBox. */
  datatype Request = Whole | Area(b: Bbox, mode: Mode) | BadBox

  function ImportDataset(source: Source, project: Projection, db: Db, dataset: string, folder: seq<InputFolder>,
                         request: Request, limited: bool, selected: bool, io: Faults): (Db, bool) {
    if limited then
      if request.BadBox? then (db, false)
      else
        var filter := if request.Whole? then Everything else Box(request.b, request.mode);
        var (added, ok) := ImportFrom(source, AllModels(folder), false, filter, io.tool, 0);
        (db.(imported := db.imported + added), ok)
    else if io.fingerprint then (db, false)
    else match request
         case Whole => ImportWhole(source, db, dataset, folder, io)
         case Area(b, mode) => ImportArea(source, project, db, dataset, folder, b, mode, selected, io)
         case BadBox => (db, false)
  }

  // ---- The file extent cache ----

  datatype Cached = Cached(size: int, mtime: int, declared: Declared)

  type ExtentCache = map<string, Cached>

  function Current(source: Source, f: Stamp): Cached {
    Cached(f.size, f.mtime, source(f).declared)
  }

  /** Every cached row says what the file declared when it had that stamp. */
  ghost predicate Agrees(source: Source, cache: ExtentCache) {
    forall p :: p in cache ==> cache[p] == Current(source, Stamp(p, cache[p].size, cache[p].mtime))
  }

  predicate UpToDate(source: Source, cache: ExtentCache, f: Stamp) {
    f.path in cache && cache[f.path] == Current(source, f)
  }

  ghost predicate NewRow(source: Source, files: seq<Stamp>, p: string, row: Cached) {
    exists i :: 0 <= i < |files| && files[i].path == p && row == Current(source, files[i])
  }

  /** From a to b, rows were only added or replaced by current ones of files. */
  ghost predicate Refreshed(source: Source, a: ExtentCache, b: ExtentCache, files: seq<Stamp>) {
    && (forall p :: p in a ==> p in b)
    && (forall p :: p in b ==> (p in a && b[p] == a[p]) || NewRow(source, files, p, b[p]))
  }

  /** fileExtents after i files: before is the cache it started from, extents the
      answers so far, unsaved the rows read but not yet written. */
  ghost predicate Scanned(source: Source, before: ExtentCache, cache: ExtentCache, files: seq<Stamp>, i: nat,
                          extents: seq<Declared>, unsaved: ExtentCache)
    requires i <= |files|
  {
    && Agrees(source, before) && Agrees(source, cache) && Refreshed(source, before, cache, files)
    && |extents| == i && (forall j :: 0 <= j < i ==> extents[j] == source(files[j]).declared)
    && (forall p :: p in unsaved ==> NewRow(source, files[..i], p, unsaved[p]))
    && (forall j :: 0 <= j < i ==> files[j].path in unsaved || UpToDate(source, cache, files[j]))
  }

  lemma ScanHit(source: Source, before: ExtentCache, cache: ExtentCache, files: seq<Stamp>, i: nat,
                extents: seq<Declared>, unsaved: ExtentCache)
    requires i < |files| && DistinctPaths(files)
    requires Scanned(source, before, cache, files, i, extents, unsaved)
    requires var f := files[i];
             f.path in before && before[f.path].size == f.size && before[f.path].mtime == f.mtime
    ensures Scanned(source, before, cache, files, i + 1, extents + [before[files[i].path].declared], unsaved)
  {
    assert UpToDate(source, before, files[i]);
    forall p | p in unsaved ensures NewRow(source, files[..i + 1], p, unsaved[p]) {
      var j :| 0 <= j < |files[..i]| && files[..i][j].path == p && unsaved[p] == Current(source, files[..i][j]);
      assert files[..i + 1][j] == files[..i][j];
    }
    var f := files[i];
    assert cache[f.path] == before[f.path] || NewRow(source, files, f.path, cache[f.path]);
    assert UpToDate(source, cache, f);
  }

  lemma ScanMiss(source: Source, before: ExtentCache, cache: ExtentCache, files: seq<Stamp>, i: nat,
                 extents: seq<Declared>, unsaved: ExtentCache)
    requires i < |files| && DistinctPaths(files)
    requires Scanned(source, before, cache, files, i, extents, unsaved)
    ensures Scanned(source, before, cache, files, i + 1, extents + [source(files[i]).declared],
                    unsaved[files[i].path := Current(source, files[i])])
  {
    var late := unsaved[files[i].path := Current(source, files[i])];
    forall p | p in late ensures NewRow(source, files[..i + 1], p, late[p]) {
      if p == files[i].path {
        assert files[..i + 1][i].path == p;
      } else {
        var j :| 0 <= j < |files[..i]| && files[..i][j].path == p && unsaved[p] == Current(source, files[..i][j]);
        assert files[..i + 1][j] == files[..i][j];
      }
    }
  }

  /** Writing some of the unsaved rows keeps the cache in agreement. */
  lemma ScanStore(source: Source, before: ExtentCache, cache: ExtentCache, files: seq<Stamp>, i: nat,
                  extents: seq<Declared>, unsaved: ExtentCache, after: ExtentCache)
    requires i <= |files| && DistinctPaths(files)
    requires Scanned(source, before, cache, files, i, extents, unsaved)
    requires forall p :: p in cache ==> p in after
    requires forall p :: p in after ==>
      (p in cache && after[p] == cache[p]) || (p in unsaved && after[p] == unsaved[p])
    ensures Agrees(source, after) && Refreshed(source, before, after, files)
  {
    forall p | p in after && p in unsaved && after[p] == unsaved[p] ensures NewRow(source, files, p, after[p]) {
      var j :| 0 <= j < |files[..i]| && files[..i][j].path == p && unsaved[p] == Current(source, files[..i][j]);
      assert files[j] == files[..i][j];
    }
  }

  /** Writing all of them leaves nothing unsaved. */
  lemma ScanStoreAll(source: Source, before: ExtentCache, cache: ExtentCache, files: seq<Stamp>, i: nat,
                     extents: seq<Declared>, unsaved: ExtentCache)
    requires i <= |files| && DistinctPaths(files)
    requires Scanned(source, before, cache, files, i, extents, unsaved)
    ensures Scanned(source, before, cache + unsaved, files, i, extents, map[])
  {
    var after := cache + unsaved;
    ScanStore(source, before, cache, files, i, extents, unsaved, after);
    forall j | 0 <= j < i ensures UpToDate(source, after, files[j]) {
      SavedRow(source, cache, files, i, unsaved, j);
    }
  }

  lemma SavedRow(source: Source, cache: ExtentCache, files: seq<Stamp>, i: nat, unsaved: ExtentCache, j: nat)
    requires j < i <= |files| && DistinctPaths(files)
    requires forall p :: p in unsaved ==> NewRow(source, files[..i], p, unsaved[p])
    requires files[j].path in unsaved || UpToDate(source, cache, files[j])
    ensures UpToDate(source, cache + unsaved, files[j])
  {
    var p := files[j].path;
    if p in unsaved {
      var k :| 0 <= k < |files[..i]| && files[..i][k].path == p && unsaved[p] == Current(source, files[..i][k]);
      assert files[k].path == files[j].path;
      assert k == j;
    }
  }

  const EXTENT_STORE_CHUNK: nat := 500

  ghost predicate ReadAll(source: Source, cache: ExtentCache, files: seq<Stamp>, extents: seq<Declared>) {
    && |extents| == |files|
    && forall i :: 0 <= i < |files| ==>
         extents[i] == source(files[i]).declared && UpToDate(source, cache, files[i])
  }

  /** The file that stopped a scan, with fewer than a chunk of its predecessors lost. */
  ghost predicate FailedAt(source: Source, cache: ExtentCache, files: seq<Stamp>, io: ReadFaults, reached: nat) {
    && reached < |files| && (reached in io.stat || reached in io.read)
    && |set j: nat | j < reached && !UpToDate(source, cache, files[j])| < EXTENT_STORE_CHUNK
  }

  class ImportStore {
    const source: Source
    const project: Projection
    var rows: seq<Row>
    var imported: set<string>
    var cache: ExtentCache

    constructor (source: Source, project: Projection)
      ensures this.source == source && this.project == project
      ensures State() == Db([], {}) && cache == map[]
    {
      this.source, this.project := source, project;
      rows, imported, cache := [], {}, map[];
    }

    function State(): Db
      reads this
    {
      Db(rows, imported)
    }

    /** Writes the unsaved rows of files in file order; a failed write may have kept
        any of them. */
    method StoreExtents(files: seq<Stamp>, unsaved: ExtentCache, kept: Option<set<string>>) returns (ok: bool)
      requires forall p :: p in unsaved ==> exists i :: 0 <= i < |files| && files[i].path == p
      modifies this`cache
      ensures ok ==> cache == old(cache) + unsaved
      ensures forall p :: p in old(cache) ==> p in cache
      ensures forall p :: p in cache ==> (p in old(cache) && cache[p] == old(cache)[p]) || (p in unsaved && cache[p] == unsaved[p])
      ensures kept.None? ==> ok
    {
      if |unsaved| == 0 {
        return true;
      }
      var batch: ExtentCache := map[];
      for i := 0 to |files|
        invariant forall p :: p in batch ==> p in unsaved && batch[p] == unsaved[p]
        invariant forall j :: 0 <= j < i && files[j].path in unsaved ==> files[j].path in batch
      {
        if files[i].path in unsaved {
          batch := batch[files[i].path := unsaved[files[i].path]];
        }
      }
      assert batch == unsaved;
      match kept {
        case Some(paths) =>
          cache := cache + map p | p in batch && p in paths :: batch[p];
          return false;
        case None =>
          cache := cache + batch;
          return true;
      }
    }

    /** Writes what has been read but not yet stored. */
    method SaveExtents(files: seq<Stamp>, unsaved: ExtentCache, kept: Option<set<string>>,
                       ghost before: ExtentCache, ghost i: nat, ghost extents: seq<Declared>) returns (ok: bool)
      requires i <= |files| && DistinctPaths(files)
      requires Scanned(source, before, cache, files, i, extents, unsaved)
      modifies this`cache
      ensures !ok ==> Agrees(source, cache) && Refreshed(source, before, cache, files)
      ensures ok ==> Scanned(source, before, cache, files, i, extents, map[])
      ensures kept.None? ==> ok
    {
      ghost var written := cache;
      UnsavedAreListed(source, files, i, unsaved);
      ok := StoreExtents(files, unsaved, kept);
      ScanStore(source, before, written, files, i, extents, unsaved, cache);
      if ok {
        ScanStoreAll(source, before, written, files, i, extents, unsaved);
      }
    }

    /** A full chunk is stored at once, so a long first read keeps its progress. */
    method SaveFullChunk(files: seq<Stamp>, unsaved: ExtentCache, io: ReadFaults, flush: nat,
                         ghost before: ExtentCache, ghost i: nat, ghost extents: seq<Declared>)
      returns (ok: bool, left: ExtentCache, flushes: nat)
      requires i <= |files| && DistinctPaths(files) && |unsaved| <= EXTENT_STORE_CHUNK
      requires Scanned(source, before, cache, files, i, extents, unsaved)
      modifies this`cache
      ensures !ok ==> Agrees(source, cache) && Refreshed(source, before, cache, files)
      ensures ok ==> Scanned(source, before, cache, files, i, extents, left) && |left| < EXTENT_STORE_CHUNK
      ensures io.store == map[] ==> ok
    {
      if |unsaved| < EXTENT_STORE_CHUNK {
        return true, unsaved, flush;
      }
      ok := SaveExtents(files, unsaved, FlushFault(io, flush), before, i, extents);
      return ok, map[], flush + 1;
    }

    /** fileExtents: whatever happens, the cache still agrees with the files and
        changes only rows of files. On success the result is what reading every
        file would give, and every file has a current row. When a file cannot be
        read, fewer than a chunk of the files before it go unsaved. */
    method FileExtents(files: seq<Stamp>, io: ReadFaults) returns (r: Outcome<seq<Declared>>, ghost reached: nat)
      requires Agrees(source, cache) && DistinctPaths(files)
      modifies this`cache
      ensures Agrees(source, cache) && Refreshed(source, old(cache), cache, files)
      ensures r.Ok? ==> ReadAll(source, cache, files, r.value)
      ensures r.Err? && !io.query && io.store == map[] ==> FailedAt(source, cache, files, io, reached)
      ensures io == NO_READ_FAULTS ==> r.Ok?
    {
      reached := 0;
      if io.query {
        return Err, reached;
      }
      var extents: seq<Declared>;
      var unsaved: ExtentCache;
      var flush: nat;
      var ok: bool;
      ok, extents, unsaved, flush, reached := ScanFiles(files, io);
      if ok {
        ok := SaveExtents(files, unsaved, FlushFault(io, flush), old(cache), |files|, extents);
      }
      return if ok then Ok(extents) else Err, reached;
    }

    /** One file of the loop: its cached extent when its stamp is unchanged, its own
        otherwise. */
    method ScanFile(files: seq<Stamp>, i: nat, io: ReadFaults, extents: seq<Declared>, unsaved: ExtentCache,
                    flush: nat, cached: ExtentCache)
      returns (ok: bool, answers: seq<Declared>, left: ExtentCache, flushes: nat)
      requires i < |files| && DistinctPaths(files) && |unsaved| < EXTENT_STORE_CHUNK
      requires Scanned(source, cached, cache, files, i, extents, unsaved)
      modifies this`cache
      ensures !ok ==> Agrees(source, cache) && Refreshed(source, cached, cache, files)
      ensures ok ==> Scanned(source, cached, cache, files, i + 1, answers, left) && |left| < EXTENT_STORE_CHUNK
      ensures !ok && io.store == map[] ==> FailedAt(source, cache, files, io, i)
      ensures i !in io.stat && i !in io.read && io.store == map[] ==> ok
    {
      var f := files[i];
      answers, left, flushes := extents, unsaved, flush;
      var hit := f.path in cached && cached[f.path].size == f.size && cached[f.path].mtime == f.mtime;
      if i in io.stat || (!hit && i in io.read) {
        ScanStops(source, cached, cache, files, i, extents, unsaved);
        return false, answers, left, flushes;
      }
      if hit {
        ScanHit(source, cached, cache, files, i, extents, unsaved);
        return true, extents + [cached[f.path].declared], left, flushes;
      }
      ScanMiss(source, cached, cache, files, i, extents, unsaved);
      answers, left := extents + [source(f).declared], unsaved[f.path := Cached(f.size, f.mtime, source(f).declared)];
      ok, left, flushes := SaveFullChunk(files, left, io, flush, cached, i + 1, answers);
    }

    /** The loop of fileExtents. */
    method ScanFiles(files: seq<Stamp>, io: ReadFaults)
      returns (ok: bool, extents: seq<Declared>, unsaved: ExtentCache, flush: nat, reached: nat)
      requires Agrees(source, cache) && DistinctPaths(files)
      modifies this`cache
      ensures Agrees(source, cache) && Refreshed(source, old(cache), cache, files)
      ensures ok ==> Scanned(source, old(cache), cache, files, |files|, extents, unsaved)
      ensures !ok && io.store == map[] ==> FailedAt(source, cache, files, io, reached)
      ensures io.stat == {} && io.read == {} && io.store == map[] ==> ok
    {
      var cached := cache;
      ok, extents, unsaved, flush, reached := true, [], map[], 0, 0;
      while reached < |files|
        invariant 0 <= reached <= |files| && Scanned(source, cached, cache, files, reached, extents, unsaved)
        invariant ok && |unsaved| < EXTENT_STORE_CHUNK
      {
        ok, extents, unsaved, flush := ScanFile(files, reached, io, extents, unsaved, flush, cached);
        if !ok {
          return;
        }
        reached := reached + 1;
      }
    }

    /** fingerprintFiles; unstatable says that some file's stat fails. */
    method FingerprintFiles(files: seq<Stamp>, unstatable: bool) returns (r: Outcome<string>)
      ensures r == if unstatable then Err else Ok(FingerprintText(files))
    {
      if unstatable {
        return Err;
      }
      var text := "";
      FingerprintStart(files);
      for i := 0 to |files|
        invariant text + FingerprintText(files[i..]) == FingerprintText(files)
      {
        var entry := StampText(files[i]);
        FingerprintRest(files, i, text);
        text := text + entry;
      }
      FingerprintEnd(files, text);
      return Ok(text);
    }

    /** intersects: whether e meets b, projecting b once per CRS into inEPSG. */
    method Meets(e: Declared, b: Bbox, inEPSG: map<int, Bbox>, broken: set<int>)
      returns (r: Outcome<bool>, memo: map<int, Bbox>)
      requires forall c :: c in inEPSG ==> inEPSG[c] == project(c, b)
      ensures forall c :: c in memo ==> memo[c] == project(c, b)
      ensures r.Ok? ==> (r.value <==> Keeps(project, e, b))
      ensures broken == {} ==> r.Ok?
    {
      memo := inEPSG;
      if e.Unreadable? || e.epsg.None? {
        return Ok(true), memo;
      }
      var epsg := e.epsg.value;
      if epsg !in memo {
        if epsg in broken {
          return Err, memo;
        }
        memo := memo[epsg := project(epsg, b)];
      }
      var t := memo[epsg];
      return Ok(e.box.xmin <= t.xmax && e.box.xmax >= t.xmin && e.box.ymin <= t.ymax && e.box.ymax >= t.ymin), memo;
    }

    /** The inner loop of selectFiles: the files of one folder that meet b. */
    method KeepMeeting(files: seq<Stamp>, extents: seq<Declared>, b: Bbox, inEPSG: map<int, Bbox>, broken: set<int>)
      returns (kept: Outcome<seq<Stamp>>, memo: map<int, Bbox>)
      requires |extents| == |files| && forall i :: 0 <= i < |files| ==> extents[i] == source(files[i]).declared
      requires forall c :: c in inEPSG ==> inEPSG[c] == project(c, b)
      ensures forall c :: c in memo ==> memo[c] == project(c, b)
      ensures kept.Ok? ==> kept.value == Kept(source, project, files, b)
      ensures broken == {} ==> kept.Ok?
    {
      memo := inEPSG;
      var meeting: seq<Stamp> := [];
      for j := 0 to |files|
        invariant forall c :: c in memo ==> memo[c] == project(c, b)
        invariant meeting == Kept(source, project, files[..j], b)
      {
        var keep;
        keep, memo := Meets(extents[j], b, memo, broken);
        if keep.Err? {
          return Err, memo;
        }
        KeptOneMore(source, project, files[..j], files[j], b);
        assert files[..j + 1] == files[..j] + [files[j]];
        if keep.value {
          meeting := meeting + [files[j]];
        }
      }
      assert files[..|files|] == files;
      return Ok(meeting), memo;
    }

    /** selectFiles: per model folder the files to import for b, and their
        fingerprint. Only the extent cache changes. */
    method SelectFiles(folder: seq<InputFolder>, b: Bbox, io: SelectFaults)
      returns (r: Outcome<(seq<seq<Stamp>>, string)>)
      requires Agrees(source, cache) && ValidFolder(folder)
      modifies this`cache
      ensures Agrees(source, cache)
      ensures r.Ok? ==> r.value.0 == Selection(source, project, folder, b) && r.value.1 == FingerprintText(Concat(r.value.0))
      ensures io == NO_SELECT_FAULTS ==> r.Ok?
    {
      var inEPSG: map<int, Bbox> := map[];
      var selection: seq<seq<Stamp>> := [];
      var all: seq<Stamp> := [];
      for i := 0 to |folder|
        invariant Agrees(source, cache)
        invariant forall c :: c in inEPSG ==> inEPSG[c] == project(c, b)
        invariant selection == Selection(source, project, folder[..i], b) && all == Concat(selection)
      {
        if i in io.list {
          return Err;
        }
        var files := folder[i].models;
        var extents, _ := FileExtents(files, if i in io.extents then io.extents[i] else NO_READ_FAULTS);
        if extents.Err? {
          return Err;
        }
        var kept;
        kept, inEPSG := KeepMeeting(files, extents.value, b, inEPSG, io.project);
        if kept.Err? {
          return Err;
        }
        ConcatOneMore(selection, kept.value);
        SelectionOneMore(source, project, folder, i, b);
        selection, all := selection + [kept.value], all + kept.value;
      }
      assert folder[..|folder|] == folder;
      var fingerprint := FingerprintFiles(all, io.stat);
      if fingerprint.Err? {
        return Err;
      }
      return Ok((selection, fingerprint.value));
    }

    /** importCityDBFiles: one citydb-tool call per model folder, none for a folder
        the selection leaves empty. */
    method ImportCityDBFiles(files: seq<seq<Stamp>>, skipEmpty: bool, filter: Filter, tool: seq<ToolRun>) returns (ok: bool)
      modifies this`imported
      ensures var (added, good) := ImportFrom(source, files, skipEmpty, filter, tool, 0);
              imported == old(imported) + added && ok == good
    {
      ghost var added: set<string> := {};
      for i := 0 to |files|
        invariant imported == old(imported) + added
        invariant ImportFrom(source, files, skipEmpty, filter, tool, 0).0
                  == added + ImportFrom(source, files, skipEmpty, filter, tool, i).0
        invariant ImportFrom(source, files, skipEmpty, filter, tool, 0).1
                  == ImportFrom(source, files, skipEmpty, filter, tool, i).1
      {
        if skipEmpty && files[i] == [] {
          continue;
        }
        var targets := Targets(source, files[i], filter);
        match ToolAt(tool, i) {
          case Crashed(part) =>
            imported := imported + targets * part;
            return false;
          case Capped(part) =>
            imported, added := imported + targets * part, added + targets * part;
          case Completed =>
            imported, added := imported + targets, added + targets;
        }
      }
      return true;
    }

    method ExtentImported(dataset: string, fingerprint: string, b: Bbox, mode: Mode, fails: bool) returns (r: Outcome<bool>)
      ensures r == if fails then Err else Ok(Covered(rows, dataset, fingerprint, b, mode))
    {
      if fails {
        return Err;
      }
      return Ok(exists i :: 0 <= i < |rows| && CoveredBy(rows[i], dataset, fingerprint, b, mode));
    }

    /** recordExtent: one transaction, so a failure changes nothing. */
    method RecordExtent(dataset: string, fingerprint: string, b: Bbox, mode: Mode, fails: bool) returns (ok: bool)
      modifies this`rows
      ensures ok == !fails
      ensures rows == if ok then Record(old(rows), Row(dataset, fingerprint, mode, b)) else old(rows)
    {
      if fails {
        return false;
      }
      var n := Row(dataset, fingerprint, mode, b);
      rows := WithoutOutdated(rows, n);
      rows := rows + [n];
      return true;
    }

    method ImportWholeFolderOnce(dataset: string, folder: seq<InputFolder>, fingerprint: string, io: Faults) returns (ok: bool)
      requires fingerprint == FingerprintText(Concat(AllFiles(folder)))
      modifies this`rows, this`imported
      ensures (State(), ok) == ImportWhole(source, old(State()), dataset, folder, io)
    {
      var covered := ExtentImported(dataset, fingerprint, WHOLE_FOLDER, Intersects, io.check);
      if covered.Err? || covered.value {
        return covered.Ok?;
      }
      ok := ImportCityDBFiles(AllModels(folder), false, Everything, io.tool);
      if !ok {
        return false;
      }
      ok := RecordExtent(dataset, fingerprint, WHOLE_FOLDER, Intersects, io.record);
    }

    method ImportBboxOnce(dataset: string, folder: seq<InputFolder>, b: Bbox, mode: Mode, folderFingerprint: string,
                          io: Faults) returns (ok: bool, ghost selected: bool)
      requires folderFingerprint == FingerprintText(Concat(AllFiles(folder)))
      requires Agrees(source, cache) && ValidFolder(folder)
      modifies this`rows, this`imported, this`cache
      ensures Agrees(source, cache)
      ensures (State(), ok) == ImportArea(source, project, old(State()), dataset, folder, b, mode, selected, io)
      ensures io.select == NO_SELECT_FAULTS ==> selected
    {
      selected := true;
      var covered := ExtentImported(dataset, folderFingerprint, b, mode, io.check);
      if covered.Err? {
        return false, selected;
      }
      if covered.value {
        return true, selected;
      }
      var choice := SelectFiles(folder, b, io.select);
      if choice.Err? {
        return false, false;
      }
      var (selection, fingerprint) := choice.value;
      covered := ExtentImported(dataset, fingerprint, b, mode, io.recheck);
      if covered.Err? {
        return false, selected;
      }
      if covered.value {
        return true, selected;
      }
      ok := ImportCityDBFiles(selection, true, Box(b, mode), io.tool);
      if !ok {
        return false, selected;
      }
      ok := RecordExtent(dataset, fingerprint, b, mode, io.record);
    }

    /** importDatasetOnce: a limited import is neither skipped nor recorded. */
    method ImportDatasetOnce(dataset: string, folder: seq<InputFolder>, request: Request, limited: bool, io: Faults)
      returns (ok: bool, ghost selected: bool)
      requires Agrees(source, cache) && ValidFolder(folder)
      modifies this`rows, this`imported, this`cache
      ensures Agrees(source, cache)
      ensures (State(), ok) == ImportDataset(source, project, old(State()), dataset, folder, request, limited, selected, io)
      ensures io.select == NO_SELECT_FAULTS ==> selected
    {
      selected := true;
      if limited {
        if request.BadBox? {
          return false, selected;
        }
        var filter := if request.Whole? then Everything else Box(request.b, request.mode);
        ok := ImportCityDBFiles(AllModels(folder), false, filter, io.tool);
        return ok, selected;
      }
      var fingerprint := FingerprintFiles(Concat(AllFiles(folder)), io.fingerprint);
      if fingerprint.Err? {
        return false, selected;
      }
      match request {
        case Whole =>
          ok := ImportWholeFolderOnce(dataset, folder, fingerprint.value, io);
        case Area(b, mode) =>
          ok, selected := ImportBboxOnce(dataset, folder, b, mode, fingerprint.value, io);
        case BadBox =>
          ok := false;
      }
    }
  }

  lemma FingerprintStart(files: seq<Stamp>)
    ensures "" + FingerprintText(files[0..]) == FingerprintText(files)
  {
    assert files[0..] == files;
  }

  lemma FingerprintEnd(files: seq<Stamp>, text: string)
    ensures text + FingerprintText(files[|files|..]) == text
  {
    assert files[|files|..] == [];
  }

  lemma FingerprintRest(files: seq<Stamp>, i: nat, text: string)
    requires i < |files|
    ensures text + FingerprintText(files[i..]) == text + StampText(files[i]) + FingerprintText(files[i + 1..])
  {
    assert files[i..][1..] == files[i + 1..];
    var head, tail := StampText(files[i]), FingerprintText(files[i + 1..]);
    assert text + (head + tail) == text + head + tail;
  }

  lemma {:induction false} KeptOneMore(source: Source, project: Projection, files: seq<Stamp>, f: Stamp, b: Bbox)
    ensures Kept(source, project, files + [f], b)
            == Kept(source, project, files, b) + if Keeps(project, source(f).declared, b) then [f] else []
  {
    if files != [] {
      KeptOneMore(source, project, files[1..], f, b);
      assert (files + [f])[1..] == files[1..] + [f];
    }
  }

  lemma SelectionOneMore(source: Source, project: Projection, folder: seq<InputFolder>, i: nat, b: Bbox)
    requires i < |folder|
    ensures Selection(source, project, folder[..i + 1], b)
            == Selection(source, project, folder[..i], b) + [Kept(source, project, folder[i].models, b)]
  {
  }

  lemma UnsavedAreListed(source: Source, files: seq<Stamp>, i: nat, unsaved: ExtentCache)
    requires i <= |files| && forall p :: p in unsaved ==> NewRow(source, files[..i], p, unsaved[p])
    ensures forall p :: p in unsaved ==> exists j :: 0 <= j < |files| && files[j].path == p
  {
    forall p | p in unsaved ensures exists j :: 0 <= j < |files| && files[j].path == p {
      var j :| 0 <= j < |files[..i]| && files[..i][j].path == p;
      assert files[j].path == p;
    }
  }

  lemma ScanStops(source: Source, before: ExtentCache, cache: ExtentCache, files: seq<Stamp>, i: nat,
                  extents: seq<Declared>, unsaved: ExtentCache)
    requires i < |files| && DistinctPaths(files) && |unsaved| < EXTENT_STORE_CHUNK
    requires Scanned(source, before, cache, files, i, extents, unsaved)
    ensures Agrees(source, cache) && Refreshed(source, before, cache, files)
    ensures |set j: nat | j < i && !UpToDate(source, cache, files[j])| < EXTENT_STORE_CHUNK
  {
    FewUnsaved(source, cache, files, i, unsaved);
  }

  /** The files not saved before i are among the unsaved rows. */
  lemma FewUnsaved(source: Source, cache: ExtentCache, files: seq<Stamp>, i: nat, unsaved: ExtentCache)
    requires i <= |files| && DistinctPaths(files)
    requires forall j :: 0 <= j < i ==> files[j].path in unsaved || UpToDate(source, cache, files[j])
    ensures |set j: nat | j < i && !UpToDate(source, cache, files[j])| <= |unsaved|
  {
    var late := set j: nat | j < i && !UpToDate(source, cache, files[j]);
    var paths := set j | j in late :: files[j].path;
    ImageSize(late, paths, files);
    assert paths <= unsaved.Keys;
    SubsetSize(paths, unsaved.Keys);
  }

  lemma {:induction false} ImageSize(indices: set<nat>, paths: set<string>, files: seq<Stamp>)
    requires DistinctPaths(files) && forall j :: j in indices ==> j < |files|
    requires paths == set j | j in indices :: files[j].path
    ensures |paths| == |indices|
    decreases |indices|
  {
    if indices != {} {
      var x :| x in indices;
      var rest := indices - {x};
      forall j | j in rest ensures files[j].path != files[x].path {
      }
      assert paths - {files[x].path} == set j | j in rest :: files[j].path;
      ImageSize(rest, paths - {files[x].path}, files);
    }
  }
}
