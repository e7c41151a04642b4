/** Incremental post-processing against full recomputation, over every history of
    area runs and whole-table runs. */
module ExtractionHistory {
  import opened Geometry
  import opened Nearness
  import opened Numbers
  import opened Wrappers
  import opened Extraction
  import opened Sequences

  datatype RunOf = RunOf(s: Sources, area: Option<Bbox>, cfg: Settings, f: Faults)

  datatype Setting = Setting(geo2: Geography, geo3: Geography, postScripts: nat)

  function GeoOf(w: Setting, lod: int): Geography {
    if lod == 2 then w.geo2 else w.geo3
  }

  ghost predicate Shaped(w: Setting, t: Tables) {
    |t.lod2.marks| == |t.lod3.marks| == w.postScripts
  }

  function Empty(w: Setting): Tables {
    var none := Table({}, seq(w.postScripts, _ => map[]));
    Tables(none, none)
  }

  function Step(w: Setting, t: Tables, r: RunOf): (Tables, bool)
    requires Shaped(w, t)
  {
    Run(w.geo2, w.geo3, w.postScripts, t, r.s, r.area, r.cfg, r.f)
  }

  function EffectOn(w: Setting, t: Tables, r: RunOf, lod: int): Effect {
    var (e2, e3, ok) := Effects(w.geo2, w.geo3, w.postScripts, t, r.s, r.area, r.cfg, r.f);
    if lod == 2 then e2 else e3
  }

  function After(w: Setting, t: Tables, runs: seq<RunOf>): (r: Tables)
    requires Shaped(w, t)
    ensures Shaped(w, r)
    decreases |runs|
  {
    if runs == [] then t else After(w, Step(w, t, runs[0]).0, runs[1..])
  }

  ghost predicate AllReturnNil(w: Setting, t: Tables, runs: seq<RunOf>)
    requires Shaped(w, t)
    decreases |runs|
  {
    runs != [] ==> Step(w, t, runs[0]).1 && AllReturnNil(w, Step(w, t, runs[0]).0, runs[1..])
  }

  // ---- What a run does to one table ----

  lemma {:induction false} MarksAfter(geo: Geography, t: Table, n: nat, scope: Option<set<Id>>, k: nat)
    requires n <= |t.marks| && k < |t.marks|
    ensures MarkedBefore(geo, t, n, scope).marks[k]
            == if k < n then t.marks[k] + Recomputed(geo, t.rows, scope) else t.marks[k]
  {
    if n > 0 {
      MarksAfter(geo, t, n - 1, scope, k);
    }
  }

  /** A run's rows come from what it extracted; one that returned nil extracted
      nothing here, or wrote every row and ran every script. */
  ghost predicate WellShaped(geo: Geography, n: nat, e: Effect, ok: bool) {
    && e.scripts <= n
    && e.added <= Rows(geo, e.extracted)
    && (ok ==> (e.extracted == [] && e.added == {}) || (e.added == Rows(geo, e.extracted) && e.scripts == n))
  }

  lemma {:induction false} SelectedFrom(t: Tables, s: Sources, area: Option<Bbox>, cfg: Settings, f: Faults, i: nat,
                                        ids2: seq<Id>, ids3: seq<Id>)
    requires i <= |cfg.levels| && Selected(t, s, area, cfg, f, i, ids2, ids3).Ok?
    ensures var (r2, r3) := Selected(t, s, area, cfg, f, i, ids2, ids3).value;
            && (r2 == ids2 || r2 == ToExtract(s.lod2, t.lod2.rows, area, cfg.limit))
            && (r3 == ids3 || r3 == ToExtract(s.lod3, t.lod3.rows, area, cfg.limit))
            && (2 in cfg.levels[i..] && ToExtract(s.lod2, t.lod2.rows, area, cfg.limit) != [] ==>
                  r2 == ToExtract(s.lod2, t.lod2.rows, area, cfg.limit))
            && (3 in cfg.levels[i..] && ToExtract(s.lod3, t.lod3.rows, area, cfg.limit) != [] ==>
                  r3 == ToExtract(s.lod3, t.lod3.rows, area, cfg.limit))
    decreases |cfg.levels| - i
  {
    if i < |cfg.levels| {
      var lod := cfg.levels[i];
      var ids := ToExtract(SourceOf(s, lod), TableOf(t, lod).rows, area, cfg.limit);
      assert cfg.levels[i..] == [lod] + cfg.levels[i + 1..];
      if ids == [] {
        SelectedFrom(t, s, area, cfg, f, i + 1, ids2, ids3);
      } else if lod == 2 {
        SelectedFrom(t, s, area, cfg, f, i + 1, ids, ids3);
      } else {
        SelectedFrom(t, s, area, cfg, f, i + 1, ids2, ids);
      }
    }
  }

  lemma EffectsAreShaped(w: Setting, t: Tables, r: RunOf, lod: int)
    requires Shaped(w, t) && (lod == 2 || lod == 3)
    ensures WellShaped(GeoOf(w, lod), w.postScripts, EffectOn(w, t, r, lod), Step(w, t, r).1)
    ensures EffectOn(w, t, r, lod).whole == r.area.None?
    ensures TableOf(Step(w, t, r).0, lod) == Apply(GeoOf(w, lod), TableOf(t, lod), EffectOn(w, t, r, lod))
  {
  }

  /** A nil run without a limit extracts everything it picks that has no row yet. */
  lemma NothingIsLeftOut(w: Setting, t: Tables, r: RunOf, lod: int, id: Id)
    requires Shaped(w, t) && (lod == 2 || lod == 3) && Step(w, t, r).1
    requires lod in r.cfg.levels && r.cfg.limit <= 0 && id in BuildingIds(SourceOf(r.s, lod), r.area)
    ensures id in TableOf(t, lod).rows || id in EffectOn(w, t, r, lod).extracted
  {
    SelectedFrom(t, r.s, r.area, r.cfg, r.f, 0, [], []);
    assert r.cfg.levels[0..] == r.cfg.levels;
    UnprocessedMembers(BuildingIds(SourceOf(r.s, lod), r.area), TableOf(t, lod).rows, id);
  }

  /** The buildings a run is to look at that have no row yet. */
  function Open(source: seq<Building>, area: Option<Bbox>, rows: set<Id>): set<Id> {
    set b | b in source && (area.None? || Picked(source, area.value, b)) && b.id !in rows :: b.id
  }

  lemma OpenExactly(source: seq<Building>, area: Option<Bbox>, rows: set<Id>, id: Id)
    ensures id in Open(source, area, rows) <==> id in Unprocessed(BuildingIds(source, area), rows)
  {
    PickedMembers(source, area, source, id);
    UnprocessedMembers(BuildingIds(source, area), rows, id);
    if id in Open(source, area, rows) {
      var b :| b in source && (area.None? || Picked(source, area.value, b)) && b.id == id;
      var i :| 0 <= i < |source| && source[i] == b;
      assert PickedAmong(source, area, source, id);
    }
  }

  lemma {:induction false} UnprocessedAscends(ids: seq<Id>, processed: set<Id>)
    requires Ascending(ids)
    ensures Ascending(Unprocessed(ids, processed))
  {
    if ids != [] {
      UnprocessedAscends(ids[1..], processed);
      var rest := Unprocessed(ids[1..], processed);
      forall j | 0 <= j < |rest| ensures ids[0] < rest[j] {
        UnprocessedMembers(ids[1..], processed, rest[j]);
        var k :| 0 <= k < |ids[1..]| && ids[1..][k] == rest[j];
        assert ids[k + 1] == rest[j];
      }
    }
  }

  function Members(ids: seq<Id>): set<Id> {
    set id | id in ids
  }

  lemma {:induction false} AscendingSize(ids: seq<Id>)
    requires Ascending(ids)
    ensures |Members(ids)| == |ids|
  {
    if ids != [] {
      AscendingSize(ids[1..]);
      assert ids == [ids[0]] + ids[1..];
      assert Members(ids) == {ids[0]} + Members(ids[1..]);
    }
  }

  /** These are the smallest of all, as many as a positive limit allows. */
  ghost predicate SmallestOf(ids: seq<Id>, all: set<Id>, limit: int) {
    && Ascending(ids) && |ids| == (if limit > 0 then Min(limit, |all|) else |all|)
    && (forall id :: id in ids ==> id in all)
    && forall id, x :: id in ids && x in all && x !in ids ==> id < x
  }

  lemma InPrefix(ids: seq<Id>, n: nat, i: nat)
    requires i < |ids| && n <= |ids|
    ensures i < n ==> ids[i] in ids[..n]
  {
    if i < n {
      assert ids[..n][i] == ids[i];
    }
  }

  lemma CutIsSmallest(ids: seq<Id>, all: set<Id>, limit: int)
    requires Ascending(ids) && all == Members(ids)
    ensures SmallestOf(Limited(ids, limit), all, limit)
  {
    AscendingSize(ids);
    var some := Limited(ids, limit);
    assert some == ids[..|some|];
    forall id, x | id in some && x in all && x !in some ensures id < x {
      var i :| 0 <= i < |some| && some[i] == id;
      var j :| 0 <= j < |ids| && ids[j] == x;
      assert ids[i] == id;
      InPrefix(ids, |some|, j);
    }
  }

  /** At each level it is configured for, a run whose selection goes through extracts the
      buildings with the smallest ids among those it picks that have no row yet, in order
      and as many as the limit allows; without a limit all of them. At other levels it
      extracts none. */
  lemma LimitTakesTheSmallest(w: Setting, t: Tables, r: RunOf, lod: int)
    requires Shaped(w, t) && (lod == 2 || lod == 3) && Selected(t, r.s, r.area, r.cfg, r.f, 0, [], []).Ok?
    ensures var ids := EffectOn(w, t, r, lod).extracted;
            && (lod in r.cfg.levels ==> SmallestOf(ids, Open(SourceOf(r.s, lod), r.area, TableOf(t, lod).rows), r.cfg.limit))
            && (lod !in r.cfg.levels ==> ids == [])
  {
    var source, rows := SourceOf(r.s, lod), TableOf(t, lod).rows;
    var open := Unprocessed(BuildingIds(source, r.area), rows);
    SelectedFrom(t, r.s, r.area, r.cfg, r.f, 0, [], []);
    NotSelected(t, r.s, r.area, r.cfg, r.f, 0, [], []);
    assert r.cfg.levels[0..] == r.cfg.levels;
    PickedAscend(source, r.area, source);
    UnprocessedAscends(BuildingIds(source, r.area), rows);
    forall id ensures id in Open(source, r.area, rows) <==> id in open {
      OpenExactly(source, r.area, rows, id);
    }
    assert Open(source, r.area, rows) == Members(open);
    CutIsSmallest(open, Open(source, r.area, rows), r.cfg.limit);
    ExtractedIsSelected(w, t, r, lod);
  }

  lemma ExtractedIsSelected(w: Setting, t: Tables, r: RunOf, lod: int)
    requires (lod == 2 || lod == 3) && Selected(t, r.s, r.area, r.cfg, r.f, 0, [], []).Ok?
    ensures var (ids2, ids3) := Selected(t, r.s, r.area, r.cfg, r.f, 0, [], []).value;
            EffectOn(w, t, r, lod).extracted == if lod == 2 then ids2 else ids3
  {
  }

  lemma {:induction false} NotSelected(t: Tables, s: Sources, area: Option<Bbox>, cfg: Settings, f: Faults, i: nat,
                                       ids2: seq<Id>, ids3: seq<Id>)
    requires i <= |cfg.levels| && Selected(t, s, area, cfg, f, i, ids2, ids3).Ok?
    ensures var (r2, r3) := Selected(t, s, area, cfg, f, i, ids2, ids3).value;
            (2 !in cfg.levels[i..] ==> r2 == ids2) && (3 !in cfg.levels[i..] ==> r3 == ids3)
    decreases |cfg.levels| - i
  {
    if i < |cfg.levels| {
      var lod := cfg.levels[i];
      var ids := ToExtract(SourceOf(s, lod), TableOf(t, lod).rows, area, cfg.limit);
      assert cfg.levels[i..] == [lod] + cfg.levels[i + 1..];
      if ids == [] {
        NotSelected(t, s, area, cfg, f, i + 1, ids2, ids3);
      } else if lod == 2 {
        NotSelected(t, s, area, cfg, f, i + 1, ids, ids3);
      } else {
        NotSelected(t, s, area, cfg, f, i + 1, ids2, ids);
      }
    }
  }

  /** The selection fails exactly when a level is unknown or its query fails, or it has
      buildings to extract and its dataset check fails. */
  lemma {:induction false} SelectionFailsExactly(t: Tables, s: Sources, area: Option<Bbox>, cfg: Settings, f: Faults, i: nat,
                                                 ids2: seq<Id>, ids3: seq<Id>)
    requires i <= |cfg.levels|
    ensures Selected(t, s, area, cfg, f, i, ids2, ids3).Err?
            <==> exists k :: i <= k < |cfg.levels| && LevelRefused(t, s, area, cfg, f, cfg.levels[k])
    decreases |cfg.levels| - i
  {
    if i < |cfg.levels| {
      var lod := cfg.levels[i];
      var ids := ToExtract(SourceOf(s, lod), TableOf(t, lod).rows, area, cfg.limit);
      NothingOpen(SourceOf(s, lod), area, TableOf(t, lod).rows, cfg.limit);
      if LevelRefused(t, s, area, cfg, f, lod) {
        assert cfg.levels[i] == lod;
      } else if ids == [] {
        SelectionFailsExactly(t, s, area, cfg, f, i + 1, ids2, ids3);
      } else if lod == 2 {
        SelectionFailsExactly(t, s, area, cfg, f, i + 1, ids, ids3);
      } else {
        SelectionFailsExactly(t, s, area, cfg, f, i + 1, ids2, ids);
      }
    }
  }

  predicate LevelRefused(t: Tables, s: Sources, area: Option<Bbox>, cfg: Settings, f: Faults, lod: int) {
    || (lod != 2 && lod != 3) || lod in f.query
    || (lod in f.datasets && Open(SourceOf(s, lod), area, TableOf(t, lod).rows) != {})
  }

  lemma NothingOpen(source: seq<Building>, area: Option<Bbox>, rows: set<Id>, limit: int)
    ensures ToExtract(source, rows, area, limit) == [] <==> Open(source, area, rows) == {}
  {
    var open := Unprocessed(BuildingIds(source, area), rows);
    if open != [] {
      OpenExactly(source, area, rows, open[0]);
    }
    if id :| id in Open(source, area, rows) {
      OpenExactly(source, area, rows, id);
    }
  }

  lemma {:induction false} ExtractedIsPicked(w: Setting, t: Tables, r: RunOf, lod: int, id: Id)
    requires Shaped(w, t) && (lod == 2 || lod == 3) && id in EffectOn(w, t, r, lod).extracted
    ensures id in BuildingIds(SourceOf(r.s, lod), r.area) && id !in TableOf(t, lod).rows
  {
    SelectedFrom(t, r.s, r.area, r.cfg, r.f, 0, [], []);
    UnprocessedMembers(BuildingIds(SourceOf(r.s, lod), r.area), TableOf(t, lod).rows, id);
  }

  // ---- What the post scripts reach ----

  /** Post script k gets to run at this level: something was extracted there, all jobs got
      through, no script before it or itself fails, and at level 3, neither scripts nor
      triggers of level 2 failed. */
  predicate ScriptRuns(w: Setting, t: Tables, r: RunOf, lod: int, k: nat) {
    && EffectOn(w, t, r, lod).extracted != [] && r.f.jobs.None?
    && (lod in r.f.post ==> k < r.f.post[lod])
    && (lod == 3 && EffectOn(w, t, r, 2).extracted != [] ==>
          2 !in r.f.triggers && (2 in r.f.post ==> r.f.post[2] >= w.postScripts))
  }

  lemma ScriptsOfEffect(w: Setting, t: Tables, r: RunOf, lod: int, k: nat)
    requires (lod == 2 || lod == 3) && k < w.postScripts
    ensures k < EffectOn(w, t, r, lod).scripts <==> ScriptRuns(w, t, r, lod, k)
  {
  }

  /** What a run leaves of script k's values: those of its scope are recomputed over the
      rows there are after the jobs, if the script runs, and no other value changes. */
  lemma MarksOfRun(w: Setting, t: Tables, r: RunOf, lod: int, k: nat, b: Id)
    requires Shaped(w, t) && (lod == 2 || lod == 3) && k < w.postScripts
    ensures var geo, was, after := GeoOf(w, lod), TableOf(t, lod), TableOf(Step(w, t, r).0, lod);
            var reached := ScriptRuns(w, t, r, lod, k) && b in after.rows
                           && (r.area.None? || b in PostScope(geo, after.rows, EffectOn(w, t, r, lod).extracted));
            && (reached ==> b in after.marks[k] && after.marks[k][b] == Neighbours(geo, after.rows, b))
            && (!reached ==> (b in after.marks[k] <==> b in was.marks[k])
                             && (b in was.marks[k] ==> after.marks[k][b] == was.marks[k][b]))
  {
    var geo, e := GeoOf(w, lod), EffectOn(w, t, r, lod);
    EffectsAreShaped(w, t, r, lod);
    ScriptsOfEffect(w, t, r, lod, k);
    var grown := TableOf(t, lod).(rows := TableOf(t, lod).rows + e.added);
    MarksAfter(geo, grown, e.scripts, Scope(geo, grown.rows, e), k);
  }

  /** The scope is no larger than it has to be: beside the buildings extracted it holds
      exactly the rows whose neighbours the new rows changed. */
  lemma ScopeIsWhatChanges(geo: Geography, rows: set<Id>, extracted: seq<Id>, added: set<Id>, b: Id)
    requires Symmetric(geo) && added <= (set a | a in extracted) && (forall a :: a in extracted ==> a !in rows)
    requires b !in extracted
    ensures b in PostScope(geo, rows + added, extracted)
            <==> b in rows && Neighbours(geo, rows + added, b) != Neighbours(geo, rows, b)
  {
    if b in PostScope(geo, rows + added, extracted) {
      var a :| a in extracted && a in rows + added && b in rows + added && geo.near(a, b);
      assert a in Neighbours(geo, rows + added, b) && a !in Neighbours(geo, rows, b);
    }
    if b in rows && b !in PostScope(geo, rows + added, extracted) {
      forall a | a in added ensures !geo.near(b, a) {
        assert a in extracted && (geo.near(b, a) ==> geo.near(a, b));
      }
      assert Neighbours(geo, rows + added, b) == Neighbours(geo, rows, b);
    }
  }

  // ---- Maintenance ----

  ghost predicate UpToDate(geo: Geography, t: Table, k: nat, b: Id)
    requires k < |t.marks|
  {
    b in t.marks[k] && t.marks[k][b] == Neighbours(geo, t.rows, b)
  }

  /** Every script's value for every row equals a full recomputation. */
  ghost predicate Consistent(geo: Geography, t: Table) {
    forall k: nat, b :: k < |t.marks| && b in t.rows ==> UpToDate(geo, t, k, b)
  }

  lemma NearNewIsInScope(geo: Geography, rows: set<Id>, extracted: seq<Id>, b: Id, c: Id)
    requires Symmetric(geo) && geo.near(b, c) && c in extracted && c in rows && b in rows
    ensures b in PostScope(geo, rows, extracted)
  {
    assert geo.near(c, b);
  }

  /** Outside the scope of an area run no neighbourhood changed. */
  lemma OutsideScopeUnchanged(geo: Geography, t: Table, e: Effect, b: Id)
    requires Symmetric(geo) && e.added <= Rows(geo, e.extracted)
    requires b in t.rows && b !in PostScope(geo, t.rows + e.added, e.extracted)
    ensures Neighbours(geo, t.rows + e.added, b) == Neighbours(geo, t.rows, b)
  {
    forall c | c in e.added ensures !geo.near(b, c) {
      if geo.near(b, c) {
        NearNewIsInScope(geo, t.rows + e.added, e.extracted, b, c);
        assert false;
      }
    }
  }

  lemma NilRunMaintains(geo: Geography, t: Table, e: Effect)
    requires Symmetric(geo) && Consistent(geo, t) && WellShaped(geo, |t.marks|, e, true)
    ensures Consistent(geo, Apply(geo, t, e))
  {
    var rows, after := t.rows + e.added, Apply(geo, t, e);
    var grown, scope := t.(rows := rows), Scope(geo, rows, e);
    forall k: nat, b | k < |after.marks| && b in after.rows ensures UpToDate(geo, after, k, b) {
      MarksAfter(geo, grown, e.scripts, scope, k);
      if e.extracted == [] && e.added == {} {
        assert UpToDate(geo, t, k, b);
        assert rows == t.rows;
      } else if scope.Some? && b !in scope.value {
        OutsideScopeUnchanged(geo, t, e, b);
        assert UpToDate(geo, t, k, b);
      } else {
        assert b in Recomputed(geo, rows, scope);
      }
    }
  }

  /** After every sequence of area and whole-table runs that return nil, whatever
      they selected, every stored value equals a full recomputation. */
  lemma {:induction false} IncrementalEqualsRecomputed(w: Setting, t: Tables, runs: seq<RunOf>, lod: int)
    requires Shaped(w, t) && (lod == 2 || lod == 3) && Symmetric(GeoOf(w, lod))
    requires Consistent(GeoOf(w, lod), TableOf(t, lod)) && AllReturnNil(w, t, runs)
    ensures Consistent(GeoOf(w, lod), TableOf(After(w, t, runs), lod))
    decreases |runs|
  {
    if runs != [] {
      EffectsAreShaped(w, t, runs[0], lod);
      NilRunMaintains(GeoOf(w, lod), TableOf(t, lod), EffectOn(w, t, runs[0], lod));
      IncrementalEqualsRecomputed(w, Step(w, t, runs[0]).0, runs[1..], lod);
    }
  }

  // ---- Area runs against one whole-table run ----

  /** The table a whole-table run builds from nothing. */
  function Full(geo: Geography, n: nat, source: seq<Building>): Table {
    var rows := Rows(geo, BuildingIds(source, None));
    Table(rows, seq(n, _ => Recomputed(geo, rows, None)))
  }

  /** Rows are ids of the source that yield one, and only rows have values. */
  ghost predicate WithinSource(geo: Geography, t: Table, source: seq<Building>) {
    t.rows <= Rows(geo, BuildingIds(source, None))
    && forall k :: 0 <= k < |t.marks| ==> t.marks[k].Keys <= t.rows
  }

  lemma PickedIsListed(source: seq<Building>, area: Option<Bbox>, id: Id)
    requires id in BuildingIds(source, area)
    ensures id in BuildingIds(source, None)
  {
    PickedMembers(source, area, source, id);
    PickedMembers(source, None, source, id);
  }

  lemma StaysWithinSource(w: Setting, t: Tables, r: RunOf, lod: int, source: seq<Building>)
    requires Shaped(w, t) && (lod == 2 || lod == 3) && SourceOf(r.s, lod) == source
    requires WithinSource(GeoOf(w, lod), TableOf(t, lod), source)
    ensures WithinSource(GeoOf(w, lod), TableOf(Step(w, t, r).0, lod), source)
  {
    var geo, e, was := GeoOf(w, lod), EffectOn(w, t, r, lod), TableOf(t, lod);
    EffectsAreShaped(w, t, r, lod);
    forall id | id in e.added ensures id in Rows(geo, BuildingIds(source, None)) {
      ExtractedIsPicked(w, t, r, lod, id);
      PickedIsListed(source, r.area, id);
    }
    var grown := was.(rows := was.rows + e.added);
    forall k | 0 <= k < |was.marks|
      ensures TableOf(Step(w, t, r).0, lod).marks[k].Keys <= grown.rows
    {
      MarksAfter(geo, grown, e.scripts, Scope(geo, grown.rows, e), k);
    }
  }

  lemma FullWhenAllExtracted(geo: Geography, t: Table, source: seq<Building>)
    requires Consistent(geo, t) && WithinSource(geo, t, source) && t.rows == Rows(geo, BuildingIds(source, None))
    ensures t == Full(geo, |t.marks|, source)
  {
    forall k: nat | k < |t.marks| ensures t.marks[k] == Recomputed(geo, t.rows, None) {
      forall b | b in t.rows ensures b in t.marks[k] {
        assert UpToDate(geo, t, k, b);
      }
      forall b | b in t.marks[k] ensures t.marks[k][b] == Neighbours(geo, t.rows, b) {
        assert UpToDate(geo, t, k, b);
      }
      RecomputedIsUnique(geo, t.rows, t.marks[k]);
    }
  }

  lemma RecomputedIsUnique(geo: Geography, rows: set<Id>, mark: map<Id, set<Id>>)
    requires mark.Keys <= rows
    requires forall b :: b in rows ==> b in mark
    requires forall b :: b in mark ==> mark[b] == Neighbours(geo, rows, b)
    ensures mark == Recomputed(geo, rows, None)
  {
    var full := Recomputed(geo, rows, None);
    assert forall b :: b in mark <==> b in full;
    assert forall b :: b in mark ==> mark[b] == full[b];
  }

  lemma {:induction false} RowsGrow(w: Setting, t: Tables, runs: seq<RunOf>, lod: int)
    requires Shaped(w, t) && (lod == 2 || lod == 3)
    ensures TableOf(t, lod).rows <= TableOf(After(w, t, runs), lod).rows
    decreases |runs|
  {
    if runs != [] {
      EffectsAreShaped(w, t, runs[0], lod);
      RowsGrow(w, Step(w, t, runs[0]).0, runs[1..], lod);
    }
  }

  /** Over any series of runs, failed or not, a building with a row is never extracted
      again. */
  lemma NeverExtractedAgain(w: Setting, t: Tables, runs: seq<RunOf>, later: RunOf, lod: int, id: Id)
    requires Shaped(w, t) && (lod == 2 || lod == 3) && id in TableOf(t, lod).rows
    ensures id !in EffectOn(w, After(w, t, runs), later, lod).extracted
  {
    RowsGrow(w, t, runs, lod);
    var now := After(w, t, runs);
    if id in EffectOn(w, now, later, lod).extracted {
      ExtractedIsPicked(w, now, later, lod, id);
      assert false;
    }
  }

  ghost predicate Unlimited(r: RunOf, lod: int, source: seq<Building>) {
    lod in r.cfg.levels && r.cfg.limit <= 0 && SourceOf(r.s, lod) == source
  }

  lemma {:induction false} PickedEndsUpExtracted(w: Setting, t: Tables, runs: seq<RunOf>, lod: int, source: seq<Building>,
                                                 k: nat, id: Id)
    requires Shaped(w, t) && (lod == 2 || lod == 3) && AllReturnNil(w, t, runs) && k < |runs|
    requires forall j :: 0 <= j < |runs| ==> Unlimited(runs[j], lod, source)
    requires id in BuildingIds(source, runs[k].area) && GeoOf(w, lod).hasRow(id)
    ensures id in TableOf(After(w, t, runs), lod).rows
    decreases |runs|
  {
    var next := Step(w, t, runs[0]).0;
    EffectsAreShaped(w, t, runs[0], lod);
    if k == 0 {
      assert Unlimited(runs[0], lod, source);
      NothingIsLeftOut(w, t, runs[0], lod, id);
      RowsGrow(w, next, runs[1..], lod);
    } else {
      PickedEndsUpExtracted(w, next, runs[1..], lod, source, k - 1, id);
    }
  }

  lemma {:induction false} HistoryWithinSource(w: Setting, t: Tables, runs: seq<RunOf>, lod: int, source: seq<Building>)
    requires Shaped(w, t) && (lod == 2 || lod == 3)
    requires forall j :: 0 <= j < |runs| ==> SourceOf(runs[j].s, lod) == source
    requires WithinSource(GeoOf(w, lod), TableOf(t, lod), source)
    ensures WithinSource(GeoOf(w, lod), TableOf(After(w, t, runs), lod), source)
    decreases |runs|
  {
    if runs != [] {
      StaysWithinSource(w, t, runs[0], lod, source);
      HistoryWithinSource(w, Step(w, t, runs[0]).0, runs[1..], lod, source);
    }
  }

  ghost predicate PickedBySome(runs: seq<RunOf>, source: seq<Building>, id: Id) {
    exists k :: 0 <= k < |runs| && id in BuildingIds(source, runs[k].area)
  }

  lemma AllEndUpExtracted(w: Setting, t: Tables, runs: seq<RunOf>, lod: int, source: seq<Building>)
    requires Shaped(w, t) && (lod == 2 || lod == 3) && AllReturnNil(w, t, runs)
    requires forall j :: 0 <= j < |runs| ==> Unlimited(runs[j], lod, source)
    requires forall id :: id in BuildingIds(source, None) ==> PickedBySome(runs, source, id)
    ensures Rows(GeoOf(w, lod), BuildingIds(source, None)) <= TableOf(After(w, t, runs), lod).rows
  {
    forall id | id in BuildingIds(source, None) && GeoOf(w, lod).hasRow(id)
      ensures id in TableOf(After(w, t, runs), lod).rows
    {
      assert PickedBySome(runs, source, id);
      var k :| 0 <= k < |runs| && id in BuildingIds(source, runs[k].area);
      PickedEndsUpExtracted(w, t, runs, lod, source, k, id);
    }
  }

  lemma RunsReachFull(w: Setting, t: Tables, runs: seq<RunOf>, lod: int, source: seq<Building>)
    requires Shaped(w, t) && (lod == 2 || lod == 3) && Symmetric(GeoOf(w, lod)) && AllReturnNil(w, t, runs)
    requires Consistent(GeoOf(w, lod), TableOf(t, lod)) && WithinSource(GeoOf(w, lod), TableOf(t, lod), source)
    requires forall j :: 0 <= j < |runs| ==> Unlimited(runs[j], lod, source)
    requires forall id :: id in BuildingIds(source, None) ==> PickedBySome(runs, source, id)
    ensures TableOf(After(w, t, runs), lod) == Full(GeoOf(w, lod), w.postScripts, source)
  {
    IncrementalEqualsRecomputed(w, t, runs, lod);
    HistoryWithinSource(w, t, runs, lod, source);
    AllEndUpExtracted(w, t, runs, lod, source);
    FullWhenAllExtracted(GeoOf(w, lod), TableOf(After(w, t, runs), lod), source);
  }

  lemma EmptyIsFine(w: Setting, lod: int, source: seq<Building>)
    requires lod == 2 || lod == 3
    ensures Consistent(GeoOf(w, lod), TableOf(Empty(w), lod))
    ensures WithinSource(GeoOf(w, lod), TableOf(Empty(w), lod), source)
  {
  }

  /** Unlimited nil runs that between them pick every building end in the table a
      whole-table run builds, in whatever order and however they overlap: one
      whole-table run, or areas meeting every building, picks them all. */
  lemma AreaRunsEqualWholeRun(w: Setting, runs: seq<RunOf>, lod: int, source: seq<Building>)
    requires (lod == 2 || lod == 3) && Symmetric(GeoOf(w, lod)) && AllReturnNil(w, Empty(w), runs)
    requires forall j :: 0 <= j < |runs| ==> Unlimited(runs[j], lod, source)
    requires (exists k :: 0 <= k < |runs| && runs[k].area.None?)
      || forall i :: 0 <= i < |source| ==> MeetsSome(runs, source[i])
    ensures TableOf(After(w, Empty(w), runs), lod) == Full(GeoOf(w, lod), w.postScripts, source)
  {
    var t := Empty(w);
    EmptyIsFine(w, lod, source);
    forall id | id in BuildingIds(source, None) ensures PickedBySome(runs, source, id) {
      CoveredIsPicked(runs, source, id);
    }
    RunsReachFull(w, t, runs, lod, source);
  }

  ghost predicate MeetsSome(runs: seq<RunOf>, b: Building) {
    exists k :: 0 <= k < |runs| && runs[k].area.Some? && b.envelope.Overlaps(runs[k].area.value)
  }

  lemma CoveredIsPicked(runs: seq<RunOf>, source: seq<Building>, id: Id)
    requires id in BuildingIds(source, None)
    requires (exists k :: 0 <= k < |runs| && runs[k].area.None?)
      || forall i :: 0 <= i < |source| ==> MeetsSome(runs, source[i])
    ensures PickedBySome(runs, source, id)
  {
    if k :| 0 <= k < |runs| && runs[k].area.None? {
      assert id in BuildingIds(source, runs[k].area);
    } else {
      PickedMembers(source, None, source, id);
      var i :| 0 <= i < |source| && source[i].id == id;
      assert MeetsSome(runs, source[i]);
      var k :| 0 <= k < |runs| && runs[k].area.Some? && source[i].envelope.Overlaps(runs[k].area.value);
      PickedMembers(source, runs[k].area, source, id);
      assert Picked(source, runs[k].area.value, source[i]);
    }
  }

  /** A nil unlimited area run finishes its area: every building meeting it already
      has the values it will have once the whole source is extracted. */
  lemma AreaIsFinal(w: Setting, t: Tables, r: RunOf, lod: int, source: seq<Building>, b: Building, k: nat)
    requires Shaped(w, t) && (lod == 2 || lod == 3) && Symmetric(GeoOf(w, lod)) && k < w.postScripts
    requires Consistent(GeoOf(w, lod), TableOf(t, lod)) && WithinSource(GeoOf(w, lod), TableOf(t, lod), source)
    requires Unlimited(r, lod, source) && r.area.Some? && Step(w, t, r).1
    requires forall i, j :: 0 <= i < |source| && 0 <= j < |source| && GeoOf(w, lod).near(source[i].id, source[j].id) ==>
      WithinGap(source[j].envelope, source[i].envelope)
    requires b in source && b.envelope.Overlaps(r.area.value) && GeoOf(w, lod).hasRow(b.id)
    ensures var after := TableOf(Step(w, t, r).0, lod);
            b.id in after.marks[k]
            && after.marks[k][b.id] == Neighbours(GeoOf(w, lod), Full(GeoOf(w, lod), w.postScripts, source).rows, b.id)
  {
    var geo, e := GeoOf(w, lod), EffectOn(w, t, r, lod);
    var after, full := TableOf(Step(w, t, r).0, lod), Full(geo, w.postScripts, source).rows;
    EffectsAreShaped(w, t, r, lod);
    NilRunMaintains(geo, TableOf(t, lod), e);
    StaysWithinSource(w, t, r, lod, source);
    var i :| 0 <= i < |source| && source[i] == b;
    forall c | c in full && (c == b.id || geo.near(b.id, c)) ensures c in after.rows {
      PickedMembers(source, None, source, c);
      PickedMembers(source, r.area, source, c);
      var j :| 0 <= j < |source| && source[j].id == c && (c == b.id ==> j == i || source[j].id == b.id);
      if c == b.id {
        assert Picked(source, r.area.value, source[i]);
      } else {
        assert WithinGap(source[j].envelope, source[i].envelope);
        assert Picked(source, r.area.value, source[j]);
      }
      NothingIsLeftOut(w, t, r, lod, c);
    }
    PickedMembers(source, None, source, b.id);
    assert b.id in full;
    assert UpToDate(geo, after, k, b.id);
    assert Neighbours(geo, after.rows, b.id) == Neighbours(geo, full, b.id);
  }
}
