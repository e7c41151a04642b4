/** What failed runs leave behind. A run whose jobs or post scripts fail has already
    added rows; later runs filter those out, so nothing recomputes the values around
    them unless something else brings them into scope. */
module ExtractionFailures {
  import opened Geometry
  import opened Wrappers
  import opened Extraction
  import opened ExtractionHistory

  /** Rows a run adds, and rows one of those lies near: their values are out of date
      until a script covers them. */
  function Touched(geo: Geography, t: Table, e: Effect): set<Id> {
    var added := e.added - t.rows;
    added + set b, c | c in added && b in t.rows && geo.near(b, c) :: b
  }

  /** What script k has covered at the end of the run. */
  function CoveredBy(geo: Geography, t: Table, e: Effect, k: nat): set<Id> {
    var rows := t.rows + e.added;
    if k >= e.scripts then {} else if e.whole then rows else PostScope(geo, rows, e.extracted)
  }

  /** The rows whose value from script k is out of date, by what ran alone. */
  function Stale(w: Setting, t: Tables, runs: seq<RunOf>, lod: int, k: nat, stale: set<Id>): set<Id>
    requires Shaped(w, t) && (lod == 2 || lod == 3)
    decreases |runs|
  {
    if runs == [] then stale
    else
      var e := EffectOn(w, t, runs[0], lod);
      Stale(w, Step(w, t, runs[0]).0, runs[1..], lod, k, StaleAfter(GeoOf(w, lod), TableOf(t, lod), e, k, stale))
  }

  /** What a history from the empty tables leaves stale. */
  function LeftStale(w: Setting, runs: seq<RunOf>, lod: int, k: nat): set<Id>
    requires lod == 2 || lod == 3
  {
    Stale(w, Empty(w), runs, lod, k, {})
  }

  ghost predicate NothingIn(ids: set<Id>) {
    forall b :: b !in ids
  }

  function StaleAfter(geo: Geography, t: Table, e: Effect, k: nat, stale: set<Id>): set<Id> {
    stale + Touched(geo, t, e) - CoveredBy(geo, t, e, k)
  }

  /** Stale rows have no value or one from a smaller neighbourhood; the others are
      up to date; nothing else has a value. */
  ghost predicate Tracks(geo: Geography, t: Table, k: nat, stale: set<Id>)
    requires k < |t.marks|
  {
    && stale <= t.rows && t.marks[k].Keys <= t.rows
    && (forall b :: b in t.rows && b !in stale ==> UpToDate(geo, t, k, b))
    && (forall b :: b in stale && b in t.marks[k] ==> t.marks[k][b] < Neighbours(geo, t.rows, b))
  }

  lemma NeighboursGrow(geo: Geography, t: Table, e: Effect, b: Id)
    requires b in t.rows
    ensures Neighbours(geo, t.rows, b) <= Neighbours(geo, t.rows + e.added, b)
    ensures b in Touched(geo, t, e) <==> Neighbours(geo, t.rows, b) < Neighbours(geo, t.rows + e.added, b)
  {
    var small, large := Neighbours(geo, t.rows, b), Neighbours(geo, t.rows + e.added, b);
    if b in Touched(geo, t, e) {
      var c :| c in e.added - t.rows && geo.near(b, c);
      assert c in large && c !in small;
    } else {
      forall c | c in large ensures c in small {
      }
    }
  }

  lemma EffectIsTracked(geo: Geography, t: Table, e: Effect, k: nat, stale: set<Id>)
    requires k < |t.marks| && Tracks(geo, t, k, stale) && WellShaped(geo, |t.marks|, e, false)
    ensures Tracks(geo, Apply(geo, t, e), k, StaleAfter(geo, t, e, k, stale))
  {
    var rows, after, late := t.rows + e.added, Apply(geo, t, e), StaleAfter(geo, t, e, k, stale);
    var grown, covered := t.(rows := rows), CoveredBy(geo, t, e, k);
    MarksAfter(geo, grown, e.scripts, Scope(geo, rows, e), k);
    forall b | b in rows && b !in late ensures UpToDate(geo, after, k, b) {
      if b in covered {
        assert b in Recomputed(geo, rows, Scope(geo, rows, e));
      } else {
        assert b in t.rows && b !in stale;
        assert UpToDate(geo, t, k, b);
        NeighboursGrow(geo, t, e, b);
      }
    }
    forall b | b in late && b in after.marks[k] ensures after.marks[k][b] < Neighbours(geo, rows, b) {
      assert b !in covered && b in t.marks[k] && after.marks[k][b] == t.marks[k][b];
      NeighboursGrow(geo, t, e, b);
      if b !in stale {
        assert UpToDate(geo, t, k, b);
      }
    }
  }

  lemma {:induction false} HistoryIsTracked(w: Setting, t: Tables, runs: seq<RunOf>, lod: int, k: nat, stale: set<Id>)
    requires Shaped(w, t) && (lod == 2 || lod == 3) && k < w.postScripts
    requires Tracks(GeoOf(w, lod), TableOf(t, lod), k, stale)
    ensures Tracks(GeoOf(w, lod), TableOf(After(w, t, runs), lod), k, Stale(w, t, runs, lod, k, stale))
    decreases |runs|
  {
    if runs != [] {
      var e := EffectOn(w, t, runs[0], lod);
      EffectsAreShaped(w, t, runs[0], lod);
      EffectIsTracked(GeoOf(w, lod), TableOf(t, lod), e, k, stale);
      HistoryIsTracked(w, Step(w, t, runs[0]).0, runs[1..], lod, k,
                       StaleAfter(GeoOf(w, lod), TableOf(t, lod), e, k, stale));
    }
  }

  /** Over every history, failed runs included, the table equals a full recomputation
      exactly when no run left a row stale. */
  lemma ConsistentExactlyWithoutStale(w: Setting, runs: seq<RunOf>, lod: int)
    requires lod == 2 || lod == 3
    ensures Consistent(GeoOf(w, lod), TableOf(After(w, Empty(w), runs), lod))
            <==> forall k: nat :: k < w.postScripts ==> NothingIn(LeftStale(w, runs, lod, k))
  {
    var geo, after := GeoOf(w, lod), TableOf(After(w, Empty(w), runs), lod);
    forall k: nat | k < w.postScripts
      ensures ScriptConsistent(geo, after, k) <==> NothingIn(LeftStale(w, runs, lod, k))
    {
      HistoryIsTracked(w, Empty(w), runs, lod, k, {});
      TrackedExactly(geo, after, k, LeftStale(w, runs, lod, k));
    }
    ConsistentByScript(geo, after);
    assert |after.marks| == w.postScripts;
  }

  ghost predicate ScriptConsistent(geo: Geography, t: Table, k: nat)
    requires k < |t.marks|
  {
    forall b :: b in t.rows ==> UpToDate(geo, t, k, b)
  }

  lemma ConsistentByScript(geo: Geography, t: Table)
    ensures Consistent(geo, t) <==> forall k: nat :: k < |t.marks| ==> ScriptConsistent(geo, t, k)
  {
    if Consistent(geo, t) {
      forall k: nat | k < |t.marks| ensures ScriptConsistent(geo, t, k) {
      }
    }
    if forall k: nat :: k < |t.marks| ==> ScriptConsistent(geo, t, k) {
      forall k: nat, b | k < |t.marks| && b in t.rows ensures UpToDate(geo, t, k, b) {
        assert ScriptConsistent(geo, t, k);
      }
    }
  }

  lemma TrackedExactly(geo: Geography, t: Table, k: nat, stale: set<Id>)
    requires k < |t.marks| && Tracks(geo, t, k, stale)
    ensures ScriptConsistent(geo, t, k) <==> NothingIn(stale)
  {
    if b :| b in stale {
      assert b in t.rows && !UpToDate(geo, t, k, b);
    }
  }

  lemma {:induction false} NoneSelected(t: Tables, s: Sources, area: Option<Bbox>, cfg: Settings, i: nat)
    requires i <= |cfg.levels| && forall j :: 0 <= j < |cfg.levels| ==> cfg.levels[j] == 2 || cfg.levels[j] == 3
    requires forall id :: id in BuildingIds(s.lod2, area) ==> id in t.lod2.rows
    requires forall id :: id in BuildingIds(s.lod3, area) ==> id in t.lod3.rows
    ensures Selected(t, s, area, cfg, NO_FAULTS, i, [], []) == Ok(([], []))
    decreases |cfg.levels| - i
  {
    if i < |cfg.levels| {
      var lod := cfg.levels[i];
      var ids := Unprocessed(BuildingIds(SourceOf(s, lod), area), TableOf(t, lod).rows);
      if ids != [] {
        UnprocessedMembers(BuildingIds(SourceOf(s, lod), area), TableOf(t, lod).rows, ids[0]);
      }
      NoneSelected(t, s, area, cfg, i + 1);
    }
  }

  /** Once every building a run picks has a row, the run returns nil and changes
      nothing: a repeat, over an area or the whole table, repairs no stale value. */
  lemma RepeatRepairsNothing(w: Setting, t: Tables, r: RunOf)
    requires Shaped(w, t) && r.f == NO_FAULTS
    requires forall j :: 0 <= j < |r.cfg.levels| ==> r.cfg.levels[j] == 2 || r.cfg.levels[j] == 3
    requires forall id :: id in BuildingIds(r.s.lod2, r.area) ==> id in t.lod2.rows
    requires forall id :: id in BuildingIds(r.s.lod3, r.area) ==> id in t.lod3.rows
    ensures Step(w, t, r) == (t, true)
  {
    NoneSelected(t, r.s, r.area, r.cfg, 0);
    NothingApplied(w.geo2, t.lod2, r.area.None?);
    NothingApplied(w.geo3, t.lod3, r.area.None?);
  }

  /** One failed job queue and a clean repeat: the repeat reports success, and the
      table is still not what a recomputation gives. */
  lemma FailedRunLeavesStaleValues() returns (w: Setting, runs: seq<RunOf>)
    ensures |runs| == 2 && runs[1].f == NO_FAULTS && runs[1].area.None?
    ensures !Step(w, Empty(w), runs[0]).1
    ensures var t := Step(w, Empty(w), runs[0]).0; Step(w, t, runs[1]) == (t, true) && !Consistent(w.geo2, t.lod2)
  {
    var geo := Geography((a, b) => true, id => true);
    w := Setting(geo, geo, 1);
    var source := Sources([Building(1, Bbox(0.0, 0.0, 1.0, 1.0))], []);
    var cfg := Settings([2], 1000, 0);
    var failing := RunOf(source, None, cfg, NO_FAULTS.(jobs := Some(Through({1}, {}))));
    runs := [failing, failing.(f := NO_FAULTS)];
    assert PickFrom(source.lod2, None, source.lod2[1..]) == [];
    assert BuildingIds(source.lod2, None) == [1];
    AllUnprocessed([1]);
    var t0 := Empty(w);
    assert ToExtract(source.lod2, {}, None, 0) == [1];
    assert Selected(t0, source, None, cfg, failing.f, 1, [1], []) == Ok(([1], []));
    assert Selected(t0, source, None, cfg, failing.f, 0, [], []) == Ok(([1], []));
    var t := Step(w, t0, failing).0;
    assert t.lod2.rows == {1};
    assert t.lod2.marks[0] == map[];
    assert !UpToDate(geo, t.lod2, 0, 1);
    RepeatRepairsNothing(w, t, runs[1]);
  }
}
