/** Feature extraction over an area or the whole table: which buildings a run
    selects, and which ones its post scripts recompute. A post script's value for a
    building is a function of the building and of its neighbours among the extracted
    ones, so the model stores the neighbour set the value was computed from. */
module Extraction {
  import opened Geometry
  import opened Nearness
  import opened Wrappers
  import opened Batches

  type Id = int

  datatype Building = Building(id: Id, envelope: Bbox)

  /** What the database knows of one LoD: which footprints lie within 0.1 m of each
      other, and which buildings get a row at all (one with ground faces only does not). */
  datatype Geography = Geography(near: (Id, Id) -> bool, hasRow: Id -> bool)

  ghost predicate Symmetric(geo: Geography) {
    forall a, b :: geo.near(a, b) ==> geo.near(b, a)
  }

  /** One {lod}_building table. marks[k][b] is what post script k last saw of b. */
  datatype Table = Table(rows: set<Id>, marks: seq<map<Id, set<Id>>>)

  function Neighbours(geo: Geography, rows: set<Id>, b: Id): set<Id> {
    set c | c in rows && geo.near(b, c)
  }

  // ---- Selecting buildings ----

  /** b is picked for area: its envelope meets the area, or lies within the gap of
      one whose envelope does. */
  predicate Picked(source: seq<Building>, area: Bbox, b: Building) {
    b.envelope.Overlaps(area)
    || exists i :: 0 <= i < |source| && source[i].envelope.Overlaps(area) && WithinGap(b.envelope, source[i].envelope)
  }

  /** With ordered corners throughout: a building is picked exactly when its envelope
      shares ground with the area, or holds a point no more than a tenth from one of an
      envelope that does. */
  lemma PickedExactly(source: seq<Building>, area: Bbox, b: Building)
    requires area.Ordered() && b.envelope.Ordered() && forall i :: 0 <= i < |source| ==> source[i].envelope.Ordered()
    ensures Picked(source, area, b)
            <==> || ShareGround(b.envelope, area)
                 || exists i :: 0 <= i < |source| && ShareGround(source[i].envelope, area)
                                && HoldClosePoints(b.envelope, source[i].envelope)
  {
    OverlapsIsCommonGround(b.envelope, area);
    forall i | 0 <= i < |source|
      ensures source[i].envelope.Overlaps(area) <==> ShareGround(source[i].envelope, area)
      ensures WithinGap(b.envelope, source[i].envelope) <==> HoldClosePoints(b.envelope, source[i].envelope)
    {
      OverlapsIsCommonGround(source[i].envelope, area);
      WithinGapExactly(b.envelope, source[i].envelope);
    }
  }

  /** Puts an id into its place in ascending ids, unless it is there. */
  function Placed(ids: seq<Id>, id: Id): seq<Id> {
    if ids == [] || id < ids[0] then [id] + ids
    else if id == ids[0] then ids
    else [ids[0]] + Placed(ids[1..], id)
  }

  function PickFrom(source: seq<Building>, area: Option<Bbox>, rest: seq<Building>): seq<Id> {
    if rest == [] then []
    else
      var later := PickFrom(source, area, rest[1..]);
      if area.None? || Picked(source, area.value, rest[0]) then Placed(later, rest[0].id) else later
  }

  /** The ids a run looks at: ordered, and each once. */
  function BuildingIds(source: seq<Building>, area: Option<Bbox>): seq<Id> {
    PickFrom(source, area, source)
  }

  function Unprocessed(ids: seq<Id>, processed: set<Id>): seq<Id> {
    if ids == [] then []
    else (if ids[0] in processed then [] else [ids[0]]) + Unprocessed(ids[1..], processed)
  }

  lemma {:induction false} UnprocessedOneMore(ids: seq<Id>, id: Id, processed: set<Id>)
    ensures Unprocessed(ids + [id], processed) == Unprocessed(ids, processed) + if id in processed then [] else [id]
  {
    if ids != [] {
      UnprocessedOneMore(ids[1..], id, processed);
      assert (ids + [id])[1..] == ids[1..] + [id];
    }
  }

  lemma {:induction false} UnprocessedMembers(ids: seq<Id>, processed: set<Id>, id: Id)
    ensures id in Unprocessed(ids, processed) <==> id in ids && id !in processed
  {
    if ids != [] {
      UnprocessedMembers(ids[1..], processed, id);
    }
  }

  lemma {:induction false} AllUnprocessed(ids: seq<Id>)
    ensures Unprocessed(ids, {}) == ids
  {
    if ids != [] {
      AllUnprocessed(ids[1..]);
    }
  }

  lemma {:induction false} PlacedMembers(ids: seq<Id>, id: Id, x: Id)
    ensures x in Placed(ids, id) <==> x == id || x in ids
  {
    if ids != [] && ids[0] < id {
      PlacedMembers(ids[1..], id, x);
      assert ids == [ids[0]] + ids[1..];
    }
  }

  predicate Ascending(ids: seq<Id>) {
    forall i, j :: 0 <= i < j < |ids| ==> ids[i] < ids[j]
  }

  lemma AscendingFrom(x: Id, ids: seq<Id>)
    requires Ascending(ids) && (ids != [] ==> x < ids[0])
    ensures Ascending([x] + ids)
  {
  }

  lemma {:induction false} PlacedAscends(ids: seq<Id>, id: Id)
    requires Ascending(ids)
    ensures Ascending(Placed(ids, id))
    ensures ids != [] && ids[0] <= id ==> Placed(ids, id)[0] == ids[0]
  {
    if ids == [] || id < ids[0] {
      AscendingFrom(id, ids);
    } else if id != ids[0] {
      PlacedAscends(ids[1..], id);
      AscendingFrom(ids[0], Placed(ids[1..], id));
    }
  }

  /** A run looks at its buildings in the order of their ids and at each once, so a
      building limit keeps those with the smallest ids. */
  lemma {:induction false} PickedAscend(source: seq<Building>, area: Option<Bbox>, rest: seq<Building>)
    ensures Ascending(PickFrom(source, area, rest))
  {
    if rest != [] {
      PickedAscend(source, area, rest[1..]);
      PlacedAscends(PickFrom(source, area, rest[1..]), rest[0].id);
    }
  }

  ghost predicate PickedAmong(source: seq<Building>, area: Option<Bbox>, rest: seq<Building>, id: Id) {
    exists i :: 0 <= i < |rest| && rest[i].id == id && (area.None? || Picked(source, area.value, rest[i]))
  }

  lemma PickedAmongFirst(source: seq<Building>, area: Option<Bbox>, rest: seq<Building>, id: Id)
    requires rest != []
    ensures PickedAmong(source, area, rest, id)
            <==> || (rest[0].id == id && (area.None? || Picked(source, area.value, rest[0])))
                 || PickedAmong(source, area, rest[1..], id)
  {
    if PickedAmong(source, area, rest, id) {
      var i :| 0 <= i < |rest| && rest[i].id == id && (area.None? || Picked(source, area.value, rest[i]));
      assert i > 0 ==> rest[1..][i - 1] == rest[i];
    }
    if PickedAmong(source, area, rest[1..], id) {
      var i :| 0 <= i < |rest[1..]| && rest[1..][i].id == id && (area.None? || Picked(source, area.value, rest[1..][i]));
      assert rest[i + 1] == rest[1..][i];
    }
  }

  lemma {:induction false} PickedMembers(source: seq<Building>, area: Option<Bbox>, rest: seq<Building>, id: Id)
    ensures id in PickFrom(source, area, rest) <==> PickedAmong(source, area, rest, id)
  {
    if rest != [] {
      PickedMembers(source, area, rest[1..], id);
      PickedAmongFirst(source, area, rest, id);
      PlacedMembers(PickFrom(source, area, rest[1..]), rest[0].id, id);
    }
  }

  // ---- Post scripts ----

  /** The buildings an area run's post scripts cover: those extracted, and every row
      near a row of them. */
  function PostScope(geo: Geography, rows: set<Id>, extracted: seq<Id>): set<Id> {
    (set c, a | a in extracted && a in rows && c in rows && geo.near(a, c) :: c) + set a | a in extracted
  }

  /** What a script writes over a scope; None is the whole table. */
  function Recomputed(geo: Geography, rows: set<Id>, scope: Option<set<Id>>): map<Id, set<Id>> {
    map b | b in rows && (scope.None? || b in scope.value) :: Neighbours(geo, rows, b)
  }

  function Marked(geo: Geography, t: Table, k: nat, scope: Option<set<Id>>): Table
    requires k < |t.marks|
  {
    t.(marks := t.marks[k := t.marks[k] + Recomputed(geo, t.rows, scope)])
  }

  function MarkedBefore(geo: Geography, t: Table, n: nat, scope: Option<set<Id>>): (r: Table)
    requires n <= |t.marks|
    ensures r.rows == t.rows && |r.marks| == |t.marks|
  {
    if n == 0 then t else Marked(geo, MarkedBefore(geo, t, n - 1, scope), n - 1, scope)
  }

  /** What one run does to one table: it extracts some ids, adds rows for some of
      them, and gets through the first scripts post scripts. */
  datatype Effect = Effect(extracted: seq<Id>, added: set<Id>, whole: bool, scripts: nat)

  function Scope(geo: Geography, rows: set<Id>, e: Effect): Option<set<Id>> {
    if e.whole then None else Some(PostScope(geo, rows, e.extracted))
  }

  function Apply(geo: Geography, t: Table, e: Effect): Table
    requires e.scripts <= |t.marks|
  {
    var grown := t.(rows := t.rows + e.added);
    MarkedBefore(geo, grown, e.scripts, Scope(geo, grown.rows, e))
  }

  // ---- One run ----

  datatype Tables = Tables(lod2: Table, lod3: Table)

  datatype Sources = Sources(lod2: seq<Building>, lod3: seq<Building>)

  /** LODLevels, the batch size and the building limit. */
  datatype Settings = Settings(levels: seq<int>, batchSize: int, limit: int)

  /** The buildings of each level whose rows a queue with failed jobs still wrote. */
  datatype Through = Through(lod2: set<Id>, lod3: set<Id>) {
    function At(lod: int): set<Id> {
      if lod == 2 then lod2 else lod3
    }
  }

  /** What fails: the id queries of a level, the dataset check of a level, jobs of
      the queue (then only some ids got rows), a post script or the scope query of a
      level (then the scripts before it ran), and enabling the triggers of a level. */
  datatype Faults = Faults(
    query: set<int>, datasets: set<int>, jobs: Option<Through>, post: map<int, nat>, triggers: set<int>)

  const NO_FAULTS := Faults({}, {}, None, map[], {})

  function TableOf(t: Tables, lod: int): Table {
    if lod == 2 then t.lod2 else t.lod3
  }

  function SourceOf(s: Sources, lod: int): seq<Building> {
    if lod == 2 then s.lod2 else s.lod3
  }

  function Limited(ids: seq<Id>, limit: int): seq<Id> {
    if 0 < limit < |ids| then ids[..limit] else ids
  }

  /** The ids left to extract at one level. */
  function ToExtract(source: seq<Building>, processed: set<Id>, area: Option<Bbox>, limit: int): seq<Id> {
    Limited(Unprocessed(BuildingIds(source, area), processed), limit)
  }

  /** The selection loop from level i on, given what it has selected so far. */
  function Selected(t: Tables, s: Sources, area: Option<Bbox>, cfg: Settings, f: Faults, i: nat,
                    ids2: seq<Id>, ids3: seq<Id>): Outcome<(seq<Id>, seq<Id>)>
    requires i <= |cfg.levels|
    decreases |cfg.levels| - i
  {
    if i == |cfg.levels| then Ok((ids2, ids3))
    else
      var lod := cfg.levels[i];
      if (lod != 2 && lod != 3) || lod in f.query then Err
      else
        var ids := ToExtract(SourceOf(s, lod), TableOf(t, lod).rows, area, cfg.limit);
        if ids == [] then Selected(t, s, area, cfg, f, i + 1, ids2, ids3)
        else if lod in f.datasets then Err
        else if lod == 2 then Selected(t, s, area, cfg, f, i + 1, ids, ids3)
        else Selected(t, s, area, cfg, f, i + 1, ids2, ids)
  }

  function Rows(geo: Geography, ids: seq<Id>): set<Id> {
    set id | id in ids && geo.hasRow(id)
  }

  /** Rows written by the jobs: all, or when jobs failed those that got through. */
  function Written(geo: Geography, lod: int, ids: seq<Id>, f: Faults): set<Id> {
    if f.jobs.None? then Rows(geo, ids) else Rows(geo, ids) * f.jobs.value.At(lod)
  }

  /** How many of n post scripts a level gets through. */
  function ScriptsRun(f: Faults, lod: int, n: nat): nat {
    if lod in f.post && f.post[lod] < n then f.post[lod] else n
  }

  predicate LevelFails(f: Faults, lod: int, n: nat) {
    (lod in f.post && f.post[lod] < n) || lod in f.triggers
  }

  /** The effects on the two tables, and whether the run returned nil. */
  function Effects(geo2: Geography, geo3: Geography, n: nat, t: Tables, s: Sources, area: Option<Bbox>,
                   cfg: Settings, f: Faults): (Effect, Effect, bool) {
    var whole := area.None?;
    var nothing := Effect([], {}, whole, 0);
    match Selected(t, s, area, cfg, f, 0, [], [])
    case Err => (nothing, nothing, false)
    case Ok((ids2, ids3)) =>
      if ids2 == [] && ids3 == [] then (nothing, nothing, true)
      else
        var e2 := Effect(ids2, Written(geo2, 2, ids2, f), whole, 0);
        var e3 := Effect(ids3, Written(geo3, 3, ids3, f), whole, 0);
        if f.jobs.Some? then (e2, e3, false)
        else
          var d2 := if ids2 == [] then e2 else e2.(scripts := ScriptsRun(f, 2, n));
          if ids2 != [] && LevelFails(f, 2, n) then (d2, e3, false)
          else
            var d3 := if ids3 == [] then e3 else e3.(scripts := ScriptsRun(f, 3, n));
            (d2, d3, !(ids3 != [] && LevelFails(f, 3, n)))
  }

  function Run(geo2: Geography, geo3: Geography, n: nat, t: Tables, s: Sources, area: Option<Bbox>,
               cfg: Settings, f: Faults): (Tables, bool)
    requires |t.lod2.marks| == |t.lod3.marks| == n
  {
    var (e2, e3, ok) := Effects(geo2, geo3, n, t, s, area, cfg, f);
    (Tables(Apply(geo2, t.lod2, e2), Apply(geo3, t.lod3, e3)), ok)
  }

  // ---- The run as the code does it ----

  class Extractor {
    const geo2: Geography
    const geo3: Geography
    const postScripts: nat
    var lod2: Table
    var lod3: Table

    constructor (geo2: Geography, geo3: Geography, postScripts: nat)
      ensures this.geo2 == geo2 && this.geo3 == geo3 && this.postScripts == postScripts
      ensures lod2 == lod3 == Table({}, seq(postScripts, _ => map[]))
    {
      this.geo2, this.geo3, this.postScripts := geo2, geo3, postScripts;
      lod2, lod3 := Table({}, seq(postScripts, _ => map[])), Table({}, seq(postScripts, _ => map[]));
    }

    function State(): Tables
      reads this
    {
      Tables(lod2, lod3)
    }

    predicate Valid()
      reads this
    {
      |lod2.marks| == |lod3.marks| == postScripts
    }

    function Geo(lod: int): Geography {
      if lod == 2 then geo2 else geo3
    }

    /** filterUnprocessedIDs: the ids without a row, in their order. */
    method FilterUnprocessed(ids: seq<Id>, processed: set<Id>) returns (remaining: seq<Id>)
      ensures remaining == Unprocessed(ids, processed)
    {
      if processed == {} {
        AllUnprocessed(ids);
        return ids;
      }
      remaining := [];
      for i := 0 to |ids|
        invariant remaining == Unprocessed(ids[..i], processed)
      {
        UnprocessedOneMore(ids[..i], ids[i], processed);
        assert ids[..i + 1] == ids[..i] + [ids[i]];
        if ids[i] !in processed {
          remaining := remaining + [ids[i]];
        }
      }
      assert ids[..|ids|] == ids;
    }

    /** The selection loop of runFeatureExtraction; it only reads. */
    method Select(s: Sources, area: Option<Bbox>, cfg: Settings, f: Faults) returns (r: Outcome<(seq<Id>, seq<Id>)>)
      ensures r == Selected(State(), s, area, cfg, f, 0, [], [])
    {
      var ids2: seq<Id>, ids3: seq<Id> := [], [];
      for i := 0 to |cfg.levels|
        invariant Selected(State(), s, area, cfg, f, 0, [], []) == Selected(State(), s, area, cfg, f, i, ids2, ids3)
      {
        var lod := cfg.levels[i];
        if lod != 2 && lod != 3 {
          return Err;
        }
        if lod in f.query {
          return Err;
        }
        var ids := BuildingIds(SourceOf(s, lod), area);
        ids := FilterUnprocessed(ids, TableOf(State(), lod).rows);
        if |ids| == 0 {
          continue;
        }
        if lod in f.datasets {
          return Err;
        }
        if cfg.limit > 0 && cfg.limit < |ids| {
          ids := ids[..cfg.limit];
        }
        match lod {
          case 2 => ids2 := ids;
          case _ => ids3 := ids;
        }
      }
      return Ok((ids2, ids3));
    }

    /** The jobs of one level, batch by batch: each adds the rows of its ids. */
    method RunBatches(lod: int, batches: seq<seq<Id>>, f: Faults)
      requires Valid() && (lod == 2 || lod == 3)
      modifies this`lod2, this`lod3
      ensures lod == 2 ==> State() == old(State()).(lod2 := lod2) && lod2 == old(lod2).(rows := lod2.rows)
      ensures lod == 3 ==> State() == old(State()).(lod3 := lod3) && lod3 == old(lod3).(rows := lod3.rows)
      ensures TableOf(State(), lod).rows == TableOf(old(State()), lod).rows + Written(Geo(lod), lod, Concat(batches), f)
    {
      ghost var rest := Concat(batches);
      ghost var written: set<Id> := {};
      for i := 0 to |batches|
        invariant lod == 2 ==> State() == old(State()).(lod2 := lod2) && lod2 == old(lod2).(rows := lod2.rows)
        invariant lod == 3 ==> State() == old(State()).(lod3 := lod3) && lod3 == old(lod3).(rows := lod3.rows)
        invariant TableOf(State(), lod).rows == TableOf(old(State()), lod).rows + written
        invariant written + Written(Geo(lod), lod, Concat(batches[i..]), f) == Written(Geo(lod), lod, Concat(batches), f)
      {
        var added := Written(Geo(lod), lod, batches[i], f);
        WrittenSplit(Geo(lod), lod, batches, i, f);
        written := written + added;
        if lod == 2 {
          lod2 := lod2.(rows := lod2.rows + added);
        } else {
          lod3 := lod3.(rows := lod3.rows + added);
        }
      }
    }

    /** runPostScripts; false when the scope query or a script failed. */
    method RunPostScripts(lod: int, extracted: seq<Id>, area: Option<Bbox>, f: Faults) returns (ok: bool)
      requires Valid() && (lod == 2 || lod == 3)
      modifies this`lod2, this`lod3
      ensures Valid()
      ensures var t := TableOf(old(State()), lod);
              var done := MarkedBefore(Geo(lod), t, ScriptsRun(f, lod, postScripts),
                                       Scope(Geo(lod), t.rows, Effect(extracted, {}, area.None?, 0)));
              State() == if lod == 2 then old(State()).(lod2 := done) else old(State()).(lod3 := done)
      ensures ok <==> !(lod in f.post && f.post[lod] < postScripts)
    {
      var t := TableOf(State(), lod);
      var scope: Option<set<Id>> := None;
      if area.Some? {
        scope := Some(PostScope(Geo(lod), t.rows, extracted));
      }
      var table, k := t, 0;
      while k < postScripts
        invariant 0 <= k <= postScripts && table == MarkedBefore(Geo(lod), t, k, scope)
        invariant lod in f.post ==> k <= f.post[lod] || postScripts <= f.post[lod]
      {
        if lod in f.post && f.post[lod] == k {
          break;
        }
        table := Marked(Geo(lod), table, k, scope);
        k := k + 1;
      }
      if lod == 2 {
        lod2 := table;
      } else {
        lod3 := table;
      }
      return k == postScripts;
    }

    /** runFeatureExtraction. */
    method RunFeatureExtraction(s: Sources, area: Option<Bbox>, cfg: Settings, f: Faults) returns (ok: bool)
      requires Valid()
      modifies this`lod2, this`lod3
      ensures Valid()
      ensures (State(), ok) == Run(geo2, geo3, postScripts, old(State()), s, area, cfg, f)
    {
      var selected := Select(s, area, cfg, f);
      NothingApplied(geo2, lod2, area.None?);
      NothingApplied(geo3, lod3, area.None?);
      if selected.Err? {
        return false;
      }
      var (ids2, ids3) := selected.value;
      if |ids2| + |ids3| == 0 {
        return true;
      }
      var batches2 := CreateBatches(ids2, cfg.batchSize);
      var batches3 := CreateBatches(ids3, cfg.batchSize);
      RunBatches(2, batches2, f);
      RunBatches(3, batches3, f);
      if f.jobs.Some? {
        return false;
      }
      if |ids2| > 0 {
        ok := RunPostScripts(2, ids2, area, f);
        if !ok || 2 in f.triggers {
          return false;
        }
      }
      if |ids3| > 0 {
        ok := RunPostScripts(3, ids3, area, f);
        if !ok || 3 in f.triggers {
          return false;
        }
      }
      return true;
    }
  }

  lemma NothingApplied(geo: Geography, t: Table, whole: bool)
    ensures Apply(geo, t, Effect([], {}, whole, 0)) == t
  {
    assert t.rows + {} == t.rows;
  }

  lemma WrittenSplit(geo: Geography, lod: int, batches: seq<seq<Id>>, i: nat, f: Faults)
    requires i < |batches|
    ensures Written(geo, lod, Concat(batches[i..]), f)
            == Written(geo, lod, batches[i], f) + Written(geo, lod, Concat(batches[i + 1..]), f)
  {
    assert batches[i..][1..] == batches[i + 1..];
  }
}
