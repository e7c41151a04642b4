/** Batches of the PyLovo link: the buildings of one grid cell each, at most a limit over
    both levels of detail. */
module GridBatches {
  import opened Numbers
  import opened Wrappers
  import opened Batches
  import opened Sequences

  /** A building with a point inside its footprint. */
  datatype Place = Place(id: int, x: real, y: real)

  function CellOf(p: Place, gridSize: int): (int, int)
    requires gridSize != 0
  {
    ((p.x / gridSize as real).Floor, (p.y / gridSize as real).Floor)
  }

  function InCell(places: seq<Place>, cell: (int, int), gridSize: int, inside: bool): (r: seq<Place>)
    requires gridSize != 0
    ensures |r| <= |places|
    ensures forall p :: p in r ==> p in places && (CellOf(p, gridSize) == cell <==> inside)
  {
    if places == [] then []
    else (if (CellOf(places[0], gridSize) == cell) == inside then [places[0]] else [])
         + InCell(places[1..], cell, gridSize, inside)
  }

  /** One group for each cell that holds a building. */
  function ByCell(places: seq<Place>, gridSize: int): seq<seq<Place>>
    requires gridSize != 0
    decreases |places|
  {
    if places == [] then []
    else
      var cell := CellOf(places[0], gridSize);
      [InCell(places, cell, gridSize, true)] + ByCell(InCell(places[1..], cell, gridSize, false), gridSize)
  }

  lemma {:induction false} SplitByCell(places: seq<Place>, cell: (int, int), gridSize: int)
    requires gridSize != 0
    ensures multiset(InCell(places, cell, gridSize, true)) + multiset(InCell(places, cell, gridSize, false)) == multiset(places)
  {
    if places != [] {
      SplitByCell(places[1..], cell, gridSize);
      TailMultiset(places);
    }
  }

  lemma FirstIsInside(places: seq<Place>, gridSize: int)
    requires gridSize != 0 && places != []
    ensures var cell := CellOf(places[0], gridSize);
            && InCell(places, cell, gridSize, true) != []
            && InCell(places, cell, gridSize, false) == InCell(places[1..], cell, gridSize, false)
  {
  }

  /** The batches hold every selected building exactly as often as it was selected, and
      none of them is empty. */
  lemma {:induction false} CellsPartition(places: seq<Place>, gridSize: int)
    requires gridSize != 0
    ensures multiset(Concat(ByCell(places, gridSize))) == multiset(places)
    ensures forall b :: b in ByCell(places, gridSize) ==> b != []
    decreases |places|
  {
    if places != [] {
      var cell := CellOf(places[0], gridSize);
      FirstIsInside(places, gridSize);
      SplitByCell(places, cell, gridSize);
      CellsPartition(InCell(places[1..], cell, gridSize, false), gridSize);
    }
  }

  lemma {:induction false} GroupMembers(places: seq<Place>, gridSize: int, b: nat, p: Place)
    requires gridSize != 0 && b < |ByCell(places, gridSize)| && p in ByCell(places, gridSize)[b]
    ensures p in places
    decreases |places|
  {
    if b > 0 {
      GroupMembers(InCell(places[1..], CellOf(places[0], gridSize), gridSize, false), gridSize, b - 1, p);
    }
  }

  /** Two buildings are in one batch exactly when they are in one cell. */
  lemma {:induction false} OneBatchPerCell(places: seq<Place>, gridSize: int, a: nat, b: nat, p: Place, q: Place)
    requires gridSize != 0 && a <= b < |ByCell(places, gridSize)|
    requires p in ByCell(places, gridSize)[a] && q in ByCell(places, gridSize)[b]
    ensures a == b <==> CellOf(p, gridSize) == CellOf(q, gridSize)
    decreases |places|
  {
    var cell := CellOf(places[0], gridSize);
    var others := InCell(places[1..], cell, gridSize, false);
    if a > 0 {
      OneBatchPerCell(others, gridSize, a - 1, b - 1, p, q);
    } else if b > 0 {
      GroupMembers(others, gridSize, b - 1, q);
    }
  }

  lemma QuotientBounds(x: real, g: real)
    requires g > 0.0
    ensures var q := (x / g).Floor as real; q * g <= x < q * g + g
  {
    ScaledStep((x / g).Floor as real, x / g, g, x);
  }

  lemma ScaledStep(q: real, r: real, g: real, x: real)
    requires g > 0.0 && q <= r < q + 1.0 && r * g == x
    ensures q * g <= x < q * g + g
  {
    if q < r {
      Scaled(q, r, g);
    }
    var next := q + 1.0;
    Scaled(r, next, g);
    assert next * g == q * g + g;
    assert x < next * g;
  }

  lemma Scaled(a: real, b: real, g: real)
    requires g > 0.0 && a < b
    ensures a * g < b * g
  {
    assert (b - a) * g > 0.0;
  }

  lemma SameQuotient(x: real, y: real, g: real)
    requires g > 0.0 && (x / g).Floor == (y / g).Floor
    ensures -g < x - y < g
  {
    QuotientBounds(x, g);
    QuotientBounds(y, g);
  }

  /** Where a step of width g starts. */
  function Start(q: real, g: real): real {
    q * g
  }

  /** x is in step q of width g. */
  predicate InStep(x: real, g: real, q: int) {
    Start(q as real, g) <= x < Start(q as real, g) + g
  }

  lemma QuotientExactly(x: real, g: real, q: int)
    requires g > 0.0
    ensures q == (x / g).Floor <==> InStep(x, g, q)
  {
    QuotientBounds(x, g);
    var p := (x / g).Floor;
    assert InStep(x, g, p);
    if InStep(x, g, q) {
      OneStep(x, g, p, q);
    }
  }

  lemma OneStep(x: real, g: real, p: int, q: int)
    requires g > 0.0 && InStep(x, g, p) && InStep(x, g, q)
    ensures p == q
  {
    if p < q {
      StepsApart(p as real, q as real, g);
      assert false;
    } else if q < p {
      StepsApart(q as real, p as real, g);
      assert false;
    }
  }

  lemma StepsApart(a: real, b: real, g: real)
    requires g > 0.0 && b >= a + 1.0
    ensures Start(a, g) + g <= Start(b, g)
  {
    var d := b - a;
    StartsDiffer(a, d, g);
    AtLeastAStep(d, g);
  }

  lemma StartsDiffer(a: real, d: real, g: real)
    ensures Start(a + d, g) == Start(a, g) + Start(d, g)
  {
  }

  lemma AtLeastAStep(d: real, g: real)
    requires g > 0.0 && d >= 1.0
    ensures Start(d, g) >= g
  {
    if d > 1.0 {
      Scaled(1.0, d, g);
    }
  }

  /** The cells are the squares of the grid through the origin, closed to the south-west. */
  lemma CellExactly(p: Place, gridSize: int, i: int, j: int)
    requires gridSize > 0
    ensures CellOf(p, gridSize) == (i, j) <==> InStep(p.x, gridSize as real, i) && InStep(p.y, gridSize as real, j)
  {
    QuotientExactly(p.x, gridSize as real, i);
    QuotientExactly(p.y, gridSize as real, j);
  }

  /** The buildings of one batch lie less than a grid step apart on both axes. */
  lemma BatchIsCompact(places: seq<Place>, gridSize: int, b: nat, p: Place, q: Place)
    requires gridSize > 0 && b < |ByCell(places, gridSize)|
    requires p in ByCell(places, gridSize)[b] && q in ByCell(places, gridSize)[b]
    ensures -gridSize as real < p.x - q.x < gridSize as real && -gridSize as real < p.y - q.y < gridSize as real
  {
    OneBatchPerCell(places, gridSize, b, b, p, q);
    SameQuotient(p.x, q.x, gridSize as real);
    SameQuotient(p.y, q.y, gridSize as real);
  }

  // ---- The limit over both levels ----

  /** The buildings GetGridBatches selects; without a positive limit, all. */
  function Chosen(eligible: seq<Place>, limit: int): seq<Place> {
    if limit > 0 then eligible[..Min(limit, |eligible|)] else eligible
  }

  lemma {:induction false} ConcatLength<T>(batches: seq<seq<T>>, i: nat)
    requires i < |batches|
    ensures |Concat(batches[..i + 1])| == |Concat(batches[..i])| + |batches[i]|
  {
    ConcatOneMore(batches[..i], batches[i]);
    assert batches[..i] + [batches[i]] == batches[..i + 1];
  }

  /** What fails: the set-up of the foreign tables, and by level the grid query and the
      jobs; count is the query made when nothing was linked. */
  datatype LinkFaults = LinkFaults(setup: bool, query: set<int>, jobs: set<int>, count: bool)

  /** One level's pass: how many buildings it batched, or an error; the query divides by
      the grid size of every building it chose. */
  method RunPyLovoLinkForLOD(eligible: seq<Place>, gridSize: int, limit: int, lod: int, f: LinkFaults)
    returns (total: Outcome<nat>)
    ensures total.Err? <==> lod in f.query || (eligible != [] && (gridSize == 0 || lod in f.jobs))
    ensures total.Ok? ==> total.value == if limit > 0 then Min(limit, |eligible|) else |eligible|
  {
    var chosen := Chosen(eligible, limit);
    if lod in f.query || (chosen != [] && gridSize == 0) {
      return Err;
    }
    if chosen == [] {
      return Ok(0);
    }
    var batches := ByCell(chosen, gridSize);
    CellsPartition(chosen, gridSize);
    var n := 0;
    for i := 0 to |batches|
      invariant n == |Concat(batches[..i])|
    {
      ConcatLength(batches, i);
      n := n + |batches[i]|;
    }
    assert batches[..|batches|] == batches;
    assert n == |multiset(Concat(batches))| == |multiset(chosen)| == |chosen|;
    total := if lod in f.jobs then Err else Ok(n);
  }

  /** runPyLovoLink over what is eligible as each pass starts: the number batched is the
      smaller of the limit and what is eligible, and a limit of zero or less batches
      everything. Once the limit is reached, the second level is not looked at. */
  method RunPyLovoLink(lod2: seq<Place>, lod3: seq<Place>, gridSize: int, limit: int, f: LinkFaults)
    returns (linked: Outcome<nat>)
    ensures linked.Ok? ==> linked.value == if limit > 0 then Min(limit, |lod2| + |lod3|) else |lod2| + |lod3|
    ensures linked.Err?
            <==> || f.setup
                 || 2 in f.query || (lod2 != [] && (gridSize == 0 || 2 in f.jobs))
                 || ((limit <= 0 || |lod2| < limit) && (3 in f.query || (lod3 != [] && (gridSize == 0 || 3 in f.jobs))))
                 || (lod2 == [] && lod3 == [] && f.count)
  {
    if f.setup {
      return Err;
    }
    var total := 0;
    for i := 0 to 2
      invariant var seen := if i == 0 then 0 else if i == 1 then |lod2| else |lod2| + |lod3|;
                total == if limit > 0 then Min(limit, seen) else seen
      invariant i > 0 ==> 2 !in f.query && (lod2 != [] ==> gridSize != 0 && 2 !in f.jobs)
      invariant i > 1 && (limit <= 0 || |lod2| < limit) ==>
        3 !in f.query && (lod3 != [] ==> gridSize != 0 && 3 !in f.jobs)
    {
      var remaining := 0;
      if limit > 0 {
        remaining := limit - total;
        if remaining <= 0 {
          break;
        }
      }
      var n := RunPyLovoLinkForLOD(if i == 0 then lod2 else lod3, gridSize, remaining, i + 2, f);
      if n.Err? {
        return Err;
      }
      total := total + n.value;
    }
    linked := if total == 0 && f.count then Err else Ok(total);
  }
}
