/** The use type of a building from its units: the largest total area wins, the smaller
    name among equals. */
module UseType {
  import opened Wrappers
  import opened Sequences

  /** A use class: a name of the served vocabulary, and whether it holds dwellings. */
  datatype UseClass = UseClass(useType: string, residential: bool)

  datatype Unit = Unit(datasetId: string, code: string, area: real)

  /** A country's list; a code may be listed as stating no use. */
  type UseList = map<string, Option<UseClass>>

  /** Listed names are never empty: the parser accepts only vocabulary words. */
  ghost predicate Parsed(list: UseList) {
    forall code :: code in list && list[code].Some? ==> list[code].value.useType != ""
  }

  function ClassOf(list: UseList, u: Unit): Option<UseClass> {
    if u.code in list then list[u.code] else None
  }

  // ---- Names in order ----

  /** Go's order on strings. */
  predicate Before(a: string, b: string) {
    b != "" && (a == "" || a[0] < b[0] || (a[0] == b[0] && Before(a[1..], b[1..])))
  }

  lemma {:induction false} BeforeIsTotal(a: string, b: string)
    ensures a == b || Before(a, b) || Before(b, a)
    ensures !(Before(a, b) && Before(b, a)) && !Before(a, a)
  {
    if a != "" {
      BeforeIsTotal(a[1..], a[1..]);
    }
    if a != "" && b != "" && a[0] == b[0] {
      BeforeIsTotal(a[1..], b[1..]);
      assert a == [a[0]] + a[1..] && b == [b[0]] + b[1..];
    }
  }

  lemma {:induction false} BeforeIsTransitive(a: string, b: string, c: string)
    requires Before(a, b) && Before(b, c)
    ensures Before(a, c)
  {
    if a != "" && a[0] == b[0] && b[0] == c[0] {
      BeforeIsTransitive(a[1..], b[1..], c[1..]);
    }
  }

  /** Names are compared by the first character in which they differ, and a name comes
      before its continuations. */
  lemma {:induction false} BeforeAtFirstDifference(common: string, a: string, b: string)
    requires b != "" && (a == "" || a[0] < b[0])
    ensures Before(common + a, common + b)
  {
    if common == "" {
      assert common + a == a && common + b == b;
    } else {
      BeforeAtFirstDifference(common[1..], a, b);
      assert (common + a)[1..] == common[1..] + a && (common + b)[1..] == common[1..] + b;
    }
  }

  ghost predicate Rising(s: seq<string>) {
    forall i, j :: 0 <= i < j < |s| ==> Before(s[i], s[j])
  }

  /** Puts a name into its place, unless it is there. */
  function Placed(s: seq<string>, x: string): seq<string> {
    if s == [] || Before(x, s[0]) then [x] + s
    else if x == s[0] then s
    else [s[0]] + Placed(s[1..], x)
  }

  lemma {:induction false} PlacedMembers(s: seq<string>, x: string, y: string)
    ensures y in Placed(s, x) <==> y == x || y in s
  {
    if s != [] && !Before(x, s[0]) && x != s[0] {
      PlacedMembers(s[1..], x, y);
      assert s == [s[0]] + s[1..];
    }
  }

  lemma RisingFrom(x: string, s: seq<string>)
    requires Rising(s) && (s != [] ==> Before(x, s[0]))
    ensures Rising([x] + s)
  {
    forall j | 1 <= j < |s| ensures Before(x, s[j]) {
      BeforeIsTransitive(x, s[0], s[j]);
    }
  }

  lemma {:induction false} PlacedRises(s: seq<string>, x: string)
    requires Rising(s)
    ensures Rising(Placed(s, x))
    ensures s != [] && !Before(x, s[0]) ==> Placed(s, x)[0] == s[0]
  {
    if s == [] || Before(x, s[0]) {
      RisingFrom(x, s);
    } else if x != s[0] {
      var rest := s[1..];
      PlacedRises(rest, x);
      BeforeIsTotal(x, s[0]);
      RisingFrom(s[0], Placed(rest, x));
    }
  }

  lemma EmptyTogether(s: seq<string>, t: seq<string>)
    requires forall x :: x in s <==> x in t
    ensures s == [] <==> t == []
    ensures s != [] ==> s[0] in t && t[0] in s
  {
    assert s != [] ==> s[0] in s;
    assert t != [] ==> t[0] in t;
  }

  /** A rising list is settled by its members. */
  lemma {:induction false} RisingIsUnique(s: seq<string>, t: seq<string>)
    requires Rising(s) && Rising(t) && forall x :: x in s <==> x in t
    ensures s == t
  {
    EmptyTogether(s, t);
    if s != [] {
      FirstIsFirst(s, t);
      forall x ensures x in s[1..] <==> x in t[1..] {
        TailMembers(s, x);
        TailMembers(t, x);
      }
      RisingIsUnique(s[1..], t[1..]);
      assert s == [s[0]] + s[1..] && t == [t[0]] + t[1..];
    }
  }

  lemma FirstIsFirst(s: seq<string>, t: seq<string>)
    requires Rising(s) && Rising(t) && s != [] && t != [] && s[0] in t && t[0] in s
    ensures s[0] == t[0]
  {
    BeforeIsTotal(s[0], t[0]);
  }

  lemma TailMembers(s: seq<string>, x: string)
    requires Rising(s) && s != []
    ensures x in s[1..] <==> x in s && x != s[0]
  {
    BeforeIsTotal(s[0], s[0]);
    assert s == [s[0]] + s[1..];
    if x in s[1..] {
      var i :| 0 <= i < |s[1..]| && s[1..][i] == x;
      assert Before(s[0], s[i + 1]);
    }
  }

  // ---- What the result means ----

  /** The total area of the units that map to a type. */
  function AreaOf(list: UseList, units: seq<Unit>, t: string): real {
    if units == [] then 0.0
    else
      var c := ClassOf(list, units[0]);
      (if c.Some? && c.value.useType == t then units[0].area else 0.0) + AreaOf(list, units[1..], t)
  }

  predicate HasType(list: UseList, units: seq<Unit>, t: string) {
    exists u :: u in units && ClassOf(list, u).Some? && ClassOf(list, u).value.useType == t
  }

  predicate AnyDwelling(list: UseList, units: seq<Unit>) {
    exists u :: u in units && ClassOf(list, u).Some? && ClassOf(list, u).value.residential
  }

  /** Some mapped unit came from dataset d. */
  predicate Supplies(list: UseList, units: seq<Unit>, d: string) {
    exists u :: u in units && ClassOf(list, u).Some? && u.datasetId == d
  }

  /** t wins over other: more area, or as much and the smaller name. */
  ghost predicate Wins(list: UseList, units: seq<Unit>, t: string, other: string) {
    var a, b := AreaOf(list, units, t), AreaOf(list, units, other);
    a > b || (a == b && (t == other || Before(t, other)))
  }

  /** The use type, whether any unit is a dwelling, and the datasets the units came from. */
  datatype Use = Use(useType: string, residential: bool, datasets: seq<string>)

  ghost predicate IsUse(list: UseList, units: seq<Unit>, r: Option<Use>) {
    match r
    case None => forall u :: u in units ==> ClassOf(list, u).None?
    case Some(use) =>
      && HasType(list, units, use.useType)
      && (forall t :: HasType(list, units, t) ==> Wins(list, units, use.useType, t))
      && (use.residential <==> AnyDwelling(list, units))
      && Rising(use.datasets) && forall d :: d in use.datasets <==> Supplies(list, units, d)
  }

  // ---- The aggregation ----

  lemma {:induction false} AreaOneMore(list: UseList, units: seq<Unit>, u: Unit, t: string)
    ensures AreaOf(list, units + [u], t)
            == AreaOf(list, units, t)
               + if ClassOf(list, u).Some? && ClassOf(list, u).value.useType == t then u.area else 0.0
  {
    if units == [] {
      assert [] + [u] == [u];
    } else {
      assert (units + [u])[1..] == units[1..] + [u];
      AreaOneMore(list, units[1..], u, t);
    }
  }

  lemma {:induction false} NoArea(list: UseList, units: seq<Unit>, t: string)
    requires !HasType(list, units, t)
    ensures AreaOf(list, units, t) == 0.0
  {
    if units != [] {
      assert units[0] in units;
      assert !HasType(list, units[1..], t) by {
        assert forall u :: u in units[1..] ==> u in units;
      }
      NoArea(list, units[1..], t);
    }
  }

  lemma OneMore(list: UseList, units: seq<Unit>, u: Unit, t: string)
    ensures HasType(list, units + [u], t)
            <==> HasType(list, units, t) || (ClassOf(list, u).Some? && ClassOf(list, u).value.useType == t)
  {
    assert u in units + [u];
    if HasType(list, units, t) {
      var v :| v in units && ClassOf(list, v).Some? && ClassOf(list, v).value.useType == t;
      assert v in units + [u];
    }
    if HasType(list, units + [u], t) {
      var v :| v in units + [u] && ClassOf(list, v).Some? && ClassOf(list, v).value.useType == t;
      assert v == u || v in units;
    }
  }

  lemma OthersOneMore(list: UseList, units: seq<Unit>, u: Unit)
    ensures AnyDwelling(list, units + [u])
            <==> AnyDwelling(list, units) || (ClassOf(list, u).Some? && ClassOf(list, u).value.residential)
    ensures forall d :: Supplies(list, units + [u], d)
                        <==> Supplies(list, units, d) || (ClassOf(list, u).Some? && u.datasetId == d)
  {
    var more := units + [u];
    assert forall v :: v in more <==> v in units || v == u;
  }

  /** areas holds the types of the units with their total areas. */
  ghost predicate Adds(list: UseList, units: seq<Unit>, areas: map<string, real>) {
    && (forall t :: t in areas <==> HasType(list, units, t))
    && (forall t :: t in areas ==> areas[t] == AreaOf(list, units, t))
  }

  lemma AddsOneMore(list: UseList, units: seq<Unit>, u: Unit, areas: map<string, real>)
    requires Adds(list, units, areas)
    ensures ClassOf(list, u).None? ==> Adds(list, units + [u], areas)
    ensures ClassOf(list, u).Some? ==>
              var t := ClassOf(list, u).value.useType;
              Adds(list, units + [u], areas[t := (if t in areas then areas[t] else 0.0) + u.area])
  {
    forall t ensures HasType(list, units + [u], t)
                     <==> HasType(list, units, t) || (ClassOf(list, u).Some? && ClassOf(list, u).value.useType == t)
    {
      OneMore(list, units, u, t);
    }
    forall t | HasType(list, units + [u], t)
      ensures AreaOf(list, units + [u], t)
              == (if t in areas then areas[t] else 0.0)
                 + if ClassOf(list, u).Some? && ClassOf(list, u).value.useType == t then u.area else 0.0
    {
      AreaOneMore(list, units, u, t);
      if t !in areas {
        NoArea(list, units, t);
      }
    }
  }

  lemma MappedHaveAreas(list: UseList, units: seq<Unit>, areas: map<string, real>)
    requires Adds(list, units, areas)
    ensures forall u :: u in units && ClassOf(list, u).Some? ==> ClassOf(list, u).value.useType in areas
  {
    forall u | u in units && ClassOf(list, u).Some? ensures ClassOf(list, u).value.useType in areas {
      assert HasType(list, units, ClassOf(list, u).value.useType);
    }
  }

  /** The first loop: areas by type, any dwelling, and the datasets as they come. */
  method Aggregate(list: UseList, units: seq<Unit>)
    returns (areas: map<string, real>, residential: bool, datasets: seq<string>)
    ensures Adds(list, units, areas)
    ensures residential <==> AnyDwelling(list, units)
    ensures forall d :: d in datasets <==> Supplies(list, units, d)
  {
    areas, residential, datasets := map[], false, [];
    for i := 0 to |units|
      invariant Adds(list, units[..i], areas)
      invariant residential <==> AnyDwelling(list, units[..i])
      invariant forall d :: d in datasets <==> Supplies(list, units[..i], d)
    {
      var u := units[i];
      var c := ClassOf(list, u);
      AddsOneMore(list, units[..i], u, areas);
      OthersOneMore(list, units[..i], u);
      assert units[..i] + [u] == units[..i + 1];
      if c.Some? {
        var t := c.value.useType;
        areas := areas[t := (if t in areas then areas[t] else 0.0) + u.area];
        residential := residential || c.value.residential;
        datasets := datasets + [u.datasetId];
      }
    }
    assert units[..|units|] == units;
  }

  /** Go: slices.Sorted over a map's keys, or Sort and Compact over a list. */
  method SortedDistinct(names: seq<string>) returns (s: seq<string>)
    ensures Rising(s) && forall x :: x in s <==> x in names
  {
    s := [];
    for i := 0 to |names|
      invariant Rising(s) && forall x :: x in s <==> x in names[..i]
    {
      forall y ensures y in Placed(s, names[i]) <==> y == names[i] || y in s {
        PlacedMembers(s, names[i], y);
      }
      PlacedRises(s, names[i]);
      s := Placed(s, names[i]);
      assert names[..i + 1] == names[..i] + [names[i]];
    }
    assert names[..|names|] == names;
  }

  method SortedKeys(areas: map<string, real>) returns (s: seq<string>)
    ensures Rising(s) && forall x :: x in s <==> x in areas
  {
    var todo := areas.Keys;
    s := [];
    while todo != {}
      invariant todo <= areas.Keys
      invariant Rising(s) && forall x :: x in s <==> x in areas && x !in todo
      decreases todo
    {
      var k :| k in todo;
      forall y ensures y in Placed(s, k) <==> y == k || y in s {
        PlacedMembers(s, k, y);
      }
      PlacedRises(s, k);
      s, todo := Placed(s, k), todo - {k};
    }
  }

  /** The largest area; among equals the first name. */
  method Largest(areas: map<string, real>) returns (best: string)
    requires areas != map[] && "" !in areas
    ensures best in areas
    ensures forall t :: t in areas ==> areas[best] > areas[t] || (areas[best] == areas[t] && (best == t || Before(best, t)))
  {
    var keys := SortedKeys(areas);
    best := "";
    for i := 0 to |keys|
      invariant best == "" <==> i == 0
      invariant i > 0 ==> best in keys[..i]
      invariant forall j :: 0 <= j < i ==> areas[best] > areas[keys[j]]
                                           || (areas[best] == areas[keys[j]] && (best == keys[j] || Before(best, keys[j])))
    {
      if best == "" || areas[keys[i]] > areas[best] {
        best := keys[i];
      }
    }
    var t :| t in areas;
    assert t in keys;
  }

  /** useTypeFromUnits: the winning type, whether any unit is a dwelling, and the
      datasets in order; nothing exactly when no unit maps. */
  method UseTypeFromUnits(list: UseList, units: seq<Unit>) returns (r: Option<Use>)
    requires Parsed(list)
    ensures IsUse(list, units, r)
  {
    var areas, residential, datasets := Aggregate(list, units);
    MappedHaveAreas(list, units, areas);
    if |areas| == 0 {
      return None;
    }
    assert "" !in areas;
    var best := Largest(areas);
    datasets := SortedDistinct(datasets);
    r := Some(Use(best, residential, datasets));
  }

  // ---- The order of the units does not matter ----

  lemma {:induction false} AreaWithout(list: UseList, units: seq<Unit>, i: nat, t: string)
    requires i < |units|
    ensures AreaOf(list, units, t) == AreaOf(list, [units[i]], t) + AreaOf(list, units[..i] + units[i + 1..], t)
  {
    if i == 0 {
      assert units[..0] + units[1..] == units[1..];
    } else {
      AreaWithout(list, units[1..], i - 1, t);
      var less := units[..i] + units[i + 1..];
      assert less[1..] == units[1..][..i - 1] + units[1..][i..];
    }
  }

  lemma {:induction false} AreaOfPermutation(list: UseList, a: seq<Unit>, b: seq<Unit>, t: string)
    requires multiset(a) == multiset(b)
    ensures AreaOf(list, a, t) == AreaOf(list, b, t)
  {
    assert |a| == |multiset(a)| == |b|;
    if a != [] {
      SameMembers(a, b);
      assert a[0] in b;
      var i :| 0 <= i < |b| && b[i] == a[0];
      AreaWithout(list, b, i, t);
      AreaWithout(list, a, 0, t);
      assert a[..0] + a[1..] == a[1..];
      WithoutOne(b, i);
      TailMultiset(a);
      MultisetCancels(a[0], multiset(a[1..]), multiset(b[..i] + b[i + 1..]));
      AreaOfPermutation(list, a[1..], b[..i] + b[i + 1..], t);
    }
  }

  /** The meaning is unique, and the same for every order of the units. */
  lemma OrderIsImmaterial(list: UseList, a: seq<Unit>, b: seq<Unit>, r: Option<Use>, q: Option<Use>)
    requires multiset(a) == multiset(b) && IsUse(list, a, r) && IsUse(list, b, q)
    ensures r == q
  {
    SameMembers(a, b);
    forall t ensures AreaOf(list, a, t) == AreaOf(list, b, t) {
      AreaOfPermutation(list, a, b, t);
    }
    if r.Some? && q.Some? {
      assert HasType(list, a, q.value.useType) && HasType(list, b, r.value.useType);
      BeforeIsTotal(r.value.useType, q.value.useType);
      RisingIsUnique(r.value.datasets, q.value.datasets);
    }
  }
}
