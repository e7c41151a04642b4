/** Surface pages: buildings in object id order, cut by a running vertex total, with the
    last id of a page as the cursor to the next. */
module Paging {
  import opened Wrappers
  import opened Batches
  import opened Cursor
  import opened Sequences

  type Id = seq<byte>

  /** A building of the result: its id, its dataset, and its surfaces' vertices. */
  datatype Row = Row(id: Id, dataset: string, vertices: nat)

  type Order = (Id, Id) -> bool

  /** The database's collation: any strict total order with the empty text first. */
  ghost predicate StrictOrder(lt: Order) {
    && (forall a: Id :: !lt(a, a))
    && (forall a: Id, b: Id, c: Id :: lt(a, b) && lt(b, c) ==> lt(a, c))
    && (forall a: Id, b: Id :: a == b || lt(a, b) || lt(b, a))
    && (forall a: Id :: a != [] ==> lt([], a))
  }

  ghost predicate Sorted(rows: seq<Row>, lt: Order) {
    forall i, j :: 0 <= i < j < |rows| ==> !lt(rows[j].id, rows[i].id)
  }

  // ---- The page query ----

  /** The rows whose id comes after the given one. */
  function After(rows: seq<Row>, id: Id, lt: Order): (r: seq<Row>)
    ensures |r| <= |rows|
  {
    if rows == [] then []
    else (if lt(id, rows[0].id) then [rows[0]] else []) + After(rows[1..], id, lt)
  }

  /** The running total at an id: all rows up to it, its own peers included. */
  function Running(rows: seq<Row>, id: Id, lt: Order): nat {
    if rows == [] then 0
    else (if lt(id, rows[0].id) then 0 else rows[0].vertices) + Running(rows[1..], id, lt)
  }

  /** The rows from j on that the query keeps: the first of all, and those whose running
      total is within the limit. */
  function Kept(rest: seq<Row>, most: int, lt: Order, j: nat): seq<Row>
    requires j <= |rest|
    decreases |rest| - j
  {
    if j == |rest| then []
    else (if Running(rest, rest[j].id, lt) <= most || j == 0 then [rest[j]] else []) + Kept(rest, most, lt, j + 1)
  }

  function Page(rest: seq<Row>, most: int, lt: Order): seq<Row> {
    Kept(rest, most, lt, 0)
  }

  lemma KeptStep(page: seq<Row>, rest: seq<Row>, most: int, lt: Order, j: nat)
    requires j < |rest|
    ensures page + Kept(rest, most, lt, j)
            == (if Running(rest, rest[j].id, lt) <= most || j == 0 then page + [rest[j]] else page)
               + Kept(rest, most, lt, j + 1)
  {
    var later := Kept(rest, most, lt, j + 1);
    Associative(page, [rest[j]], later);
    assert [] + later == later;
  }

  lemma KeptAll(page: seq<Row>, rest: seq<Row>, most: int, lt: Order)
    ensures page + Kept(rest, most, lt, |rest|) == page
  {
  }

  /** The cursor behind a page: its last id, when the query counted more rows than it kept. */
  function CursorAfter(page: seq<Row>, total: nat): string {
    if page != [] && total > |page| then EncodeSurfaceCursor(page[|page| - 1].id) else ""
  }

  /** One page: the kept rows, and a cursor when the query counted more. */
  method SurfacesInBBox(rows: seq<Row>, after: Id, most: int, lt: Order) returns (page: seq<Row>, nextCursor: string)
    ensures page == Page(After(rows, after, lt), most, lt)
    ensures nextCursor == CursorAfter(page, |After(rows, after, lt)|)
  {
    var rest := After(rows, after, lt);
    var total, j := 0, 0;
    page, nextCursor := [], "";
    while j < |rest|
      invariant 0 <= j <= |rest|
      invariant page + Kept(rest, most, lt, j) == Page(rest, most, lt)
      invariant if page == [] then total == 0 else total == |rest|
    {
      KeptStep(page, rest, most, lt, j);
      if Running(rest, rest[j].id, lt) <= most || j == 0 {
        page, total := page + [rest[j]], |rest|;
      }
      j := j + 1;
    }
    KeptAll(page, rest, most, lt);
    nextCursor := CursorAfter(page, total);
  }

  // ---- A page is a prefix that fits ----

  lemma RunningGrows(rows: seq<Row>, a: Id, b: Id, lt: Order)
    requires StrictOrder(lt) && !lt(b, a)
    ensures Running(rows, a, lt) <= Running(rows, b, lt)
  {
    if rows != [] {
      RunningGrows(rows[1..], a, b, lt);
      assert a == b || lt(a, b);
    }
  }

  /** The first row from j on over the limit. */
  function Cut(rest: seq<Row>, most: int, lt: Order, j: nat): (k: nat)
    requires j <= |rest|
    ensures j <= k <= |rest| && (k < |rest| ==> Running(rest, rest[k].id, lt) > most)
    ensures forall i :: j <= i < k ==> Running(rest, rest[i].id, lt) <= most
    decreases |rest| - j
  {
    if j == |rest| || Running(rest, rest[j].id, lt) > most then j else Cut(rest, most, lt, j + 1)
  }

  lemma LaterIsNoLess(rest: seq<Row>, lt: Order, k: nat, j: nat)
    requires StrictOrder(lt) && Sorted(rest, lt) && k <= j < |rest|
    ensures Running(rest, rest[k].id, lt) <= Running(rest, rest[j].id, lt)
  {
    if k < j {
      RunningGrows(rest, rest[k].id, rest[j].id, lt);
    }
  }

  lemma {:induction false} NothingAfterCut(rest: seq<Row>, most: int, lt: Order, k: nat, j: nat)
    requires StrictOrder(lt) && Sorted(rest, lt) && 0 < k <= j <= |rest|
    requires k < |rest| ==> Running(rest, rest[k].id, lt) > most
    ensures Kept(rest, most, lt, j) == []
    decreases |rest| - j
  {
    if j < |rest| {
      LaterIsNoLess(rest, lt, k, j);
      NothingAfterCut(rest, most, lt, k, j + 1);
    }
  }

  lemma {:induction false} KeptUpToCut(rest: seq<Row>, most: int, lt: Order, j: nat)
    requires StrictOrder(lt) && Sorted(rest, lt) && 0 < j <= |rest|
    ensures Kept(rest, most, lt, j) == rest[j..Cut(rest, most, lt, j)]
    decreases |rest| - j
  {
    var k := Cut(rest, most, lt, j);
    if k == j {
      NothingAfterCut(rest, most, lt, j, j);
    } else {
      KeptUpToCut(rest, most, lt, j + 1);
      assert rest[j..k] == [rest[j]] + rest[j + 1..k];
    }
  }

  function Total(rows: seq<Row>): nat {
    if rows == [] then 0 else rows[0].vertices + Total(rows[1..])
  }

  lemma {:induction false} TotalWithinRunning(rows: seq<Row>, k: nat, id: Id, lt: Order)
    requires k <= |rows| && forall i :: 0 <= i < k ==> !lt(id, rows[i].id)
    ensures Total(rows[..k]) <= Running(rows, id, lt)
    decreases k
  {
    if k > 0 {
      assert rows[..k][1..] == rows[1..][..k - 1];
      forall i | 0 <= i < k - 1 ensures !lt(id, rows[1..][i].id) {
        assert rows[1..][i] == rows[i + 1];
      }
      TotalWithinRunning(rows[1..], k - 1, id, lt);
    }
  }

  /** m is where the rows that share row k's id end. */
  ghost predicate IdEnds(rows: seq<Row>, k: nat, m: nat) {
    && k < m <= |rows| && (forall i :: k <= i < m ==> rows[i].id == rows[k].id)
    && (m < |rows| ==> rows[m].id != rows[k].id)
  }

  lemma LaterIdsCountNothing(rows: seq<Row>, m: nat, id: Id, lt: Order)
    requires m <= |rows| && forall i :: m <= i < |rows| ==> lt(id, rows[i].id)
    ensures Running(rows[m..], id, lt) == 0
    decreases |rows| - m
  {
    if m < |rows| {
      assert rows[m..][1..] == rows[m + 1..];
      LaterIdsCountNothing(rows, m + 1, id, lt);
    }
  }

  lemma {:induction false} RunningSplits(rows: seq<Row>, m: nat, id: Id, lt: Order)
    requires m <= |rows| && (forall i :: 0 <= i < m ==> !lt(id, rows[i].id)) && Running(rows[m..], id, lt) == 0
    ensures Running(rows, id, lt) == Total(rows[..m])
    decreases m
  {
    if m == 0 {
      assert rows[0..] == rows;
    } else {
      assert rows[1..][m - 1..] == rows[m..] && rows[..m][1..] == rows[1..][..m - 1];
      forall i | 0 <= i < m - 1 ensures !lt(id, rows[1..][i].id) {
        assert rows[1..][i] == rows[i + 1];
      }
      RunningSplits(rows[1..], m - 1, id, lt);
    }
  }

  /** The running total at a row is that of all rows up to the last one with its id. */
  lemma RunningIsTotal(rows: seq<Row>, k: nat, m: nat, lt: Order)
    requires StrictOrder(lt) && Sorted(rows, lt) && IdEnds(rows, k, m)
    ensures Running(rows, rows[k].id, lt) == Total(rows[..m])
  {
    var id := rows[k].id;
    forall i | m <= i < |rows| ensures lt(id, rows[i].id) {
      assert !lt(rows[m].id, id) && !lt(rows[i].id, rows[m].id);
      assert rows[m].id == rows[i].id || lt(rows[m].id, rows[i].id);
    }
    forall i | 0 <= i < m ensures !lt(id, rows[i].id) {
      assert i < k ==> !lt(rows[k].id, rows[i].id);
    }
    LaterIdsCountNothing(rows, m, id, lt);
    RunningSplits(rows, m, id, lt);
  }

  /** A page of a non-empty remainder is a non-empty prefix of it. It stops at the first
      row but one with which all rows up to the last of that row's id exceed the limit. */
  lemma PageFitsExactly(rest: seq<Row>, most: int, lt: Order)
    requires StrictOrder(lt) && Sorted(rest, lt) && rest != []
    ensures var k := |Page(rest, most, lt)|;
            && 1 <= k <= |rest| && Page(rest, most, lt) == rest[..k]
            && (forall i: nat, m: nat :: 1 <= i < k && IdEnds(rest, i, m) ==> Total(rest[..m]) <= most)
            && (forall m: nat :: k < |rest| && IdEnds(rest, k, m) ==> Total(rest[..m]) > most)
  {
    PageIsPrefix(rest, most, lt);
    forall i: nat, m: nat | i < |rest| && IdEnds(rest, i, m) ensures Running(rest, rest[i].id, lt) == Total(rest[..m]) {
      RunningIsTotal(rest, i, m, lt);
    }
  }

  /** A page of a non-empty remainder is a non-empty prefix of it that either fits the
      limit or is a single building, and it stops only before a row that does not fit. */
  lemma PageIsPrefix(rest: seq<Row>, most: int, lt: Order)
    requires StrictOrder(lt) && Sorted(rest, lt) && rest != []
    ensures var k := |Page(rest, most, lt)|;
            && 1 <= k <= |rest| && Page(rest, most, lt) == rest[..k]
            && (k == 1 || Total(rest[..k]) <= most)
            && (forall i :: 1 <= i < k ==> Running(rest, rest[i].id, lt) <= most)
            && (k < |rest| ==> Running(rest, rest[k].id, lt) > most)
  {
    var k := Cut(rest, most, lt, 1);
    KeptUpToCut(rest, most, lt, 1);
    assert rest[..k] == [rest[0]] + rest[1..k];
    if k > 1 {
      TotalWithinRunning(rest, k, rest[k - 1].id, lt);
    }
  }

  // ---- Following the cursors ----

  /** The id a cursor stands for. */
  function Start(cursor: string): Id {
    match DecodeSurfaceCursor(cursor)
    case Ok(id) => id
    case Err => []
  }

  lemma {:induction false} AfterMembers(rows: seq<Row>, id: Id, lt: Order, r: Row)
    requires r in After(rows, id, lt)
    ensures r in rows && lt(id, r.id)
  {
    if !(lt(id, rows[0].id) && r == rows[0]) {
      AfterMembers(rows[1..], id, lt, r);
    }
  }

  /** Going on after a later id is going on within the remainder. */
  lemma {:induction false} AfterAfter(rows: seq<Row>, a: Id, b: Id, lt: Order)
    requires StrictOrder(lt) && lt(a, b)
    ensures After(After(rows, a, lt), b, lt) == After(rows, b, lt)
  {
    if rows != [] {
      AfterAfter(rows[1..], a, b, lt);
      var rest := After(rows[1..], a, lt);
      if lt(a, rows[0].id) {
        assert ([rows[0]] + rest)[1..] == rest;
      } else {
        assert !lt(b, rows[0].id);
        assert [] + rest == rest;
      }
    }
  }

  lemma {:induction false} AfterShrinks(rows: seq<Row>, i: nat, lt: Order)
    requires StrictOrder(lt) && i < |rows|
    ensures |After(rows, rows[i].id, lt)| < |rows|
  {
    if i > 0 {
      AfterShrinks(rows[1..], i - 1, lt);
    }
  }

  lemma {:induction false} AfterIsSorted(rows: seq<Row>, id: Id, lt: Order)
    requires Sorted(rows, lt)
    ensures Sorted(After(rows, id, lt), lt)
  {
    if rows != [] {
      forall i, j | 0 <= i < j < |rows[1..]| ensures !lt(rows[1..][j].id, rows[1..][i].id) {
        assert rows[1..][j] == rows[j + 1] && rows[1..][i] == rows[i + 1];
      }
      AfterIsSorted(rows[1..], id, lt);
      var rest := After(rows[1..], id, lt);
      forall j | 0 <= j < |rest| ensures !lt(rest[j].id, rows[0].id) {
        AfterMembers(rows[1..], id, lt, rest[j]);
        var k :| 0 <= k < |rows[1..]| && rows[1..][k] == rest[j];
        assert rows[k + 1] == rest[j];
      }
    }
  }

  /** The pages a client collects that starts at a cursor and follows the next ones. */
  ghost function Listing(rows: seq<Row>, cursor: string, most: int, lt: Order): seq<seq<Row>>
    requires StrictOrder(lt) && Sorted(rows, lt)
    decreases |After(rows, Start(cursor), lt)|
  {
    var rest := After(rows, Start(cursor), lt);
    var page := Page(rest, most, lt);
    var next := CursorAfter(page, |rest|);
    NextCursor(rows, cursor, most, lt);
    if next == "" then [page] else [page] + Listing(rows, next, most, lt)
  }

  /** A page that leaves something has a cursor, which stands for its last id. */
  lemma NextCursor(rows: seq<Row>, cursor: string, most: int, lt: Order)
    requires StrictOrder(lt) && Sorted(rows, lt)
    ensures var rest := After(rows, Start(cursor), lt);
            var page := Page(rest, most, lt);
            var next := CursorAfter(page, |rest|);
            && (next == "" <==> rest == [] || |page| == |rest|)
            && (next != "" ==> next == EncodeSurfaceCursor(LastOfPage(rows, cursor, most, lt))
                               && |After(rows, Start(next), lt)| < |rest|)
  {
    var rest := After(rows, Start(cursor), lt);
    if rest != [] {
      var last := LastOfPage(rows, cursor, most, lt);
      var page := Page(rest, most, lt);
      LastIsLater(rest, page[|page| - 1], most, lt);
      LaterIsNotEmpty(rows, Start(cursor), page[|page| - 1], lt);
      CursorOf(page, |rest|, last);
    }
  }

  lemma LastIsLater(rest: seq<Row>, r: Row, most: int, lt: Order)
    requires r in Page(rest, most, lt)
    ensures r in rest
  {
    KeptMembers(rest, most, lt, 0, r);
  }

  lemma {:induction false} KeptMembers(rest: seq<Row>, most: int, lt: Order, j: nat, r: Row)
    requires j <= |rest| && r in Kept(rest, most, lt, j)
    ensures r in rest
    decreases |rest| - j
  {
    if r != rest[j] {
      KeptMembers(rest, most, lt, j + 1, r);
    }
  }

  lemma LaterIsNotEmpty(rows: seq<Row>, after: Id, r: Row, lt: Order)
    requires StrictOrder(lt) && r in After(rows, after, lt)
    ensures r.id != []
  {
    AfterMembers(rows, after, lt, r);
    assert lt(after, r.id) && !lt(after, after) && (after != [] ==> lt([], after));
  }

  lemma CursorOf(page: seq<Row>, total: nat, last: Id)
    requires page != [] && last == page[|page| - 1].id && last != []
    ensures CursorAfter(page, total) == if total > |page| then EncodeSurfaceCursor(last) else ""
    ensures EncodeSurfaceCursor(last) != "" && Start(EncodeSurfaceCursor(last)) == last
  {
    CursorRoundTrip(last);
  }

  ghost function LastOfPage(rows: seq<Row>, cursor: string, most: int, lt: Order): (last: Id)
    requires StrictOrder(lt) && Sorted(rows, lt) && After(rows, Start(cursor), lt) != []
    ensures var rest := After(rows, Start(cursor), lt);
            var page := Page(rest, most, lt);
            && page != [] && last == page[|page| - 1].id && |page| <= |rest|
            && Start(EncodeSurfaceCursor(last)) == last
            && After(rows, last, lt) == After(rest, last, lt) && |After(rest, last, lt)| < |rest|
  {
    var rest := After(rows, Start(cursor), lt);
    AfterIsSorted(rows, Start(cursor), lt);
    PageIsPrefix(rest, most, lt);
    var k := |Page(rest, most, lt)|;
    NextIsLater(rows, Start(cursor), k - 1, lt);
    rest[k - 1].id
  }

  /** The id of a remaining row comes back from its cursor, and less remains after it. */
  lemma NextIsLater(rows: seq<Row>, after: Id, i: nat, lt: Order)
    requires StrictOrder(lt) && i < |After(rows, after, lt)|
    ensures var rest := After(rows, after, lt);
            && Start(EncodeSurfaceCursor(rest[i].id)) == rest[i].id
            && After(rows, rest[i].id, lt) == After(rest, rest[i].id, lt)
            && |After(rest, rest[i].id, lt)| < |rest|
  {
    var rest := After(rows, after, lt);
    CursorRoundTrip(rest[i].id);
    AfterMembers(rows, after, lt, rest[i]);
    AfterAfter(rows, after, rest[i].id, lt);
    AfterShrinks(rest, i, lt);
  }

  /** The same rows, seen from the remainder alone. */
  ghost function Listed(rest: seq<Row>, most: int, lt: Order): seq<Row>
    requires StrictOrder(lt) && Sorted(rest, lt)
    decreases |rest|
  {
    if rest == [] then []
    else
      PageIsPrefix(rest, most, lt);
      var k := |Page(rest, most, lt)|;
      if k == |rest| then rest
      else
        var last := rest[k - 1].id;
        AfterShrinks(rest, k - 1, lt);
        AfterIsSorted(rest, last, lt);
        Page(rest, most, lt) + Listed(After(rest, last, lt), most, lt)
  }

  lemma {:induction false} ListingIsListed(rows: seq<Row>, cursor: string, most: int, lt: Order)
    requires StrictOrder(lt) && Sorted(rows, lt)
    requires Sorted(After(rows, Start(cursor), lt), lt)
    ensures Concat(Listing(rows, cursor, most, lt)) == Listed(After(rows, Start(cursor), lt), most, lt)
    decreases |After(rows, Start(cursor), lt)|
  {
    var rest := After(rows, Start(cursor), lt);
    var page := Page(rest, most, lt);
    if rest != [] {
      PageIsPrefix(rest, most, lt);
      NextCursor(rows, cursor, most, lt);
      var k := |Page(rest, most, lt)|;
      if |page| == |rest| {
        assert Concat([page]) == page + Concat([]);
      } else {
        var last := LastOfPage(rows, cursor, most, lt);
        AfterIsSorted(rows, last, lt);
        ListingIsListed(rows, EncodeSurfaceCursor(last), most, lt);
        var later := Listing(rows, EncodeSurfaceCursor(last), most, lt);
        assert ([page] + later)[1..] == later;
      }
    }
  }

  // ---- Exactly when nothing is lost ----

  /** The vertices of all rows with one id. */
  function Group(rows: seq<Row>, id: Id): nat {
    if rows == [] then 0 else (if rows[0].id == id then rows[0].vertices else 0) + Group(rows[1..], id)
  }

  /** No id that several rows share is larger than a page. */
  ghost predicate SharedIdsFit(rows: seq<Row>, most: int) {
    forall i :: 0 <= i < |rows| - 1 && rows[i].id == rows[i + 1].id ==> Group(rows, rows[i].id) <= most
  }

  lemma {:induction false} GroupWithinRunning(rows: seq<Row>, id: Id, lt: Order)
    requires StrictOrder(lt)
    ensures Group(rows, id) <= Running(rows, id, lt)
  {
    if rows != [] {
      GroupWithinRunning(rows[1..], id, lt);
    }
  }

  lemma {:induction false} RunningAtLeast(rows: seq<Row>, id: Id, lt: Order)
    requires StrictOrder(lt) && forall i :: 0 <= i < |rows| ==> !lt(rows[i].id, id)
    ensures Running(rows, id, lt) == Group(rows, id)
  {
    if rows != [] {
      forall i | 0 <= i < |rows[1..]| ensures !lt(rows[1..][i].id, id) {
        assert rows[1..][i] == rows[i + 1];
      }
      RunningAtLeast(rows[1..], id, lt);
      assert rows[0].id == id || lt(id, rows[0].id);
    }
  }

  lemma {:induction false} GroupElsewhere(rows: seq<Row>, k: nat, id: Id)
    requires k <= |rows| && forall i :: 0 <= i < k ==> rows[i].id != id
    ensures Group(rows, id) == Group(rows[k..], id)
    decreases k
  {
    if k == 0 {
      assert rows[0..] == rows;
    } else {
      forall i | 0 <= i < k - 1 ensures rows[1..][i].id != id {
        assert rows[1..][i] == rows[i + 1];
      }
      GroupElsewhere(rows[1..], k - 1, id);
      assert rows[1..][k - 1..] == rows[k..];
    }
  }

  lemma {:induction false} AfterIsSuffix(rows: seq<Row>, k: nat, id: Id, lt: Order)
    requires k <= |rows| && forall i :: 0 <= i < |rows| ==> (lt(id, rows[i].id) <==> k <= i)
    ensures After(rows, id, lt) == rows[k..]
    decreases |rows|
  {
    if rows != [] {
      var k1 := if k == 0 then 0 else k - 1;
      forall i | 0 <= i < |rows[1..]| ensures lt(id, rows[1..][i].id) <==> k1 <= i {
        assert rows[1..][i] == rows[i + 1];
      }
      AfterIsSuffix(rows[1..], k1, id, lt);
      assert k > 0 ==> rows[1..][k1..] == rows[k..];
      assert k == 0 ==> rows == [rows[0]] + rows[1..];
    }
  }

  /** Where the next page starts a new id, it starts where this one ended. */
  lemma NextStartsAt(rest: seq<Row>, k: nat, lt: Order)
    requires StrictOrder(lt) && Sorted(rest, lt) && 0 < k < |rest| && rest[k - 1].id != rest[k].id
    ensures After(rest, rest[k - 1].id, lt) == rest[k..]
    ensures forall i, j :: 0 <= i < k <= j < |rest| ==> rest[i].id != rest[j].id
  {
    var last := rest[k - 1].id;
    assert lt(last, rest[k].id);
    forall i | 0 <= i < |rest| ensures lt(last, rest[i].id) <==> k <= i {
      if i > k {
        assert !lt(rest[i].id, rest[k].id);
        assert rest[k].id == rest[i].id || lt(rest[k].id, rest[i].id);
      } else if i < k - 1 {
        assert !lt(last, rest[i].id);
      }
    }
    forall i, j | 0 <= i < k <= j < |rest| ensures rest[i].id != rest[j].id {
      assert lt(last, rest[j].id) && !lt(last, rest[i].id);
    }
    AfterIsSuffix(rest, k, last, lt);
  }

  lemma SharedIdsFitAfter(rest: seq<Row>, k: nat, most: int, lt: Order)
    requires StrictOrder(lt) && 0 < k < |rest| && rest[k - 1].id != rest[k].id
    requires forall i, j :: 0 <= i < k <= j < |rest| ==> rest[i].id != rest[j].id
    requires forall i :: 1 <= i < k ==> Running(rest, rest[i].id, lt) <= most
    ensures SharedIdsFit(rest, most) <==> SharedIdsFit(rest[k..], most)
  {
    forall j | k <= j < |rest| ensures Group(rest, rest[j].id) == Group(rest[k..], rest[j].id) {
      GroupElsewhere(rest, k, rest[j].id);
    }
    if SharedIdsFit(rest[k..], most) {
      forall i | 0 <= i < |rest| - 1 && rest[i].id == rest[i + 1].id ensures Group(rest, rest[i].id) <= most {
        if i + 1 < k {
          GroupWithinRunning(rest, rest[i + 1].id, lt);
        } else {
          assert i >= k && rest[k..][i - k] == rest[i] && rest[k..][i - k + 1] == rest[i + 1];
        }
      }
    }
    if SharedIdsFit(rest, most) {
      forall i | 0 <= i < |rest[k..]| - 1 && rest[k..][i].id == rest[k..][i + 1].id
        ensures Group(rest[k..], rest[k..][i].id) <= most
      {
        assert rest[k..][i] == rest[k + i] && rest[k..][i + 1] == rest[k + i + 1];
      }
    }
  }

  lemma {:induction false} ListedIsNoLonger(rest: seq<Row>, most: int, lt: Order)
    requires StrictOrder(lt) && Sorted(rest, lt)
    ensures |Listed(rest, most, lt)| <= |rest|
    decreases |rest|
  {
    if rest != [] {
      PageIsPrefix(rest, most, lt);
      var k := |Page(rest, most, lt)|;
      if k < |rest| {
        var last := rest[k - 1].id;
        AfterIsSorted(rest, last, lt);
        AfterShrinks(rest, k - 1, lt);
        ListedIsNoLonger(After(rest, last, lt), most, lt);
        AtMostTheRest(rest, k, lt);
      }
    }
  }

  lemma {:induction false} AfterSkips(rows: seq<Row>, k: nat, id: Id, lt: Order)
    requires k <= |rows| && forall i :: 0 <= i < k ==> !lt(id, rows[i].id)
    ensures After(rows, id, lt) == After(rows[k..], id, lt)
    decreases k
  {
    if k == 0 {
      assert rows[0..] == rows;
    } else {
      AfterSkips(rows, k - 1, id, lt);
      assert rows[k - 1..][1..] == rows[k..];
    }
  }

  lemma AtMostTheRest(rest: seq<Row>, k: nat, lt: Order)
    requires StrictOrder(lt) && Sorted(rest, lt) && 0 < k < |rest|
    ensures |After(rest, rest[k - 1].id, lt)| <= |rest| - k
    ensures rest[k].id == rest[k - 1].id ==> |After(rest, rest[k - 1].id, lt)| < |rest| - k
  {
    var last := rest[k - 1].id;
    AfterSkips(rest, k, last, lt);
    if rest[k].id == last {
      AfterShrinks(rest[k..], 0, lt);
    }
  }

  lemma OnePageFits(rest: seq<Row>, most: int, lt: Order)
    requires StrictOrder(lt) && forall i :: 1 <= i < |rest| ==> Running(rest, rest[i].id, lt) <= most
    ensures SharedIdsFit(rest, most)
  {
    forall i | 0 <= i < |rest| - 1 && rest[i].id == rest[i + 1].id ensures Group(rest, rest[i].id) <= most {
      GroupWithinRunning(rest, rest[i + 1].id, lt);
    }
  }

  lemma ListedStep(rest: seq<Row>, k: nat, most: int, lt: Order)
    requires StrictOrder(lt) && Sorted(rest, lt) && 0 < k < |rest| && Page(rest, most, lt) == rest[..k]
    requires Sorted(rest[k..], lt) && After(rest, rest[k - 1].id, lt) == rest[k..]
    ensures Listed(rest, most, lt) == rest <==> Listed(rest[k..], most, lt) == rest[k..]
  {
    PrefixCancels(rest, k, Listed(rest[k..], most, lt));
  }

  lemma {:induction false} ListedExactly(rest: seq<Row>, most: int, lt: Order)
    requires StrictOrder(lt) && Sorted(rest, lt)
    ensures Listed(rest, most, lt) == rest <==> SharedIdsFit(rest, most)
    decreases |rest|
  {
    if rest != [] {
      PageIsPrefix(rest, most, lt);
      var k := |Page(rest, most, lt)|;
      if k == |rest| {
        OnePageFits(rest, most, lt);
      } else if rest[k - 1].id == rest[k].id {
        GroupIsCut(rest, k, most, lt);
      } else {
        NextStartsAt(rest, k, lt);
        SharedIdsFitAfter(rest, k, most, lt);
        AfterIsSorted(rest, rest[k - 1].id, lt);
        ListedStep(rest, k, most, lt);
        ListedExactly(rest[k..], most, lt);
      }
    }
  }

  /** A page that ends within an id holds one row of an id too large for a page, and the
      other rows of that id are never listed. */
  lemma GroupIsCut(rest: seq<Row>, k: nat, most: int, lt: Order)
    requires StrictOrder(lt) && Sorted(rest, lt) && 0 < k < |rest| && Page(rest, most, lt) == rest[..k]
    requires forall i :: 1 <= i < k ==> Running(rest, rest[i].id, lt) <= most
    requires Running(rest, rest[k].id, lt) > most && rest[k - 1].id == rest[k].id
    ensures k == 1 && !SharedIdsFit(rest, most) && |Listed(rest, most, lt)| < |rest|
  {
    assert k == 1;
    RunningAtLeast(rest, rest[0].id, lt);
    assert rest[0].id == rest[0 + 1].id;
    AtMostTheRest(rest, k, lt);
    AfterIsSorted(rest, rest[0].id, lt);
    ListedIsNoLonger(After(rest, rest[0].id, lt), most, lt);
  }

  /** From the empty cursor to the last page: every building is listed exactly once and
      in order, exactly when none has an empty id and no id that several rows share is
      larger than a page. Unique non-empty ids, in particular, lose nothing. */
  lemma ListingIsComplete(rows: seq<Row>, most: int, lt: Order)
    requires StrictOrder(lt) && Sorted(rows, lt)
    ensures Concat(Listing(rows, "", most, lt)) == rows
            <==> (forall i :: 0 <= i < |rows| ==> rows[i].id != []) && SharedIdsFit(rows, most)
  {
    assert DecodeSurfaceCursor("") == Ok([]);
    AfterIsSorted(rows, [], lt);
    ListingIsListed(rows, "", most, lt);
    var rest := After(rows, [], lt);
    ListedIsNoLonger(rest, most, lt);
    if i :| 0 <= i < |rows| && rows[i].id == [] {
      AfterShrinks(rows, i, lt);
    } else {
      AfterIsSuffix(rows, 0, [], lt);
      assert rows[0..] == rows;
      ListedExactly(rows, most, lt);
    }
  }
}
