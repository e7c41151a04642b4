/** When two boxes lie within the tenth of a metre that attaches buildings to each other. */
module Nearness {
  import opened Geometry

  const ATTACHED_GAP := 0.1

  function Gap(lo: real, hi: real, lo2: real, hi2: real): real {
    Max(0.0, Max(lo2 - hi, lo - hi2))
  }

  /** Two boxes lie within 0.1 of each other. */
  predicate WithinGap(a: Bbox, b: Bbox) {
    var dx, dy := Gap(a.xmin, a.xmax, b.xmin, b.xmax), Gap(a.ymin, a.ymax, b.ymin, b.ymax);
    dx * dx + dy * dy <= ATTACHED_GAP * ATTACHED_GAP
  }

  /** Two points no more than a tenth apart. */
  predicate Close(x: real, y: real, u: real, v: real) {
    (x - u) * (x - u) + (y - v) * (y - v) <= 1.0 / 100.0
  }

  /** Where two intervals come closest. */
  function Nearest(lo: real, hi: real, lo2: real, hi2: real): real {
    if lo2 > hi then hi else if lo > lo2 then lo else lo2
  }

  lemma NearestMeets(lo: real, hi: real, lo2: real, hi2: real) returns (x: real, u: real)
    requires lo <= hi && lo2 <= hi2
    ensures lo <= x <= hi && lo2 <= u <= hi2 && (x - u == Gap(lo, hi, lo2, hi2) || u - x == Gap(lo, hi, lo2, hi2))
  {
    x := Nearest(lo, hi, lo2, hi2);
    u := if x < lo2 then lo2 else if x > hi2 then hi2 else x;
  }

  lemma NoCloserThanGap(lo: real, hi: real, lo2: real, hi2: real, x: real, u: real)
    requires lo <= x <= hi && lo2 <= u <= hi2
    ensures var g := Gap(lo, hi, lo2, hi2); 0.0 <= g && g * g <= (x - u) * (x - u)
  {
    var g := Gap(lo, hi, lo2, hi2);
    if x >= u {
      SquaresGrow(g, x - u);
    } else {
      SquaresGrow(g, u - x);
      assert (u - x) * (u - x) == (x - u) * (x - u);
    }
  }

  lemma SquaresGrow(a: real, b: real)
    requires 0.0 <= a <= b
    ensures a * a <= b * b
  {
    assert b * b - a * a == (b - a) * (b + a);
  }

  lemma WithinGapHasPoints(a: Bbox, b: Bbox) returns (x: real, y: real, u: real, v: real)
    requires a.Ordered() && b.Ordered() && WithinGap(a, b)
    ensures a.Covers(x, y) && b.Covers(u, v) && Close(x, y, u, v)
  {
    x, u := NearestMeets(a.xmin, a.xmax, b.xmin, b.xmax);
    y, v := NearestMeets(a.ymin, a.ymax, b.ymin, b.ymax);
    SameSquare(x - u, Gap(a.xmin, a.xmax, b.xmin, b.xmax));
    SameSquare(y - v, Gap(a.ymin, a.ymax, b.ymin, b.ymax));
  }

  lemma SameSquare(d: real, g: real)
    requires d == g || -d == g
    ensures d * d == g * g
  {
  }

  lemma PointsAreWithinGap(a: Bbox, b: Bbox, x: real, y: real, u: real, v: real)
    requires a.Covers(x, y) && b.Covers(u, v) && Close(x, y, u, v)
    ensures WithinGap(a, b)
  {
    NoCloserThanGap(a.xmin, a.xmax, b.xmin, b.xmax, x, u);
    NoCloserThanGap(a.ymin, a.ymax, b.ymin, b.ymax, y, v);
  }

  /** a and b hold two points no more than a tenth apart. */
  ghost predicate HoldClosePoints(a: Bbox, b: Bbox) {
    exists x: real, y: real, u: real, v: real :: a.Covers(x, y) && b.Covers(u, v) && Close(x, y, u, v)
  }

  /** So do boxes with ordered corners exactly when they are within the gap. */
  lemma WithinGapExactly(a: Bbox, b: Bbox)
    requires a.Ordered() && b.Ordered()
    ensures WithinGap(a, b) <==> HoldClosePoints(a, b)
  {
    if WithinGap(a, b) {
      var x, y, u, v := WithinGapHasPoints(a, b);
    }
    if HoldClosePoints(a, b) {
      var x: real, y: real, u: real, v: real :| a.Covers(x, y) && b.Covers(u, v) && Close(x, y, u, v);
      PointsAreWithinGap(a, b, x, y, u, v);
    }
  }
}
