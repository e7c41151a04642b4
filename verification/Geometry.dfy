/** Closed axis-aligned boxes over one planar coordinate system, as the run lock,
    the file selection and the extraction area use them. */
module Geometry {

  datatype Bbox = Bbox(xmin: real, ymin: real, xmax: real, ymax: real) {

    /** True for boxes whose corners are given in ascending order. */
    predicate Ordered() {
      xmin <= xmax && ymin <= ymax
    }

    predicate Covers(x: real, y: real) {
      xmin <= x <= xmax && ymin <= y <= ymax
    }

    /** The region lock's test (Go: Bbox.Overlaps). */
    predicate Overlaps(other: Bbox) {
      && xmin <= other.xmax && xmax >= other.xmin
      && ymin <= other.ymax && ymax >= other.ymin
    }

    /** True when this box lies inside other. */
    predicate Within(other: Bbox) {
      && other.xmin <= xmin && xmax <= other.xmax
      && other.ymin <= ymin && ymax <= other.ymax
    }
  }

  function Max(a: real, b: real): real {
    if a < b then b else a
  }

  /** Some ground point lies in both boxes. */
  ghost predicate ShareGround(a: Bbox, b: Bbox) {
    exists x: real, y: real :: a.Covers(x, y) && b.Covers(x, y)
  }

  /** Overlaps never misses common ground, and it reports nothing but common
      ground exactly for boxes that cover any ground at all. */
  lemma OverlapsIsCommonGround(a: Bbox, b: Bbox)
    ensures ShareGround(a, b) <==> a.Overlaps(b) && a.Ordered() && b.Ordered()
  {
    if a.Overlaps(b) && a.Ordered() && b.Ordered() {
      var x, y := Max(a.xmin, b.xmin), Max(a.ymin, b.ymin);
      assert a.Covers(x, y) && b.Covers(x, y);
    }
  }
}
