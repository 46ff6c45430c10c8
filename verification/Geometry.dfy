/** Points, boxes and bags of points, over the reals. */
module Geometry {

  type Axis = a: nat | a < 3

  datatype Option<+T> = None | Some(value: T)

  datatype Point = Point(x: real, y: real, z: real) {
    function At(a: Axis): real {
      if a == 0 then x else if a == 1 then y else z
    }
  }

  /** `lo` and `hi` corners. A query box is half open, a node range is closed. */
  datatype Box = Box(lo: Point, hi: Point)

  function Min(a: real, b: real): real { if b < a then b else a }
  function Max(a: real, b: real): real { if a < b then b else a }

  predicate InBox(b: Box, p: Point) {
    && b.lo.x <= p.x < b.hi.x
    && b.lo.y <= p.y < b.hi.y
    && b.lo.z <= p.z < b.hi.z
  }

  predicate InRange(r: Box, p: Point) {
    && r.lo.x <= p.x <= r.hi.x
    && r.lo.y <= p.y <= r.hi.y
    && r.lo.z <= p.z <= r.hi.z
  }

  /** Every point of the range `inner` lies in the range `outer`. */
  predicate Within(inner: Box, outer: Box) {
    && outer.lo.x <= inner.lo.x && inner.hi.x <= outer.hi.x
    && outer.lo.y <= inner.lo.y && inner.hi.y <= outer.hi.y
    && outer.lo.z <= inner.lo.z && inner.hi.z <= outer.hi.z
  }

  /** The pruning test: query box `b` misses range `r`. */
  predicate Misses(b: Box, r: Box) {
    || b.hi.x <= r.lo.x || b.lo.x > r.hi.x
    || b.hi.y <= r.lo.y || b.lo.y > r.hi.y
    || b.hi.z <= r.lo.z || b.lo.z > r.hi.z
  }

  /** The full-cover test: query box `b` swallows range `r`. */
  predicate Covers(b: Box, r: Box) {
    && b.lo.x <= r.lo.x && b.hi.x > r.hi.x
    && b.lo.y <= r.lo.y && b.hi.y > r.hi.y
    && b.lo.z <= r.lo.z && b.hi.z > r.hi.z
  }

  function PointBox(p: Point): Box { Box(p, p) }

  function Hull(a: Box, b: Box): Box {
    Box(Point(Min(a.lo.x, b.lo.x), Min(a.lo.y, b.lo.y), Min(a.lo.z, b.lo.z)),
        Point(Max(a.hi.x, b.hi.x), Max(a.hi.y, b.hi.y), Max(a.hi.z, b.hi.z)))
  }

  /** Hull where `None` stands for the inverted range (INFINITY, -INFINITY). */
  function Join(a: Option<Box>, b: Option<Box>): Option<Box> {
    match (a, b)
    case (None, _) => b
    case (_, None) => a
    case (Some(u), Some(v)) => Some(Hull(u, v))
  }

  /** Squared distance. */
  function Dist(a: Point, b: Point): real {
    (a.x - b.x) * (a.x - b.x) + (a.y - b.y) * (a.y - b.y) + (a.z - b.z) * (a.z - b.z)
  }

  /** Squared overshoot of `v` outside the interval [lo, hi], added up as two tests. */
  function Overshoot(v: real, lo: real, hi: real): real {
    (if v < lo then (v - lo) * (v - lo) else 0.0) + (if v > hi then (v - hi) * (v - hi) else 0.0)
  }

  /** Squared distance from a point to a range. */
  function BoxDist(r: Box, p: Point): real {
    Overshoot(p.x, r.lo.x, r.hi.x) + Overshoot(p.y, r.lo.y, r.hi.y) + Overshoot(p.z, r.lo.z, r.hi.z)
  }

  lemma SquareMonotone(a: real, b: real)
    requires 0.0 <= a <= b
    ensures a * a <= b * b
  {
    assert (b - a) * (b + a) >= 0.0;
  }

  lemma OvershootBelow(v: real, lo: real, hi: real, q: real)
    requires lo <= q <= hi
    ensures Overshoot(v, lo, hi) <= (v - q) * (v - q)
  {
    if v < lo {
      SquareMonotone(lo - v, q - v);
      assert (lo - v) * (lo - v) == (v - lo) * (v - lo) && (q - v) * (q - v) == (v - q) * (v - q);
    } else if v > hi {
      SquareMonotone(v - hi, v - q);
    } else {
      assert (v - q) * (v - q) >= 0.0;
    }
  }

  /** The range distance is a lower bound for the distance to any point of the range. */
  lemma BoxDistBelow(r: Box, p: Point, q: Point)
    requires InRange(r, q)
    ensures BoxDist(r, p) <= Dist(p, q)
  {
    OvershootBelow(p.x, r.lo.x, r.hi.x, q.x);
    OvershootBelow(p.y, r.lo.y, r.hi.y, q.y);
    OvershootBelow(p.z, r.lo.z, r.hi.z, q.z);
  }

  // ----- bags of points -----

  type Bag = multiset<Point>

  function Inside(b: Box): Point -> bool { p => InBox(b, p) }
  function Outside(b: Box): Point -> bool { p => !InBox(b, p) }

  /** The part of a bag that satisfies `keep`. */
  ghost function Select(m: Bag, keep: Point -> bool): (r: Bag)
    ensures forall p :: r[p] == if keep(p) then m[p] else 0
  {
    if |m| == 0 then multiset{}
    else
      var p :| p in m;
      var rest := Select(m[p := 0], keep);
      if keep(p) then rest[p := m[p]] else rest
  }

  lemma SelectPlus(a: Bag, b: Bag, keep: Point -> bool)
    ensures Select(a + b, keep) == Select(a, keep) + Select(b, keep)
  {
  }

  lemma SelectAll(m: Bag, keep: Point -> bool)
    requires forall p | p in m :: keep(p)
    ensures Select(m, keep) == m
  {
  }

  lemma SelectNone(m: Bag, keep: Point -> bool)
    requires forall p | p in m :: !keep(p)
    ensures Select(m, keep) == multiset{}
  {
  }

  lemma SelectSplit(m: Bag, b: Box)
    ensures Select(m, Inside(b)) + Select(m, Outside(b)) == m
  {
  }
}
