/** Square roots by contract, and Euclidean distance. */
module Norm {
  import opened Geometry

  /** What the library promises of `sqrt`, over the reals. */
  ghost predicate IsSqrt(f: real -> real) {
    forall v: real :: v >= 0.0 ==> f(v) >= 0.0 && f(v) * f(v) == v
  }

  lemma DistNonNegative(a: Point, b: Point)
    ensures Dist(a, b) >= 0.0
  {
    var x, y, z := a.x - b.x, a.y - b.y, a.z - b.z;
    assert x * x >= 0.0 && y * y >= 0.0 && z * z >= 0.0;
  }

  lemma Positive(a: real, b: real)
    requires a > 0.0 && b > 0.0
    ensures a * b > 0.0
  {
  }

  lemma RootOrder(u: real, v: real)
    requires u >= 0.0 && v >= 0.0
    ensures u <= v <==> u * u <= v * v
  {
    if u <= v { SquareMonotone(u, v); } else { Positive(u - v, u + v); }
  }

  /** Cauchy-Schwarz in three dimensions. */
  lemma CauchySchwarz(a: real, b: real, c: real, x: real, y: real, z: real)
    ensures (a * x + b * y + c * z) * (a * x + b * y + c * z)
         <= (a * a + b * b + c * c) * (x * x + y * y + z * z)
  {
    var p, q, r := a * y - b * x, a * z - c * x, b * z - c * y;
    assert p * p >= 0.0 && q * q >= 0.0 && r * r >= 0.0;
    assert (a * a + b * b + c * c) * (x * x + y * y + z * z)
        == (a * x + b * y + c * z) * (a * x + b * y + c * z) + (p * p + q * q + r * r);
  }

  lemma Dot(a: real, b: real, c: real, x: real, y: real, z: real, m: real, n: real)
    requires m >= 0.0 && n >= 0.0 && m * m == a * a + b * b + c * c && n * n == x * x + y * y + z * z
    ensures a * x + b * y + c * z <= m * n
  {
    var d := a * x + b * y + c * z;
    CauchySchwarz(a, b, c, x, y, z);
    assert (m * n) * (m * n) == (m * m) * (n * n);
    assert m * n >= 0.0;
    if d > 0.0 { RootOrder(d, m * n); }
  }

  /** The triangle inequality, for distances given as roots. */
  lemma RootsTriangle(a: Point, b: Point, c: Point, m: real, n: real, d: real)
    requires m >= 0.0 && n >= 0.0 && d >= 0.0 && m * m == Dist(a, b) && n * n == Dist(b, c) && d * d == Dist(a, c)
    ensures d <= m + n
  {
    var u, v := Point(a.x - b.x, a.y - b.y, a.z - b.z), Point(b.x - c.x, b.y - c.y, b.z - c.z);
    Dot(u.x, u.y, u.z, v.x, v.y, v.z, m, n);
    SumOfSquares(u.x, v.x);
    SumOfSquares(u.y, v.y);
    SumOfSquares(u.z, v.z);
    assert Dist(a, c) == Dist(a, b) + Dist(b, c) + 2.0 * (u.x * v.x + u.y * v.y + u.z * v.z);
    SumOfSquares(m, n);
    assert d * d <= (m + n) * (m + n);
    RootOrder(d, m + n);
  }

  lemma RootOf(a: Point, b: Point, sqrt: real -> real) returns (d: real)
    requires IsSqrt(sqrt)
    ensures d == sqrt(Dist(a, b)) && d >= 0.0 && d * d == Dist(a, b)
  {
    DistNonNegative(a, b);
    d := sqrt(Dist(a, b));
  }

  lemma Triangle(a: Point, b: Point, c: Point, sqrt: real -> real)
    requires IsSqrt(sqrt)
    ensures sqrt(Dist(a, c)) <= sqrt(Dist(a, b)) + sqrt(Dist(b, c))
  {
    var m := RootOf(a, b, sqrt);
    var n := RootOf(b, c, sqrt);
    var d := RootOf(a, c, sqrt);
    RootsTriangle(a, b, c, m, n, d);
  }

  lemma SumOfSquares(a: real, b: real)
    ensures (a + b) * (a + b) == a * a + b * b + 2.0 * (a * b)
  {
  }

  lemma DistSymmetric(a: Point, b: Point)
    ensures Dist(a, b) == Dist(b, a)
  {
    Flip(a.x, b.x);
    Flip(a.y, b.y);
    Flip(a.z, b.z);
  }

  lemma Flip(a: real, b: real)
    ensures (a - b) * (a - b) == (b - a) * (b - a)
  {
  }

  // ----- distance3d as a function value -----

  type Metric = (Point, Point) -> real

  /** What `distance3d` promises: the non-negative root of the squared distance. */
  ghost predicate IsDistance(len: Metric) {
    forall a: Point, b: Point :: len(a, b) >= 0.0 && len(a, b) * len(a, b) == Dist(a, b)
  }

  lemma RootUnique(u: real, v: real)
    requires u >= 0.0 && v >= 0.0 && u * u == v * v
    ensures u == v
  {
    RootOrder(u, v);
    RootOrder(v, u);
  }

  lemma Symmetric(len: Metric, a: Point, b: Point)
    requires IsDistance(len)
    ensures len(a, b) == len(b, a)
  {
    DistSymmetric(a, b);
    RootUnique(len(a, b), len(b, a));
  }

  function Interpolate(a: Point, b: Point, ratio: real): Point {
    Point(a.x + ratio * (b.x - a.x), a.y + ratio * (b.y - a.y), a.z + ratio * (b.z - a.z))
  }

  lemma Scale(a: real, d: real, r: real)
    ensures (a - (a + r * d)) * (a - (a + r * d)) == r * r * (d * d)
  {
    assert (-(r * d)) * (-(r * d)) == (r * r) * (d * d);
  }

  lemma InterpolateDist(a: Point, b: Point, r: real)
    ensures Dist(a, Interpolate(a, b, r)) == r * r * Dist(a, b)
  {
    var x, y, z := b.x - a.x, b.y - a.y, b.z - a.z;
    Scale(a.x, x, r);
    Scale(a.y, y, r);
    Scale(a.z, z, r);
    Distribute(r * r, x * x, y * y, z * z);
    DistSymmetric(a, b);
  }

  lemma Distribute(k: real, u: real, v: real, w: real)
    ensures k * (u + v + w) == k * u + k * v + k * w
  {
  }

  /** A point interpolated at ratio r >= 0 is r times as far away. */
  lemma InterpolateLength(len: Metric, a: Point, b: Point, r: real)
    requires IsDistance(len) && r >= 0.0
    ensures len(a, Interpolate(a, b, r)) == r * len(a, b)
  {
    InterpolateDist(a, b, r);
    var l := len(a, b);
    assert (r * l) * (r * l) == (r * r) * (l * l);
    assert r * l >= 0.0;
    RootUnique(len(a, Interpolate(a, b, r)), r * l);
  }

  /** The triangle inequality for `distance3d`. */
  lemma LengthTriangle(len: Metric, a: Point, b: Point, c: Point)
    requires IsDistance(len)
    ensures len(a, c) <= len(a, b) + len(b, c)
  {
    RootsTriangle(a, b, c, len(a, b), len(b, c), len(a, c));
  }
}
