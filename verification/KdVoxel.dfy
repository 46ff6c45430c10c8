/** Add_Points with downsampling: each voxel keeps the one point nearest to its centre. */
module KdVoxel {
  import opened Geometry
  import opened KdTree
  import R = KdRun

  // ----- voxels -----

  function Snap(v: real, s: real): real
    requires s > 0.0
  {
    (v / s).Floor as real * s
  }

  /** The voxel of a point: its lower corner is a multiple of the voxel size. */
  function VoxelOf(p: Point, s: real): Box
    requires s > 0.0
  {
    var lo := Point(Snap(p.x, s), Snap(p.y, s), Snap(p.z, s));
    Box(lo, Point(lo.x + s, lo.y + s, lo.z + s))
  }

  function Middle(b: Box): Point {
    Point(b.lo.x + (b.hi.x - b.lo.x) / 2.0, b.lo.y + (b.hi.y - b.lo.y) / 2.0, b.lo.z + (b.hi.z - b.lo.z) / 2.0)
  }

  /** It is the point half way along every axis. */
  lemma MiddleIsCentral(b: Box, a: Axis)
    ensures Middle(b).At(a) - b.lo.At(a) == b.hi.At(a) - Middle(b).At(a)
  {
  }

  lemma Times(a: real, b: real, s: real, p: real, q: real)
    requires s > 0.0 && p == a * s && q == b * s
    ensures a <= b <==> p <= q
  {
    if a <= b { assert (b - a) * s >= 0.0; } else { assert (a - b) * s > 0.0; }
  }

  lemma NextCell(a: real, s: real)
    ensures (a + 1.0) * s == a * s + s
  {
  }

  lemma Cell(x: real, v: real, s: real, a: real)
    requires s > 0.0 && x * s == v
    ensures a * s <= v < a * s + s <==> a <= x < a + 1.0
  {
    NextCell(a, s);
    Times(a, x, s, a * s, v);
    Times(a + 1.0, x, s, a * s + s, v);
  }

  lemma Quotient(v: real, s: real)
    requires s > 0.0
    ensures v / s * s == v
  {
  }

  lemma FloorIs(x: real, n: int)
    ensures n as real <= x < n as real + 1.0 <==> n == x.Floor
  {
  }

  /** `v` lies in [n*s, n*s + s) for n = floor(v/s) and for no other n. */
  lemma SnapHolds(v: real, s: real, n: int)
    requires s > 0.0
    ensures n as real * s <= v < n as real * s + s <==> n == (v / s).Floor
  {
    Quotient(v, s);
    Cell(v / s, v, s, n as real);
    FloorIs(v / s, n);
  }

  lemma SnapSame(u: real, v: real, s: real)
    requires s > 0.0
    ensures Snap(u, s) <= v < Snap(u, s) + s <==> Snap(u, s) == Snap(v, s)
  {
    SnapHolds(v, s, (u / s).Floor);
    SnapHolds(v, s, (v / s).Floor);
  }

  /** The voxels partition space: a point lies in exactly the voxels that are its own. */
  lemma VoxelsPartition(p: Point, q: Point, s: real)
    requires s > 0.0
    ensures InBox(VoxelOf(p, s), q) <==> VoxelOf(p, s) == VoxelOf(q, s)
  {
    SnapSame(p.x, q.x, s);
    SnapSame(p.y, q.y, s);
    SnapSame(p.z, q.z, s);
  }

  /** A voxel is a cell of the grid: its corner is a whole number of steps, its sides are one step. */
  lemma VoxelIsCell(p: Point, s: real, a: Axis) returns (n: int)
    requires s > 0.0
    ensures var v := VoxelOf(p, s);
      v.lo.At(a) == n as real * s && v.hi.At(a) - v.lo.At(a) == s && v.lo.At(a) <= p.At(a) < v.hi.At(a)
  {
    n := (p.At(a) / s).Floor;
    SnapHolds(p.At(a), s, n);
  }

  // ----- choosing -----

  /** The loop over the points found in the voxel: the first strictly nearer one wins. */
  function Closest(p: Point, found: seq<Point>, far: Point -> real): Point {
    if found == [] then p
    else
      var best, q := Closest(p, found[..|found| - 1], far), found[|found| - 1];
      if far(q) < far(best) then q else best
  }

  /** Squared distance to the centre of a voxel. */
  function FromMiddle(v: Box): Point -> real { (q: Point) => Dist(q, Middle(v)) }

  /** A member of the bag no farther than any member. */
  ghost predicate NearestOf(far: Point -> real, best: Point, m: Bag) {
    best in m && forall q | q in m :: far(best) <= far(q)
  }

  lemma {:induction false} ClosestOk(p: Point, found: seq<Point>, far: Point -> real)
    ensures NearestOf(far, Closest(p, found, far), multiset(found) + multiset{p})
    ensures Closest(p, found, far) == p || far(Closest(p, found, far)) < far(p)
  {
    if found != [] {
      var front, q := found[..|found| - 1], found[|found| - 1];
      ClosestOk(p, front, far);
      assert found == front + [q];
      assert multiset(found) + multiset{p} == (multiset(front) + multiset{p}) + multiset{q};
    }
  }

  /** `best` is the new point, or the i-th one found: nearer than the new one and those before it, and as
      near as those behind it. */
  ghost predicate FirstNearest(best: Point, p: Point, found: seq<Point>, far: Point -> real, i: nat) {
    && i <= |found| && best == (if i == 0 then p else found[i - 1])
    && (i > 0 ==> far(best) < far(p))
    && (forall j | 0 <= j < i - 1 :: far(best) < far(found[j]))
    && (forall j | i <= j < |found| :: far(best) <= far(found[j]))
  }

  lemma NoNearer(best: Point, p: Point, front: seq<Point>, q: Point, far: Point -> real, i: nat)
    requires FirstNearest(best, p, front, far, i) && far(best) <= far(q)
    ensures FirstNearest(best, p, front + [q], far, i)
  {
  }

  lemma Nearer(best: Point, p: Point, front: seq<Point>, q: Point, far: Point -> real, i: nat)
    requires FirstNearest(best, p, front, far, i) && far(q) < far(best)
    ensures FirstNearest(q, p, front + [q], far, |front| + 1)
  {
    forall j | 0 <= j < |front| ensures far(best) <= far(front[j]) { if j == i - 1 {} }
  }

  /** Of equally near points the new one is preferred, then the one found first. */
  lemma {:induction false} ClosestIsFirst(p: Point, found: seq<Point>, far: Point -> real) returns (i: nat)
    ensures FirstNearest(Closest(p, found, far), p, found, far, i)
  {
    if found == [] {
      i := 0;
    } else {
      var front, q := found[..|found| - 1], found[|found| - 1];
      assert found == front + [q];
      i := ClosestIsFirst(p, front, far);
      if far(q) < far(Closest(p, front, far)) {
        Nearer(Closest(p, front, far), p, front, q, far, i);
        i := |found|;
      } else {
        NoNearer(Closest(p, front, far), p, front, q, far, i);
      }
    }
  }

  /** The operations that Add_Points performs for one point, given what is in its voxel. */
  function ThinOps(p: Point, found: seq<Point>, v: Box): seq<R.Op> {
    OpsFor(p, found, v, Closest(p, found, FromMiddle(v)))
  }

  function OpsFor(p: Point, found: seq<Point>, v: Box, best: Point): seq<R.Op> {
    if |found| > 1 || SamePoint(p, best) then
      (if |found| > 0 then [R.DeleteBox(v, true)] else []) + [R.Add(best)]
    else []
  }

  // ----- what the operations do to a plain bag -----

  /** In the bag, and no farther from `c` than any other of its points. */
  ghost predicate NearestTo(c: Point, best: Point, m: Bag) {
    best in m && forall q | q in m :: Dist(best, c) <= Dist(q, c)
  }

  ghost predicate ThinnedTo(m: Bag, r: Bag, p: Point, s: real)
    requires s > 0.0
  {
    var v := VoxelOf(p, s);
    var centre := Point(v.lo.x + s / 2.0, v.lo.y + s / 2.0, v.lo.z + s / 2.0);
    exists best ::
      && NearestTo(centre, best, Select(m, Inside(v)) + multiset{p})
      && Select(r, Inside(v)) == multiset{best}
      && Select(r, Outside(v)) == Select(m, Outside(v))
  }

  lemma InOrOut(m: Bag, r: Bag, best: Point, v: Box)
    requires r == Select(m, Outside(v)) + multiset{best} && InBox(v, best)
    ensures Select(r, Inside(v)) == multiset{best} && Select(r, Outside(v)) == Select(m, Outside(v))
  {
    var out := Select(m, Outside(v));
    SelectPlus(out, multiset{best}, Inside(v));
    SelectPlus(out, multiset{best}, Outside(v));
    SelectNone(out, Inside(v));
    SelectAll(out, Outside(v));
    SelectAll(multiset{best}, Inside(v));
    SelectNone(multiset{best}, Outside(v));
  }

  lemma Renewed(m: Bag, r: Bag, p: Point, best: Point, s: real)
    requires s > 0.0 && r == Select(m, Outside(VoxelOf(p, s))) + multiset{best}
    requires NearestOf(FromMiddle(VoxelOf(p, s)), best, Select(m, Inside(VoxelOf(p, s))) + multiset{p})
    ensures ThinnedTo(m, r, p, s)
  {
    var v := VoxelOf(p, s);
    VoxelsPartition(p, p, s);
    InOrOut(m, r, best, v);
    MiddleOfVoxel(p, s);
    FromIsTo(v, best, Select(m, Inside(v)) + multiset{p});
  }

  lemma MiddleOfVoxel(p: Point, s: real)
    requires s > 0.0
    ensures var v := VoxelOf(p, s); Middle(v) == Point(v.lo.x + s / 2.0, v.lo.y + s / 2.0, v.lo.z + s / 2.0)
  {
  }

  lemma FromIsTo(v: Box, best: Point, m: Bag)
    requires NearestOf(FromMiddle(v), best, m)
    ensures NearestTo(Middle(v), best, m)
  {
    forall q | q in m ensures Dist(best, Middle(v)) <= Dist(q, Middle(v)) {
      assert FromMiddle(v)(best) <= FromMiddle(v)(q);
    }
  }

  lemma OneFound(m: Bag, found: seq<Point>, best: Point, b: Box)
    requires multiset(found) == Select(m, Inside(b)) && |found| == 1 && best in multiset(found)
    ensures m == Select(m, Outside(b)) + multiset{best}
  {
    assert found == [best];
    SelectSplit(m, b);
  }

  lemma NoneFound(m: Bag, found: seq<Point>, b: Box)
    requires multiset(found) == Select(m, Inside(b)) && |found| == 0
    ensures m == Select(m, Outside(b))
  {
    SelectSplit(m, b);
  }

  lemma TwoSteps(m: Bag, a: R.Op, b: R.Op)
    ensures R.BagRun(m, [a, b]) == R.BagStep(R.BagStep(m, a), b)
  {
    assert [a, b][..1] == [a] && [a][..0] == [];
    assert R.BagRun(m, [a]) == R.BagStep(R.BagRun(m, []), a);
  }

  lemma OneStep(m: Bag, a: R.Op)
    ensures R.BagRun(m, [a]) == R.BagStep(m, a)
  {
    assert [a][..0] == [];
  }

  /** After the operations for `p`, its voxel holds exactly one live point, nearest to the centre
      among `p` and the voxel's former points, and every other voxel is as before. */
  lemma ThinBag(m: Bag, p: Point, found: seq<Point>, s: real)
    requires s > 0.0 && multiset(found) == Select(m, Inside(VoxelOf(p, s)))
    ensures ThinnedTo(m, R.BagRun(m, ThinOps(p, found, VoxelOf(p, s))), p, s)
  {
    var v := VoxelOf(p, s);
    var best := Closest(p, found, FromMiddle(v));
    ClosestOk(p, found, FromMiddle(v));
    SelfSame(p);
    var r := R.BagRun(m, ThinOps(p, found, v));
    if |found| > 1 || SamePoint(p, best) {
      if |found| > 0 {
        TwoSteps(m, R.DeleteBox(v, true), R.Add(best));
        assert ThinOps(p, found, v) == [R.DeleteBox(v, true), R.Add(best)];
      } else {
        NoneFound(m, found, v);
        OneStep(m, R.Add(best));
        assert ThinOps(p, found, v) == [R.Add(best)];
      }
    } else {
      assert |found| == 1 && best in multiset(found);
      OneFound(m, found, best, v);
    }
    Renewed(m, r, p, best, s);
  }

  lemma SelfSame(p: Point)
    ensures SamePoint(p, p)
  {
  }

  /** No voxel holds more than one point. */
  ghost predicate OnePerVoxel(m: Bag, s: real)
    requires s > 0.0
  {
    forall p, q | p in m && q in m && VoxelOf(p, s) == VoxelOf(q, s) :: p == q && m[p] == 1
  }

  lemma ThinKeepsOne(m: Bag, r: Bag, p: Point, s: real)
    requires s > 0.0 && ThinnedTo(m, r, p, s) && OnePerVoxel(m, s)
    ensures OnePerVoxel(r, s)
  {
    var v := VoxelOf(p, s);
    var best :| Select(r, Inside(v)) == multiset{best};
    SelectSplit(r, v);
    forall a, b | a in r && b in r && VoxelOf(a, s) == VoxelOf(b, s) ensures a == b && r[a] == 1 {
      VoxelsPartition(p, a, s);
      VoxelsPartition(p, b, s);
      assert a == best || (a in Select(r, Outside(v)) && a in m && !InBox(v, a));
      assert b == best || (b in Select(r, Outside(v)) && b in m && !InBox(v, b));
    }
  }
}
