/** lasermap_fov_segment: the cube of map space that follows the sensor, and the boxes it leaves. */
module MapCube {
  import opened Geometry
  import opened KdNode
  import B = KdBatch
  import I = KdInvariant
  import M = KdMap
  import T = KdTree

  const MOV_THRESHOLD: real := 1.5

  function Put(p: Point, a: Axis, v: real): (r: Point)
    ensures r.At(a) == v && forall c: Axis | c != a :: r.At(c) == p.At(c)
  {
    if a == 0 then p.(x := v) else if a == 1 then p.(y := v) else p.(z := v)
  }

  /** The settings: cube_side_length and mapping/det_range. */
  datatype Setup = Setup(side: real, detRange: real) {
    function Margin(): real { MOV_THRESHOLD * detRange }

    function MovDist(): real {
      Max((side - 2.0 * MOV_THRESHOLD * detRange) * 0.5 * 0.9, detRange * (MOV_THRESHOLD - 1.0))
    }
  }

  /** Which way an axis moves: down if the sensor is near the lower edge, else up if near the upper. */
  function Way(b: Box, pos: Point, a: Axis, s: Setup): int {
    if T.Abs(pos.At(a) - b.lo.At(a)) <= s.Margin() then -1
    else if T.Abs(pos.At(a) - b.hi.At(a)) <= s.Margin() then 1
    else 0
  }

  /** The moves of the three axes. */
  type Ways = w: seq<int> | |w| == 3 && forall a | 0 <= a < 3 :: -1 <= w[a] <= 1 witness [0, 0, 0]

  function WaysOf(b: Box, pos: Point, s: Setup): Ways { [Way(b, pos, 0, s), Way(b, pos, 1, s), Way(b, pos, 2, s)] }

  function Offset(way: int, d: real): real { if way < 0 then -d else if way > 0 then d else 0.0 }

  function Moved(b: Box, w: Ways, d: real): Box {
    Box(Point(b.lo.x + Offset(w[0], d), b.lo.y + Offset(w[1], d), b.lo.z + Offset(w[2], d)),
        Point(b.hi.x + Offset(w[0], d), b.hi.y + Offset(w[1], d), b.hi.z + Offset(w[2], d)))
  }

  /** The slab of the old cube that a move along one axis leaves behind. */
  function Slab(b: Box, a: Axis, way: int, d: real): Box {
    if way < 0 then b.(lo := Put(b.lo, a, b.hi.At(a) - d)) else b.(hi := Put(b.hi, a, b.lo.At(a) + d))
  }

  function Slabs(b: Box, w: Ways, d: real, axes: nat): seq<Box>
    requires axes <= 3
  {
    if axes == 0 then []
    else Slabs(b, w, d, axes - 1) + (if w[axes - 1] == 0 then [] else [Slab(b, axes - 1, w[axes - 1], d)])
  }

  predicate Cube(b: Box, side: real) {
    b.hi.x - b.lo.x == side && b.hi.y - b.lo.y == side && b.hi.z - b.lo.z == side
  }

  /** In the old cube and not in the new one. */
  predicate LeftBehind(b: Box, w: Ways, d: real, p: Point) { InBox(b, p) && !InBox(Moved(b, w, d), p) }

  function Behind(b: Box, w: Ways, d: real): Point -> bool { p => LeftBehind(b, w, d, p) }

  // ----- the boxes are exactly the difference of the cubes -----

  /** `p` lies in the slab of axis `a`, if there is one. */
  predicate Hit(b: Box, w: Ways, d: real, a: Axis, p: Point) { w[a] != 0 && InBox(Slab(b, a, w[a], d), p) }

  lemma OneAxisMore(b: Box, w: Ways, d: real, a: Axis, p: Point)
    ensures B.InAny(Slabs(b, w, d, a + 1), p) <==> B.InAny(Slabs(b, w, d, a), p) || Hit(b, w, d, a, p)
  {
    if w[a] != 0 {
      var all := Slabs(b, w, d, a + 1);
      assert all[..|all| - 1] == Slabs(b, w, d, a);
      B.InAnyMore(all, p);
    } else {
      assert Slabs(b, w, d, a + 1) == Slabs(b, w, d, a);
    }
  }

  lemma InSlabs(b: Box, w: Ways, d: real, p: Point)
    ensures B.InAny(Slabs(b, w, d, 3), p) <==> Hit(b, w, d, 0, p) || Hit(b, w, d, 1, p) || Hit(b, w, d, 2, p)
  {
    OneAxisMore(b, w, d, 0, p);
    OneAxisMore(b, w, d, 1, p);
    OneAxisMore(b, w, d, 2, p);
  }

  /** `v` is in [lo, hi) after the move of that axis. */
  predicate Stays(lo: real, hi: real, way: int, d: real, v: real) { lo + Offset(way, d) <= v < hi + Offset(way, d) }

  /** Along one axis: the slab holds what the moved interval does not. */
  lemma SlabAlong(lo: real, hi: real, way: int, d: real, v: real)
    requires -1 <= way <= 1 && way != 0 && 0.0 <= d <= hi - lo
    ensures (if way < 0 then hi - d <= v < hi else lo <= v < lo + d) <==> (lo <= v < hi && !Stays(lo, hi, way, d, v))
  {
  }

  lemma HitMeans(b: Box, w: Ways, d: real, a: Axis, p: Point)
    requires 0.0 <= d <= b.hi.At(a) - b.lo.At(a)
    ensures Hit(b, w, d, a, p) <==> InBox(b, p) && !Stays(b.lo.At(a), b.hi.At(a), w[a], d, p.At(a))
  {
    if w[a] != 0 { SlabAlong(b.lo.At(a), b.hi.At(a), w[a], d, p.At(a)); }
  }

  lemma InMoved(b: Box, w: Ways, d: real, p: Point)
    ensures InBox(Moved(b, w, d), p) <==>
      && Stays(b.lo.x, b.hi.x, w[0], d, p.x)
      && Stays(b.lo.y, b.hi.y, w[1], d, p.y)
      && Stays(b.lo.z, b.hi.z, w[2], d, p.z)
  {
  }

  /** The boxes collected cover exactly the old cube minus the new one. */
  lemma SlabsAreDifference(b: Box, w: Ways, d: real, side: real, p: Point)
    requires Cube(b, side) && 0.0 <= d <= side
    ensures B.InAny(Slabs(b, w, d, 3), p) <==> LeftBehind(b, w, d, p)
  {
    InSlabs(b, w, d, p);
    HitMeans(b, w, d, 0, p);
    HitMeans(b, w, d, 1, p);
    HitMeans(b, w, d, 2, p);
    InMoved(b, w, d, p);
  }

  /** A corner of the slab of axis `a` that lies outside the old cube if the move exceeds the side. */
  function JustOutside(b: Box, a: Axis, way: int, d: real): Point {
    Put(b.lo, a, if way < 0 then b.hi.At(a) - d else b.hi.At(a))
  }

  lemma SlabSticksOut(b: Box, w: Ways, d: real, side: real, a: Axis)
    requires Cube(b, side) && 0.0 < side < d && w[a] != 0
    ensures var p := JustOutside(b, a, w[a], d); B.InAny(Slabs(b, w, d, 3), p) && !InBox(b, p)
  {
    var p := JustOutside(b, a, w[a], d);
    InSlabs(b, w, d, p);
    assert Hit(b, w, d, a, p);
  }

  /** Exactly when no axis moves by more than the side do the boxes make up the difference. */
  lemma DifferenceIff(b: Box, w: Ways, d: real, side: real)
    requires Cube(b, side) && 0.0 < side && 0.0 <= d
    ensures (forall p :: B.InAny(Slabs(b, w, d, 3), p) <==> LeftBehind(b, w, d, p)) <==> (d <= side || w == [0, 0, 0])
  {
    if d <= side {
      forall p ensures B.InAny(Slabs(b, w, d, 3), p) <==> LeftBehind(b, w, d, p) {
        SlabsAreDifference(b, w, d, side, p);
      }
    } else if w == [0, 0, 0] {
      forall p ensures B.InAny(Slabs(b, w, d, 3), p) <==> LeftBehind(b, w, d, p) {
        InSlabs(b, w, d, p);
        InMoved(b, w, d, p);
      }
    } else {
      var a: Axis := if w[0] != 0 then 0 else if w[1] != 0 then 1 else 2;
      SlabSticksOut(b, w, d, side, a);
      assert !LeftBehind(b, w, d, JustOutside(b, a, w[a], d));
    }
  }

  /** The configured move never exceeds the side exactly when the detection range is at most twice the side. */
  lemma MoveFits(s: Setup)
    requires s.side > 0.0 && s.detRange >= 0.0
    ensures 0.0 <= s.MovDist() && (s.MovDist() <= s.side <==> s.detRange <= 2.0 * s.side)
  {
  }

  /** So the settings alone decide whether what is deleted is what the cube has left. */
  lemma SetupDecides(b: Box, pos: Point, s: Setup)
    requires Cube(b, s.side) && s.side > 0.0 && s.detRange >= 0.0
    ensures var w := WaysOf(b, pos, s);
      (forall p :: B.InAny(Slabs(b, w, s.MovDist(), 3), p) <==> LeftBehind(b, w, s.MovDist(), p))
        <==> (s.detRange <= 2.0 * s.side || w == [0, 0, 0])
  {
    MoveFits(s);
    DifferenceIff(b, WaysOf(b, pos, s), s.MovDist(), s.side);
  }

  /** Every side keeps its length. */
  lemma MovedIsCube(b: Box, w: Ways, d: real, side: real)
    requires Cube(b, side)
    ensures Cube(Moved(b, w, d), side)
  {
  }

  // ----- whole runs -----

  datatype State = State(initialized: bool, box: Box)

  function Around(pos: Point, side: real): Box {
    var h := side / 2.0;
    Box(Point(pos.x - h, pos.y - h, pos.z - h), Point(pos.x + h, pos.y + h, pos.z + h))
  }

  /** One call of lasermap_fov_segment: the new cube and the boxes to remove. */
  function Segment(m: State, pos: Point, s: Setup): (State, seq<Box>) {
    if !m.initialized then (State(true, Around(pos, s.side)), [])
    else
      var w := WaysOf(m.box, pos, s);
      (State(true, Moved(m.box, w, s.MovDist())), Slabs(m.box, w, s.MovDist(), 3))
  }

  function Track(m: State, path: seq<Point>, s: Setup): State {
    if path == [] then m else Segment(Track(m, path[..|path| - 1], s), path[|path| - 1], s).0
  }

  /** In every run, from the first position on, the map is a cube of the configured side. */
  lemma {:induction false} TrackKeepsCube(m: State, path: seq<Point>, s: Setup)
    requires m.initialized ==> Cube(m.box, s.side)
    ensures var r := Track(m, path, s); r.initialized ==> Cube(r.box, s.side)
    decreases |path|
  {
    if path != [] {
      var f := Track(m, path[..|path| - 1], s);
      TrackKeepsCube(m, path[..|path| - 1], s);
      if f.initialized { MovedIsCube(f.box, WaysOf(f.box, path[|path| - 1], s), s.MovDist(), s.side); }
    }
  }

  // ----- the cube follows the sensor -----

  /** Along one axis: farther than `r` from both ends. */
  predicate Deep(lo: real, hi: real, v: real, r: real) { lo + r < v && v + r < hi }

  /** The sensor is farther than `r` from every side of the box, inside it. */
  ghost predicate Surrounds(b: Box, pos: Point, r: real) {
    forall a: Axis :: Deep(b.lo.At(a), b.hi.At(a), pos.At(a), r)
  }

  /** The settings for which the cube is large enough for the detection range. */
  predicate Roomy(s: Setup) { 0.0 < 3.0 * s.detRange < s.side }

  lemma MoveSizes(s: Setup)
    requires Roomy(s)
    ensures 0.5 * s.detRange <= s.MovDist() < s.side - 2.5 * s.detRange
  {
  }

  /** Along one axis: what was inside stays inside, the slab is out of range, and a sensor that was no
      nearer to a side than half the detection range ends up farther from it than the whole. */
  lemma AxisFollows(b: Box, pos: Point, a: Axis, s: Setup)
    requires Cube(b, s.side) && Roomy(s)
    ensures var lo, hi, v, w := b.lo.At(a), b.hi.At(a), pos.At(a), Way(b, pos, a, s);
      var o := Offset(w, s.MovDist());
      && hi - lo == s.side
      && (lo <= v < hi ==> lo + o <= v < hi + o)
      && (w < 0 ==> v + s.detRange < hi - s.MovDist())
      && (w > 0 ==> lo + s.MovDist() < v - s.detRange)
      && (Deep(lo, hi, v, 0.5 * s.detRange) ==> Deep(lo + o, hi + o, v, s.detRange))
  {
    MoveSizes(s);
  }

  lemma MovedEnds(b: Box, w: Ways, d: real, a: Axis)
    ensures Moved(b, w, d).lo.At(a) == b.lo.At(a) + Offset(w[a], d)
      && Moved(b, w, d).hi.At(a) == b.hi.At(a) + Offset(w[a], d)
  {
  }

  lemma WayOf(b: Box, pos: Point, a: Axis, s: Setup)
    ensures WaysOf(b, pos, s)[a] == Way(b, pos, a, s)
  {
  }

  /** Nothing that is deleted lies within the detection range of the sensor. */
  lemma SlabsOutOfRange(b: Box, pos: Point, s: Setup, p: Point)
    requires Cube(b, s.side) && Roomy(s)
    requires B.InAny(Slabs(b, WaysOf(b, pos, s), s.MovDist(), 3), p)
    ensures exists a: Axis :: T.Abs(p.At(a) - pos.At(a)) > s.detRange
  {
    var w := WaysOf(b, pos, s);
    InSlabs(b, w, s.MovDist(), p);
    var a: Axis := if Hit(b, w, s.MovDist(), 0, p) then 0 else if Hit(b, w, s.MovDist(), 1, p) then 1 else 2;
    AxisFollows(b, pos, a, s);
    WayOf(b, pos, a, s);
    assert T.Abs(p.At(a) - pos.At(a)) > s.detRange;
  }

  /** One call on an initialized cube: nothing within the detection range is deleted, a sensor inside the
      old cube is inside the new one, and one that is half the range deep is then the whole range deep. */
  lemma SegmentFollows(m: State, pos: Point, s: Setup)
    requires m.initialized && Cube(m.box, s.side) && Roomy(s)
    ensures var (r, boxes) := Segment(m, pos, s);
      && (forall p | B.InAny(boxes, p) :: exists a: Axis :: T.Abs(p.At(a) - pos.At(a)) > s.detRange)
      && (InBox(m.box, pos) ==> InBox(r.box, pos))
      && (Surrounds(m.box, pos, 0.5 * s.detRange) ==> Surrounds(r.box, pos, s.detRange))
  {
    var w := WaysOf(m.box, pos, s);
    forall p | B.InAny(Slabs(m.box, w, s.MovDist(), 3), p)
      ensures exists a: Axis :: T.Abs(p.At(a) - pos.At(a)) > s.detRange
    {
      SlabsOutOfRange(m.box, pos, s, p);
    }
    forall a: Axis
      ensures m.box.lo.At(a) <= pos.At(a) < m.box.hi.At(a) ==>
        Moved(m.box, w, s.MovDist()).lo.At(a) <= pos.At(a) < Moved(m.box, w, s.MovDist()).hi.At(a)
      ensures Deep(m.box.lo.At(a), m.box.hi.At(a), pos.At(a), 0.5 * s.detRange) ==>
        Deep(Moved(m.box, w, s.MovDist()).lo.At(a), Moved(m.box, w, s.MovDist()).hi.At(a), pos.At(a), s.detRange)
    {
      AxisFollows(m.box, pos, a, s);
      WayOf(m.box, pos, a, s);
      MovedEnds(m.box, w, s.MovDist(), a);
    }
    InBoxAt(m.box, pos);
    InBoxAt(Moved(m.box, w, s.MovDist()), pos);
  }

  lemma InBoxAt(b: Box, p: Point)
    ensures InBox(b, p) <==> forall a: Axis :: b.lo.At(a) <= p.At(a) < b.hi.At(a)
  {
    if forall a: Axis :: b.lo.At(a) <= p.At(a) < b.hi.At(a) {
      assert b.lo.At(0) <= p.At(0) < b.hi.At(0) && b.lo.At(1) <= p.At(1) < b.hi.At(1);
      assert b.lo.At(2) <= p.At(2) < b.hi.At(2);
    }
  }

  predicate Close(p: Point, q: Point, r: real) {
    T.Abs(q.x - p.x) < r && T.Abs(q.y - p.y) < r && T.Abs(q.z - p.z) < r
  }

  /** Consecutive positions are less than half the detection range apart along every axis. */
  ghost predicate Smooth(path: seq<Point>, s: Setup) {
    forall i, j | 0 <= i < j < |path| && j == i + 1 :: Close(path[i], path[j], 0.5 * s.detRange)
  }

  lemma StepStaysDeep(b: Box, was: Point, pos: Point, r: real)
    requires Surrounds(b, was, r) && Close(was, pos, 0.5 * r)
    ensures Surrounds(b, pos, 0.5 * r)
  {
    forall a: Axis ensures Deep(b.lo.At(a), b.hi.At(a), pos.At(a), 0.5 * r) {
      assert Deep(b.lo.At(a), b.hi.At(a), was.At(a), r);
    }
  }

  /** The cube has the configured side and surrounds the sensor by more than the detection range. */
  ghost predicate Follows(m: State, pos: Point, s: Setup) {
    m.initialized && Cube(m.box, s.side) && Surrounds(m.box, pos, s.detRange)
  }

  lemma FollowsFirst(b: Box, pos: Point, s: Setup)
    requires Roomy(s)
    ensures Follows(Segment(State(false, b), pos, s).0, pos, s)
  {
  }

  lemma FollowsOn(m: State, was: Point, pos: Point, s: Setup)
    requires Roomy(s) && Follows(m, was, s) && Close(was, pos, 0.5 * s.detRange)
    ensures Follows(Segment(m, pos, s).0, pos, s)
  {
    StepStaysDeep(m.box, was, pos, s.detRange);
    SegmentFollows(m, pos, s);
    MovedIsCube(m.box, WaysOf(m.box, pos, s), s.MovDist(), s.side);
  }

  /** In every run of such positions, from the first on, this holds after every call. */
  lemma {:induction false} CubeSurroundsSensor(b: Box, path: seq<Point>, s: Setup)
    requires Roomy(s) && path != [] && Smooth(path, s)
    ensures Follows(Track(State(false, b), path, s), path[|path| - 1], s)
    decreases |path|
  {
    var start := State(false, b);
    var front, pos := path[..|path| - 1], path[|path| - 1];
    if front == [] {
      assert Track(start, front, s) == start;
      FollowsFirst(b, pos, s);
    } else {
      CubeSurroundsSensor(b, front, s);
      FollowsOn(Track(start, front, s), front[|front| - 1], pos, s);
    }
  }

  // ----- the points removed -----

  function Kept(b: Box, w: Ways, d: real): Point -> bool { p => !LeftBehind(b, w, d, p) }

  lemma SelectSame(m: Bag, f: Point -> bool, g: Point -> bool)
    requires forall p :: f(p) <==> g(p)
    ensures Select(m, f) == Select(m, g)
  {
  }

  lemma SplitByCube(m: Bag, b: Box, w: Ways, d: real)
    ensures Select(m, Kept(b, w, d)) + Select(m, Behind(b, w, d)) == m
  {
  }

  /** What Delete_Point_Boxes leaves of a bag, and the old cube minus the new one, make up the bag. */
  lemma RemovesDifference(m: Bag, b: Box, w: Ways, d: real, side: real)
    requires Cube(b, side) && 0.0 <= d <= side
    ensures Select(m, B.OutsideAll(Slabs(b, w, d, 3))) + Select(m, Behind(b, w, d)) == m
    ensures |m| - |Select(m, B.OutsideAll(Slabs(b, w, d, 3)))| == |Select(m, Behind(b, w, d))|
  {
    var boxes := Slabs(b, w, d, 3);
    forall p ensures B.OutsideAll(boxes)(p) <==> Kept(b, w, d)(p) { SlabsAreDifference(b, w, d, side, p); }
    SelectSame(m, B.OutsideAll(boxes), Kept(b, w, d));
    SplitByCube(m, b, w, d);
  }

  /** Distances of the sensor to the edges of the cube, and whether any of them is too short. */
  method MapEdges(b: Box, pos: Point, s: Setup) returns (dist: seq<(real, real)>, needMove: bool)
    ensures |dist| == 3
    ensures forall a: Axis :: dist[a] == (T.Abs(pos.At(a) - b.lo.At(a)), T.Abs(pos.At(a) - b.hi.At(a)))
    ensures needMove <==> WaysOf(b, pos, s) != [0, 0, 0]
  {
    dist, needMove := [], false;
    ghost var w := WaysOf(b, pos, s);
    for i := 0 to 3
      invariant |dist| == i
      invariant forall a: Axis | a < i :: dist[a] == (T.Abs(pos.At(a) - b.lo.At(a)), T.Abs(pos.At(a) - b.hi.At(a)))
      invariant needMove <==> exists a: Axis :: a < i && w[a] != 0
    {
      var a: Axis := i;
      dist := dist + [(T.Abs(pos.At(a) - b.lo.At(a)), T.Abs(pos.At(a) - b.hi.At(a)))];
      assert w[a] == Way(b, pos, a, s);
      if dist[i].0 <= s.Margin() || dist[i].1 <= s.Margin() {
        needMove := true;
      }
    }
    if !needMove { assert w == [0, 0, 0]; }
  }

  /** The cube with the moves of the first axes made. */
  ghost predicate MovedUpTo(cube: Box, b: Box, w: Ways, d: real, axes: nat) {
    && (forall a: Axis :: cube.lo.At(a) == b.lo.At(a) + Offset(if a < axes then w[a] else 0, d))
    && (forall a: Axis :: cube.hi.At(a) == b.hi.At(a) + Offset(if a < axes then w[a] else 0, d))
  }

  method MoveAxis(cube: Box, a: Axis, shift: real, ghost b: Box, ghost w: Ways, ghost d: real) returns (r: Box)
    requires MovedUpTo(cube, b, w, d, a) && shift == Offset(w[a], d)
    ensures MovedUpTo(r, b, w, d, a + 1)
  {
    r := Box(Put(cube.lo, a, cube.lo.At(a) + shift), Put(cube.hi, a, cube.hi.At(a) + shift));
  }

  /** One axis of the loop: shift the new cube and collect the slab left behind. */
  method LeaveSlab(b: Box, a: Axis, edges: (real, real), margin: real, movDist: real, cube: Box, boxes: seq<Box>,
                   ghost w: Ways) returns (c: Box, r: seq<Box>)
    requires MovedUpTo(cube, b, w, movDist, a) && boxes == Slabs(b, w, movDist, a)
    requires w[a] == if edges.0 <= margin then -1 else if edges.1 <= margin then 1 else 0
    ensures MovedUpTo(c, b, w, movDist, a + 1) && r == Slabs(b, w, movDist, a + 1)
  {
    c, r := cube, boxes;
    if edges.0 <= margin {
      c := MoveAxis(cube, a, -movDist, b, w, movDist);
      r := boxes + [b.(lo := Put(b.lo, a, b.hi.At(a) - movDist))];
    } else if edges.1 <= margin {
      c := MoveAxis(cube, a, movDist, b, w, movDist);
      r := boxes + [b.(hi := Put(b.hi, a, b.lo.At(a) + movDist))];
    }
  }

  method MoveCube(b: Box, dist: seq<(real, real)>, pos: Point, s: Setup) returns (cube: Box, boxes: seq<Box>)
    requires |dist| == 3
    requires forall a: Axis :: dist[a] == (T.Abs(pos.At(a) - b.lo.At(a)), T.Abs(pos.At(a) - b.hi.At(a)))
    ensures cube == Moved(b, WaysOf(b, pos, s), s.MovDist())
    ensures boxes == Slabs(b, WaysOf(b, pos, s), s.MovDist(), 3)
  {
    ghost var w := WaysOf(b, pos, s);
    cube, boxes := b, [];
    for i := 0 to 3
      invariant MovedUpTo(cube, b, w, s.MovDist(), i) && boxes == Slabs(b, w, s.MovDist(), i)
    {
      assert w[i] == Way(b, pos, i, s);
      cube, boxes := LeaveSlab(b, i, dist[i], s.Margin(), s.MovDist(), cube, boxes, w);
    }
    SameBox(cube, Moved(b, w, s.MovDist()));
  }

  lemma SameBox(a: Box, b: Box)
    requires forall i: Axis :: a.lo.At(i) == b.lo.At(i) && a.hi.At(i) == b.hi.At(i)
    ensures a == b
  {
    assert a.lo.At(0) == b.lo.At(0) && a.lo.At(1) == b.lo.At(1) && a.lo.At(2) == b.lo.At(2);
    assert a.hi.At(0) == b.hi.At(0) && a.hi.At(1) == b.hi.At(1) && a.hi.At(2) == b.hi.At(2);
  }

  lemma NoMove(b: Box, d: real)
    ensures Moved(b, [0, 0, 0], d) == b && Slabs(b, [0, 0, 0], d, 3) == []
  {
    assert Slabs(b, [0, 0, 0], d, 1) == [];
    assert Slabs(b, [0, 0, 0], d, 2) == [];
  }

  lemma BoxesGone(g: B.Progress, boxes: seq<Box>, seen: nat -> B.Glance, cfg: T.Config, r: B.Progress)
    requires I.WF(g.tree) && g.count == 0 && r == B.DeleteBoxes(g, boxes, seen, cfg)
    ensures I.WF(r.tree) && I.Live(r.tree) == Select(I.Live(g.tree), B.OutsideAll(boxes))
    ensures r.count == |I.Live(g.tree)| - |I.Live(r.tree)|
  {
    B.DeleteBoxesOk(g, boxes, seen, cfg);
  }

  class Mapper {
    var localMap: Box
    var initialized: bool
    var cubNeedrm: seq<Box>
    var deleteCounter: int
    const ikdtree: M.Map
    const setup: Setup

    constructor (tree: M.Map, s: Setup)
      ensures ikdtree == tree && setup == s && !initialized && cubNeedrm == [] && deleteCounter == 0
    {
      ikdtree, setup := tree, s;
      localMap, initialized, cubNeedrm, deleteCounter := PointBox(Point(0.0, 0.0, 0.0)), false, [], 0;
    }

    function Now(): State
      reads this
    {
      State(initialized, localMap)
    }

    /** The cube and the boxes, without the deletion. */
    method Follow(pos: Point) returns (moved: bool)
      modifies this
      ensures (Now(), cubNeedrm) == Segment(old(Now()), pos, setup)
      ensures deleteCounter == 0 && (!moved ==> cubNeedrm == [])
    {
      cubNeedrm, deleteCounter := [], 0;
      if !initialized {
        localMap, initialized := Around(pos, setup.side), true;
        return false;
      }
      var dist, needMove := MapEdges(localMap, pos, setup);
      if !needMove {
        NoMove(localMap, setup.MovDist());
        return false;
      }
      localMap, cubNeedrm := MoveCube(localMap, dist, pos, setup);
      return true;
    }

    /** Of the live points `m` those in the boxes are gone and counted. */
    ghost predicate Removed(m: Bag)
      reads this, ikdtree, ikdtree.root, ReprOf(ikdtree.root)
    {
      && ikdtree.Valid() && I.WF(ModelOf(ikdtree.root))
      && I.Live(ModelOf(ikdtree.root)) == Select(m, B.OutsideAll(cubNeedrm))
      && deleteCounter == |m| - |I.Live(ModelOf(ikdtree.root))|
    }

    /** Delete_Point_Boxes on the boxes collected. */
    method Remove(seen: nat -> B.Glance)
      requires ikdtree.Valid() && I.WF(ModelOf(ikdtree.root)) && this !in ReprOf(ikdtree.root)
      modifies this`deleteCounter, ikdtree, ReprOf(ikdtree.root)
      ensures Now() == old(Now()) && cubNeedrm == old(cubNeedrm)
      ensures Removed(old(I.Live(ModelOf(ikdtree.root))))
    {
      ghost var g := ikdtree.Now(0);
      deleteCounter := ikdtree.DeletePointBoxes(cubNeedrm, seen);
      BoxesGone(g, cubNeedrm, seen, ikdtree.cfg, ikdtree.Now(deleteCounter));
    }

    /** points_cache_collect, then the deletion if there is anything to delete. */
    method Collect(seen: nat -> B.Glance)
      requires ikdtree.Valid() && I.WF(ModelOf(ikdtree.root)) && this !in ReprOf(ikdtree.root) && deleteCounter == 0
      modifies this`deleteCounter, ikdtree, ReprOf(ikdtree.root)
      ensures Now() == old(Now()) && cubNeedrm == old(cubNeedrm)
      ensures Removed(old(I.Live(ModelOf(ikdtree.root))))
    {
      NothingOutside(I.Live(ModelOf(ikdtree.root)));
      var pointsHistory := ikdtree.AcquireRemovedPoints([]);
      if |cubNeedrm| > 0 {
        Remove(seen);
      }
    }

    /** Move the cube, drop the record of removed points, delete what the boxes cover. */
    method Advance(posLid: Point, seen: nat -> B.Glance)
      requires ikdtree.Valid() && I.WF(ModelOf(ikdtree.root)) && this !in ReprOf(ikdtree.root)
      modifies this, ikdtree, ReprOf(ikdtree.root)
      ensures (Now(), cubNeedrm) == Segment(old(Now()), posLid, setup)
      ensures Removed(old(I.Live(ModelOf(ikdtree.root))))
    {
      NothingOutside(I.Live(ModelOf(ikdtree.root)));
      var moved := Follow(posLid);
      if moved {
        Collect(seen);
      }
    }

    /** lasermap_fov_segment: with a detection range of at most twice the side, exactly the live
        points of the old cube minus the new one are deleted and counted. */
    method FovSegment(posLid: Point, seen: nat -> B.Glance)
      requires ikdtree.Valid() && I.WF(ModelOf(ikdtree.root)) && this !in ReprOf(ikdtree.root)
      requires initialized ==> Cube(localMap, setup.side)
      modifies this, ikdtree, ReprOf(ikdtree.root)
      ensures ikdtree.Valid() && I.WF(ModelOf(ikdtree.root)) && initialized && Cube(localMap, setup.side)
      ensures (Now(), cubNeedrm) == Segment(old(Now()), posLid, setup)
      ensures !old(initialized) ==>
        I.Live(ModelOf(ikdtree.root)) == old(I.Live(ModelOf(ikdtree.root))) && deleteCounter == 0
      ensures old(initialized) && Covered(setup) ==>
        var gone := Behind(old(localMap), WaysOf(old(localMap), posLid, setup), setup.MovDist());
        && I.Live(ModelOf(ikdtree.root)) + Select(old(I.Live(ModelOf(ikdtree.root))), gone)
          == old(I.Live(ModelOf(ikdtree.root)))
        && deleteCounter == |Select(old(I.Live(ModelOf(ikdtree.root))), gone)|
    {
      ghost var m := I.Live(ModelOf(ikdtree.root));
      SegmentExact(Now(), posLid, setup, m);
      NothingOutside(m);
      Advance(posLid, seen);
    }
  }

  /** Settings under which no move exceeds the side. */
  predicate Covered(s: Setup) { s.side > 0.0 && 0.0 <= s.detRange <= 2.0 * s.side }

  /** What one call removes, in terms of the cubes. */
  lemma SegmentExact(st: State, pos: Point, s: Setup, m: Bag)
    requires st.initialized ==> Cube(st.box, s.side)
    ensures Segment(st, pos, s).0.initialized && Cube(Segment(st, pos, s).0.box, s.side)
    ensures !st.initialized ==> Segment(st, pos, s).1 == []
    ensures st.initialized && Covered(s) ==>
      var gone, kept := Behind(st.box, WaysOf(st.box, pos, s), s.MovDist()), B.OutsideAll(Segment(st, pos, s).1);
      Select(m, kept) + Select(m, gone) == m && |m| - |Select(m, kept)| == |Select(m, gone)|
  {
    if st.initialized {
      var w := WaysOf(st.box, pos, s);
      MovedIsCube(st.box, w, s.MovDist(), s.side);
      if Covered(s) {
        MoveFits(s);
        RemovesDifference(m, st.box, w, s.MovDist(), s.side);
      }
    }
  }

  lemma NothingOutside(m: Bag)
    ensures Select(m, B.OutsideAll([])) == m
  {
    SelectAll(m, B.OutsideAll([]));
  }
}
