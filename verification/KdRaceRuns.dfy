/** Clouds on which the interleavings of `KdRace` happen, whatever nth_element does. */
module KdRaceRuns {
  import opened Geometry
  import opened KdTree
  import opened KdInvariant
  import opened KdLive
  import opened KdStep
  import opened KdExact
  import opened KdRun
  import opened KdQuery
  import opened KdMedian
  import opened KdVoxel
  import opened KdRebuild
  import opened KdRace
  import B = KdBalance

  // ----- a box delete that takes the larger half of a large tree -----

  ghost predicate TakesHalf(lo: Bag, p: Point, hi: Bag, box: Box) {
    && 0 < |lo| <= |hi| && |lo| + |hi| + 1 >= MULTI_THREAD_REBUILD_POINT_NUM
    && InBox(box, p) && AllIn(hi, box) && forall q | q in lo :: q.x < box.lo.x
  }

  lemma SonMissed(l: Tree, box: Box)
    requires WF(l) && Exact(l) && Live(l) != multiset{} && forall q | q in Live(l) :: q.x < box.lo.x
    ensures !Gone(l) && Misses(box, l.range)
  {
    LiveCount(l);
    ExactIsTight(l);
  }

  lemma HalfSplits(t: Tree, lo: Bag, p: Point, hi: Bag, box: Box)
    requires Halved(t, lo, p, hi) && TakesHalf(lo, p, hi, box)
    ensures Splits(t, box)
  {
    assert Live(t) == multiset{p} + lo + hi;
    assert p in Live(t);
    Encloses(t);
    var q :| q in lo;
    assert q in Live(t);
  }

  lemma HalfLeft(t: Tree, lo: Bag, p: Point, hi: Bag, box: Box, downsample: bool, cfg: Config)
    requires Halved(t, lo, p, hi) && TakesHalf(lo, p, hi, box)
    ensures var l := DeleteRange(t.left, box, true, downsample, cfg).tree;
      l == PushDown(t.left) && Size(l) == |lo| && Invalid(l) == 0
  {
    SonMissed(t.left, box);
    LiveCount(t.left);
  }

  lemma HalfRight(t: Tree, lo: Bag, p: Point, hi: Bag, box: Box, downsample: bool, cfg: Config)
    requires Halved(t, lo, p, hi) && TakesHalf(lo, p, hi, box)
    ensures var r := DeleteRange(t.right, box, true, downsample, cfg).tree; Size(r) == Invalid(r) == |hi|
  {
    LiveCount(t.right);
    CoverIsExact(t.right, box);
  }

  /** The node after its sons: the left one missed, the right one covered. */
  lemma HalfNode(t: Tree, lo: Bag, p: Point, hi: Bag, box: Box, downsample: bool, cfg: Config)
    requires Halved(t, lo, p, hi) && TakesHalf(lo, p, hi, box)
    ensures t.left.Node? && HalfGone(DeleteNode(t, box, true, downsample, cfg), |lo|, |hi|, p, PushDown(t.left))
  {
    assert PushDown(t) == t;
    LiveCount(t.left);
    HalfLeft(t, lo, p, hi, box, downsample, cfg);
    HalfRight(t, lo, p, hi, box, downsample, cfg);
  }

  predicate HalfGone(v: Tree, lo: nat, hi: nat, p: Point, left: Tree) {
    && v.Node? && v.left == left && Size(left) == lo && Invalid(left) == 0
    && Size(v.right) == Invalid(v.right) == hi && v.pointDel && v.point == p && v.axis == 0
  }

  lemma MoreThanHalf(x: nat, n: nat, d: real)
    requires 0 < n < 2 * x && d <= 0.5
    ensures (x as real) / (n as real) > d
  {
    B.ShareBound(x, n, 0.5);
  }

  lemma MostlyGone(u: Tree, cfg: Config)
    requires u.Node? && u.size == 1 + Size(u.left) + Size(u.right) && 10 < u.size < 2 * u.invalid
    requires cfg.deleteParam <= 0.5
    ensures Criterion(u, cfg)
  {
    MoreThanHalf(u.invalid, u.size, cfg.deleteParam);
  }

  /** The root stands as the criterion wants it and is too large to be rebuilt here. */
  ghost predicate Lopsided(u: Tree, lo: nat, p: Point, left: Tree, cfg: Config) {
    && u.Node? && u.size == 1 + Size(u.left) + Size(u.right) && u.size >= MULTI_THREAD_REBUILD_POINT_NUM
    && Criterion(u, cfg) && u.left == left && Size(left) == lo && u.point == p && u.axis == 0
  }

  lemma HalfFinish(v: Tree, lo: nat, hi: nat, p: Point, left: Tree, cfg: Config)
    requires HalfGone(v, lo, hi, p, left) && lo <= hi && lo + hi + 1 >= MULTI_THREAD_REBUILD_POINT_NUM
    requires cfg.deleteParam <= 0.5
    ensures Lopsided(KdTree.Finish(v, true, cfg).tree, lo, p, left, cfg)
  {
    MostlyGone(Update(v), cfg);
  }

  lemma HalfAsks(t: Tree, lo: Bag, p: Point, hi: Bag, box: Box, downsample: bool, cfg: Config)
    requires Halved(t, lo, p, hi) && TakesHalf(lo, p, hi, box) && cfg.deleteParam <= 0.5
    ensures Asks(t, DeleteBox(box, downsample), cfg)
    ensures t.left.Node? && Lopsided(DeleteRange(t, box, true, downsample, cfg).tree, |lo|, p, PushDown(t.left), cfg)
  {
    HalfSplits(t, lo, p, hi, box);
    HalfNode(t, lo, p, hi, box, downsample, cfg);
    DeleteUnfold(t, box, true, downsample, cfg);
    HalfFinish(DeleteNode(t, box, true, downsample, cfg), |lo|, |hi|, p, PushDown(t.left), cfg);
  }

  // ----- adding to such a tree -----

  lemma AddGrowsSide(t: Tree, p: Point, a: Axis, cfg: Config)
    requires t.Node? && WF(t)
    requires var u := PushDown(t); var c := if GoesLeft(t, p) then u.left else u.right;
      Size(AddPoint(c, p, false, t.axis, cfg).tree) == Size(c) + 1
    ensures Size(AddPoint(t, p, false, a, cfg).tree) == Size(t) + 1
  {
    PushDownOk(t);
    AddUnfold(t, p, false, a, cfg);
  }

  /** Without rebuilding, an add makes a tree larger by one. */
  lemma {:induction false} AddGrows(t: Tree, p: Point, a: Axis, cfg: Config)
    requires WF(t)
    ensures Size(AddPoint(t, p, false, a, cfg).tree) == Size(t) + 1
    decreases Nodes(t)
  {
    if t.Node? {
      PushDownOk(t);
      AddGrows(if GoesLeft(t, p) then PushDown(t).left else PushDown(t).right, p, t.axis, cfg);
      AddGrowsSide(t, p, a, cfg);
    }
  }

  lemma AddKeepsHalved(t: Tree, lo: Bag, p: Point, hi: Bag, a: Point, cfg: Config)
    requires Halved(t, lo, p, hi) && a.x < p.x
    ensures Halved(AddPoint(t, a, false, t.axis, cfg).tree, lo + multiset{a}, p, hi)
  {
    assert PushDown(t) == t && GoesLeft(t, a);
    AddOk(t.left, a, false, t.axis, cfg);
    AddGrows(t.left, a, t.axis, cfg);
    AddOk(t, a, false, t.axis, cfg);
    AddExact(t, a, false, t.axis, cfg);
    AddUnfold(t, a, false, t.axis, cfg);
  }

  lemma PushedSizes(t: Tree)
    requires t.Node?
    ensures var h := PushAll(t);
      h.Node? && h.axis == t.axis && h.point == t.point && Size(PushDown(h).left) == Size(t.left)
  {
    var l := PushDown(t).left;
    assert PushAll(t).left == PushAll(l) && Size(PushAll(l)) == Size(l) == Size(t.left);
  }

  /** An add on the right of a root with a large left son leaves the tree large. */
  lemma AddStaysLarge(t: Tree, p: Point, cfg: Config)
    requires t.Node? && Size(t.left) >= MULTI_THREAD_REBUILD_POINT_NUM && !GoesLeft(t, p)
    ensures StaysLarge(PushAll(t), Add(p), cfg)
  {
    PushedSizes(t);
    AddUnfold(PushAll(t), p, true, t.axis, cfg);
  }

  // ----- the cloud -----

  function X(x: real): Point { Point(x, 0.0, 0.0) }

  /** Two clusters about a point, as large as they must be. */
  function Near(v: real): Bag { Low(v) + multiset{X(-2.0 * v)} + High(v) }
  function Low(v: real): Bag { Copies(X(-3.0 * v), 750) }
  function High(v: real): Bag { Copies(X(-1.5 * v), 751) }

  /** That behind the origin, and as many points before it in the voxel of the origin. */
  ghost predicate Clustered(s: seq<Point>, v: real) {
    v > 0.0 && multiset(s) == Near(v) + multiset{X(0.0)} + Copies(X(0.5 * v), 1502)
  }

  lemma CloudExists(v: real) returns (s: seq<Point>)
    requires v > 0.0
    ensures Clustered(s, v)
  {
    RowBag(X(-3.0 * v), 750);
    RowBag(X(-1.5 * v), 751);
    RowBag(X(0.5 * v), 1502);
    s := Row(X(-3.0 * v), 750) + [X(-2.0 * v)] + Row(X(-1.5 * v), 751) + [X(0.0)] + Row(X(0.5 * v), 1502);
  }

  function Cube(x: real, v: real): Box { Box(X(x), Point(x + v, v, v)) }

  ghost predicate OnLine(m: Bag) { forall q | q in m :: q.y == 0.0 && q.z == 0.0 }

  lemma {:induction false} LineBounds(s: seq<Point>)
    requires s != [] && forall i | 0 <= i < |s| :: s[i].y == 0.0 && s[i].z == 0.0
    ensures var b := Bounds(s); b.lo.x <= b.hi.x && b.lo.y == b.hi.y == b.lo.z == b.hi.z == 0.0
  {
    if |s| > 1 { LineBounds(s[..|s| - 1]); }
  }

  lemma LineHalves(s: seq<Point>, lo: Bag, p: Point, hi: Bag, cfg: Config)
    requires Around(multiset(s), lo, p, hi) && OnLine(multiset(s))
    ensures Halved(BuildTree(s, cfg), lo, p, hi)
  {
    assert |s| == |multiset(s)|;
    forall i | 0 <= i < |s| ensures s[i].y == 0.0 && s[i].z == 0.0 { assert s[i] in multiset(s); }
    LineBounds(s);
    BuildAround(s, lo, p, hi, cfg);
  }

  lemma NearAround(v: real)
    requires v > 0.0
    ensures |Near(v)| == 1502
    ensures Around(Near(v), Low(v), X(-2.0 * v), High(v))
  {
  }

  lemma CloudAround(s: seq<Point>, v: real)
    requires Clustered(s, v)
    ensures Around(multiset(s), Near(v), X(0.0), Copies(X(0.5 * v), 1502))
    ensures OnLine(multiset(s)) && OnLine(Near(v))
    ensures TakesHalf(Near(v), X(0.0), Copies(X(0.5 * v), 1502), Cube(0.0, v))
  {
    NearAround(v);
  }

  /** The state after Build. */
  function Built(s: seq<Point>, cfg: Config): State {
    State(BuildTree(s, cfg), false, false, [], Idle, Free, NOBODY, multiset(s), cfg)
  }

  lemma BuiltInitial(s: seq<Point>, cfg: Config)
    ensures Initial(Built(s, cfg))
  {
    BuildOk(s, cfg);
  }

  lemma FrontStays(s: seq<Point>, v: real)
    requires Clustered(s, v)
    ensures Select(multiset(s), Outside(Cube(0.0, v))) == Near(v)
  {
  }

  /** Deleting the voxel of the origin makes the built tree ask for a rebuild. */
  lemma FirstAsks(s: seq<Point>, downsample: bool, cfg: Config)
    requires Clustered(s, cfg.voxel) && cfg.deleteParam <= 0.5
    ensures var t := BuildTree(s, cfg); var box := Cube(0.0, cfg.voxel);
      && WF(t) && Live(t) == multiset(s) && t.left.Node?
      && Asks(t, DeleteBox(box, downsample), cfg)
      && Lopsided(DeleteRange(t, box, true, downsample, cfg).tree, 1502, X(0.0), PushDown(t.left), cfg)
  {
    var v := cfg.voxel;
    CloudAround(s, v);
    LineHalves(s, Near(v), X(0.0), Copies(X(0.5 * v), 1502), cfg);
    BuildOk(s, cfg);
    HalfAsks(BuildTree(s, cfg), Near(v), X(0.0), Copies(X(0.5 * v), 1502), Cube(0.0, v), downsample, cfg);
  }

  // ----- the first race -----

  function Origin(v: real): Op { DeleteBox(Cube(0.0, v), false) }
  function Before(v: real): Op { DeleteBox(Cube(-2.0 * v, v), false) }
  function Added(v: real): Point { X(-4.0 * v) }

  lemma NextHalved(s: seq<Point>, v: real, cfg: Config)
    requires multiset(s) == Near(v) && v > 0.0
    ensures var n := BuildTree(s, cfg);
      n.Node? &&
      Halved(AddPoint(n, Added(v), false, n.axis, cfg).tree, Low(v) + multiset{Added(v)}, X(-2.0 * v), High(v))
  {
    NearAround(v);
    LineHalves(s, Low(v), X(-2.0 * v), High(v), cfg);
    AddKeepsHalved(BuildTree(s, cfg), Low(v), X(-2.0 * v), High(v), Added(v), cfg);
  }

  lemma NextHalf(v: real)
    requires v > 0.0
    ensures TakesHalf(Low(v) + multiset{Added(v)}, X(-2.0 * v), High(v), Cube(-2.0 * v, v))
  {
  }

  lemma NextAsks(t: Tree, v: real, cfg: Config)
    requires Halved(t, Low(v) + multiset{Added(v)}, X(-2.0 * v), High(v)) && v > 0.0 && cfg.deleteParam <= 0.5
    ensures Asks(t, Before(v), cfg)
  {
    NextHalf(v);
    HalfAsks(t, Low(v) + multiset{Added(v)}, X(-2.0 * v), High(v), Cube(-2.0 * v, v), false, cfg);
  }

  lemma LateDue(m: Bag, v: real)
    requires v > 0.0 && m == Near(v) + multiset{X(0.0)} + Copies(X(0.5 * v), 1502)
    ensures BagStep(m, Origin(v)) == Near(v) && BagStep(Near(v) + multiset{Added(v)}, Before(v))[Added(v)] == 1
  {
  }

  lemma FirstLeaves(s: seq<Point>, cfg: Config)
    requires Clustered(s, cfg.voxel) && cfg.deleteParam <= 0.5
    ensures var t1 := Apply(BuildTree(s, cfg), Origin(cfg.voxel), true, cfg).tree;
      multiset(Flat(t1)) == Near(cfg.voxel) && Asks(BuildTree(s, cfg), Origin(cfg.voxel), cfg)
  {
    var t := BuildTree(s, cfg);
    FirstAsks(s, false, cfg);
    FrontStays(s, cfg.voxel);
    DeleteOk(t, Cube(0.0, cfg.voxel), true, false, cfg);
    FlatOk(DeleteRange(t, Cube(0.0, cfg.voxel), true, false, cfg).tree);
  }

  lemma SecondAsks(s: State, t1: Tree, v: real)
    requires t1 == Apply(s.tree, Origin(v), true, s.cfg).tree
    requires multiset(Flat(t1)) == Near(v) && v > 0.0 && s.cfg.deleteParam <= 0.5
    ensures Asks(AfterRebuild(s, Origin(v), Added(v)), Before(v), s.cfg)
  {
    NextHalved(Flat(t1), v, s.cfg);
    NextAsks(AfterRebuild(s, Origin(v), Added(v)), v, s.cfg);
  }

  lemma LateAsks(s: seq<Point>, cfg: Config)
    requires Clustered(s, cfg.voxel) && cfg.deleteParam <= 0.5
    ensures AsksTwice(Built(s, cfg), Origin(cfg.voxel), Added(cfg.voxel), Before(cfg.voxel))
  {
    FirstLeaves(s, cfg);
    SecondAsks(Built(s, cfg), Apply(BuildTree(s, cfg), Origin(cfg.voxel), true, cfg).tree, cfg.voxel);
    LateDue(multiset(s), cfg.voxel);
    NearAround(cfg.voxel);
  }

  lemma OneMore(due: Bag, live: Bag, p: Point)
    requires live == due + multiset{p} && due[p] == 1
    ensures live[p] == 2
  {
  }

  lemma LateRun(s: seq<Point>, cfg: Config, first: Call, second: Call) returns (u: State)
    requires Clustered(s, cfg.voxel) && cfg.deleteParam <= 0.5 && !first.AddThinned? && !second.AddThinned?
    requires OnlyOp(first) == Origin(cfg.voxel) && OnlyOp(second) == Before(cfg.voxel)
    ensures Reaches(Built(s, cfg), u, [first, AddPlain(Added(cfg.voxel)), second])
    ensures u.due[Added(cfg.voxel)] == 1 && Live(u.tree)[Added(cfg.voxel)] == 2
  {
    BuiltInitial(s, cfg);
    LateAsks(s, cfg);
    LateDue(multiset(s), cfg.voxel);
    u := LateLogDuplicates(Built(s, cfg), first, Added(cfg.voxel), second);
    OneMore(u.due, Live(u.tree), Added(cfg.voxel));
  }

  function EraseOrigin(v: real): Call { DeleteIn(Cube(0.0, v)) }
  function EraseBefore(v: real): Call { DeleteIn(Cube(-2.0 * v, v)) }

  /** It happens: after Build, a box is deleted, a point is added and another box is deleted, and the
      point that was added once is there twice. */
  lemma LateLogHappens(s: seq<Point>, cfg: Config) returns (u: State)
    requires Clustered(s, cfg.voxel) && cfg.deleteParam <= 0.5
    ensures Initial(Built(s, cfg))
    ensures var v := cfg.voxel;
      && Reaches(Built(s, cfg), u, [EraseOrigin(v), AddPlain(Added(v)), EraseBefore(v)])
      && u.due[Added(v)] == 1 && Live(u.tree)[Added(v)] == 2
  {
    BuiltInitial(s, cfg);
    u := LateRun(s, cfg, EraseOrigin(cfg.voxel), EraseBefore(cfg.voxel));
  }

  // ----- the second race -----

  function Centre(v: real): Point { Point(0.5 * v, 0.5 * v, 0.5 * v) }

  lemma CubeIsVoxel(v: real)
    requires v > 0.0
    ensures VoxelOf(Centre(v), v) == Cube(0.0, v)
  {
    SnapHolds(0.5 * v, v, 0);
  }

  lemma Square(d: real)
    ensures d * d >= 0.0
  {
  }

  lemma CentreNearest(v: real, q: Point)
    requires v > 0.0
    ensures var far := FromMiddle(Cube(0.0, v)); far(q) >= far(Centre(v))
  {
    var c := Centre(v);
    assert Middle(Cube(0.0, v)) == c;
    Square(q.x - c.x);
    Square(q.y - c.y);
    Square(q.z - c.z);
  }

  lemma {:induction false} CentreWins(v: real, found: seq<Point>)
    requires v > 0.0
    ensures Closest(Centre(v), found, FromMiddle(Cube(0.0, v))) == Centre(v)
  {
    if found != [] {
      CentreWins(v, found[..|found| - 1]);
      CentreNearest(v, found[|found| - 1]);
    }
  }

  lemma ThinsByCentre(v: real, found: seq<Point>)
    requires v > 0.0 && found != []
    ensures var box := VoxelOf(Centre(v), v);
      ThinOps(Centre(v), found, box) == [DeleteBox(box, true), Add(Centre(v))]
  {
    CubeIsVoxel(v);
    CentreWins(v, found);
  }

  /** The call of Add_Points for the centre of the voxel, with what Search_by_range finds there. */
  function AddCentre(s: seq<Point>, cfg: Config): Call {
    AddThinned(Centre(cfg.voxel), RangeSearch(BuildTree(s, cfg), Cube(0.0, cfg.voxel)).points)
  }

  lemma CentreFinds(s: seq<Point>, cfg: Config)
    requires Clustered(s, cfg.voxel)
    ensures Callable(BuildTree(s, cfg), AddCentre(s, cfg), cfg) && AddCentre(s, cfg).found != []
  {
    var v := cfg.voxel;
    CubeIsVoxel(v);
    BuildOk(s, cfg);
    RangeSearchOk(BuildTree(s, cfg), Cube(0.0, v));
    assert Select(multiset(s), Inside(Cube(0.0, v)))[X(0.0)] > 0;
  }

  lemma CentreThins(s: seq<Point>, cfg: Config)
    requires Clustered(s, cfg.voxel)
    ensures Callable(BuildTree(s, cfg), AddCentre(s, cfg), cfg)
    ensures OpsOf(AddCentre(s, cfg), cfg) == [DeleteBox(Cube(0.0, cfg.voxel), true), Add(Centre(cfg.voxel))]
  {
    CubeIsVoxel(cfg.voxel);
    CentreFinds(s, cfg);
    ThinsByCentre(cfg.voxel, AddCentre(s, cfg).found);
  }

  lemma LostAsks(s: seq<Point>, cfg: Config)
    requires Clustered(s, cfg.voxel) && cfg.deleteParam <= 0.5
    ensures AsksInThinning(Built(s, cfg), AddCentre(s, cfg), Cube(0.0, cfg.voxel), Centre(cfg.voxel))
  {
    var v := cfg.voxel;
    CentreThins(s, cfg);
    FirstAsks(s, true, cfg);
    FrontStays(s, v);
    NearAround(v);
    AddStaysLarge(DeleteRange(BuildTree(s, cfg), Cube(0.0, v), true, true, cfg).tree, Centre(v), cfg);
  }

  /** It happens: after Build, Add_Points with downsampling of the centre of a voxel returns, and the
      centre is lost. */
  lemma UnlockedAddHappens(s: seq<Point>, cfg: Config) returns (u: State)
    requires Clustered(s, cfg.voxel) && cfg.deleteParam <= 0.5
    ensures Initial(Built(s, cfg)) && Reaches(Built(s, cfg), u, [AddCentre(s, cfg)])
    ensures u.phase.Finishing? && u.main.Free? && u.due == Live(u.tree) + multiset{Centre(cfg.voxel)}
  {
    BuiltInitial(s, cfg);
    LostAsks(s, cfg);
    u := UnlockedAddIsLost(Built(s, cfg), AddCentre(s, cfg), Cube(0.0, cfg.voxel), Centre(cfg.voxel));
  }
}
