/** Whole sequential runs of the tree, from one Build on. */
module KdRun {
  import opened Geometry
  import opened KdTree
  import opened KdInvariant
  import opened KdLive
  import opened KdStep
  import opened KdOrder
  import opened KdExact
  import opened KdBalance
  import opened KdQuery
  import opened KdMedian

  datatype Op =
    | Add(point: Point)
    | DeleteBox(box: Box, downsample: bool)
    | DeleteOne(point: Point)
    | Acquire
    | Query(after: Tree)  // any search, and the tree it leaves behind

  /** The tree, `Points_deleted`, and two ghosts of history: what `acquire_removed_points` handed
      out and what was ever inserted. */
  datatype Session = Session(tree: Tree, record: seq<Point>, handedOut: Bag, inserted: Bag)

  ghost function Apply(t: Tree, op: Op, allow: bool, cfg: Config): Outcome {
    match op
    case Add(p) => AddPoint(t, p, allow, if t.Node? then t.axis else 0, cfg)
    case DeleteBox(box, downsample) => DeleteRange(t, box, allow, downsample, cfg)
    case DeleteOne(p) => DeletePoint(t, p, allow, cfg)
    case Acquire => Outcome(t, 0, [])
    case Query(u) => Outcome(if Pushed(t, u) then u else t, 0, [])
  }

  ghost function Step(s: Session, op: Op, cfg: Config): Session {
    var r := Apply(s.tree, op, true, cfg);
    Session(r.tree,
            if op.Acquire? then [] else s.record + r.removed,
            if op.Acquire? then s.handedOut + multiset(s.record) else s.handedOut,
            if op.Add? then s.inserted + multiset{op.point} else s.inserted)
  }

  function Start(cloud: seq<Point>, cfg: Config): Session {
    Session(BuildTree(cloud, cfg), [], multiset{}, multiset(cloud))
  }

  ghost function Run(s: Session, ops: seq<Op>, cfg: Config): Session {
    if ops == [] then s else Step(Run(s, ops[..|ops| - 1], cfg), ops[|ops| - 1], cfg)
  }

  /** What the operations mean for a plain bag of points. */
  ghost function BagStep(m: Bag, op: Op): Bag {
    match op
    case Add(p) => m + multiset{p}
    case DeleteBox(box, _) => Select(m, Outside(box))
    case _ => m
  }

  ghost function BagRun(m: Bag, ops: seq<Op>): Bag {
    if ops == [] then m else BagStep(BagRun(m, ops[..|ops| - 1]), ops[|ops| - 1])
  }

  // ----- every run -----

  ghost predicate Sound(t: Tree, cfg: Config) {
    && WF(t) && Ordered(t)
    && (BalanceParam(cfg.balanceParam) ==> Balanced(t, ShareWithin(cfg.balanceParam)))
  }

  lemma QuerySound(t: Tree, u: Tree, cfg: Config)
    requires Sound(t, cfg) && Pushed(t, u)
    ensures Sound(u, cfg)
  {
    PushedOk(t, u);
    PushedOrdered(t, u);
    if BalanceParam(cfg.balanceParam) { PushedBalanced(t, u, ShareWithin(cfg.balanceParam)); }
  }

  lemma ApplySound(t: Tree, op: Op, cfg: Config)
    requires Sound(t, cfg)
    ensures Sound(Apply(t, op, true, cfg).tree, cfg)
  {
    match op
    case Add(p) =>
      var a := if t.Node? then t.axis else 0;
      AddOk(t, p, true, a, cfg);
      AddOrdered(t, p, true, a, cfg);
      if BalanceParam(cfg.balanceParam) { AddBalanced(t, p, a, cfg); }
    case DeleteBox(box, downsample) =>
      DeleteOk(t, box, true, downsample, cfg);
      DeleteOrdered(t, box, true, downsample, cfg);
      if BalanceParam(cfg.balanceParam) { DeleteBalanced(t, box, downsample, cfg); }
    case DeleteOne(p) =>
      DeletePointOk(t, p, true, cfg);
      DeletePointOrdered(t, p, true, cfg);
      if BalanceParam(cfg.balanceParam) { DeletePointBalanced(t, p, cfg); }
    case Acquire =>
    case Query(u) => if Pushed(t, u) { QuerySound(t, u, cfg); }
  }

  /** In every run: the invariant, left <= pivot <= right, and scapegoat balance at every node. */
  lemma {:induction false} RunSound(cloud: seq<Point>, ops: seq<Op>, cfg: Config)
    ensures Sound(Run(Start(cloud, cfg), ops, cfg).tree, cfg)
    decreases |ops|
  {
    if ops == [] {
      BuildOk(cloud, cfg);
      BuildOrdered(cloud, cfg);
      if BalanceParam(cfg.balanceParam) { BuildBalanced(cloud, cfg, cfg.balanceParam); }
    } else {
      RunSound(cloud, ops[..|ops| - 1], cfg);
      ApplySound(Run(Start(cloud, cfg), ops[..|ops| - 1], cfg).tree, ops[|ops| - 1], cfg);
    }
  }

  /** In every run every subtree of fewer than 1500 points, wherever it hangs, is logarithmically deep. */
  lemma RunShallow(cloud: seq<Point>, ops: seq<Op>, cfg: Config)
    requires BalanceParam(cfg.balanceParam)
    ensures Shallow(Run(Start(cloud, cfg), ops, cfg).tree, cfg.balanceParam)
  {
    RunSound(cloud, ops, cfg);
    BalancedIsShallowBelow(Run(Start(cloud, cfg), ops, cfg).tree, cfg.balanceParam);
  }

  // ----- runs of adds and box deletes -----

  predicate Boxy(ops: seq<Op>) { forall i | 0 <= i < |ops| :: !ops[i].DeleteOne? }

  /** The tree has a root, exact ranges and the live points `m`. */
  ghost predicate Stands(t: Tree, m: Bag) { t.Node? && WF(t) && Exact(t) && Live(t) == m }

  lemma StandsAfterAdd(t: Tree, p: Point, cfg: Config)
    requires Stands(t, Live(t))
    ensures Stands(AddPoint(t, p, true, t.axis, cfg).tree, Live(t) + multiset{p})
  {
    AddOk(t, p, true, t.axis, cfg);
    AddExact(t, p, true, t.axis, cfg);
    AddNeverEmpties(t, p, true, t.axis, cfg);
  }

  lemma StandsAfterDelete(t: Tree, box: Box, downsample: bool, cfg: Config)
    requires Stands(t, Live(t))
    ensures Stands(DeleteRange(t, box, true, downsample, cfg).tree, Select(Live(t), Outside(box)))
  {
    DeleteOk(t, box, true, downsample, cfg);
    DeleteExact(t, box, true, downsample, cfg);
    DeleteNeverEmpties(t, box, true, downsample, cfg);
  }

  lemma StandsAfterQuery(t: Tree, u: Tree)
    requires Stands(t, Live(t)) && Pushed(t, u)
    ensures Stands(u, Live(t))
  {
    PushedOk(t, u);
    PushedExact(t, u);
  }

  lemma StandsAfter(t: Tree, op: Op, cfg: Config)
    requires Stands(t, Live(t)) && !op.DeleteOne?
    ensures Stands(Apply(t, op, true, cfg).tree, BagStep(Live(t), op))
  {
    match op
    case Add(p) => StandsAfterAdd(t, p, cfg);
    case DeleteBox(box, downsample) => StandsAfterDelete(t, box, downsample, cfg);
    case Acquire =>
    case Query(u) => if Pushed(t, u) { StandsAfterQuery(t, u); }
  }

  /** The tree follows a plain bag; its root never becomes null and its ranges stay exact. */
  lemma {:induction false} RunRefinesBag(cloud: seq<Point>, ops: seq<Op>, cfg: Config)
    requires cloud != [] && Boxy(ops)
    ensures Stands(Run(Start(cloud, cfg), ops, cfg).tree, BagRun(multiset(cloud), ops))
    decreases |ops|
  {
    if ops == [] {
      BuildOk(cloud, cfg);
      BuildExact(cloud, cfg);
    } else {
      var front := ops[..|ops| - 1];
      RunRefinesBag(cloud, front, cfg);
      StandsAfter(Run(Start(cloud, cfg), front, cfg).tree, ops[|ops| - 1], cfg);
    }
  }

  // ----- why DeleteOne is not among them: a run that ends without a root -----

  /** A root that `Delete_by_point` has taken out of a fresh tree: its range is as it was. */
  ghost predicate RootOut(u: Tree, t: Tree) {
    && u.Node? && t.Node? && WF(u) && Exact(u.left) && Exact(u.right)
    && u.size == t.size && u.range == t.range && t.invalid == 0
    && Live(u) + multiset{t.point} == Live(t)
  }

  lemma RootTaken(cloud: seq<Point>, cfg: Config)
    requires cloud != []
    ensures var t := BuildTree(cloud, cfg);
      t.Node? && RootOut(DeletePoint(t, t.point, true, cfg).tree, t)
  {
    var t := BuildTree(cloud, cfg);
    BuildOk(cloud, cfg);
    BuildExact(cloud, cfg);
    LiveCount(t);
    MarkOneOk(t);
    assert PushDown(t) == t && SamePoint(t.point, t.point);
  }

  lemma RunTwo(s: Session, first: Op, second: Op, cfg: Config)
    ensures var t := Apply(s.tree, first, true, cfg).tree;
      Run(s, [first, second], cfg).tree == Apply(t, second, true, cfg).tree
  {
    assert [first, second][..1] == [first] && [first][..0] == [];
    assert Run(s, [], cfg) == s;
  }

  lemma CoversAll(t: Tree, p: Point, rest: Bag, box: Box)
    requires WF(t) && Exact(t) && !Gone(t) && rest + multiset{p} == Live(t) && AllIn(rest, box)
    ensures Covers(box, t.range) <==> InBox(box, p)
  {
    CoverIsExact(t, box);
    assert p in Live(t);
    assert forall q :: q in Live(t) <==> q in rest || q == p;
  }

  lemma RootOutIff(u: Tree, t: Tree, box: Box, downsample: bool, cfg: Config)
    requires RootOut(u, t) && WF(t) && Exact(t) && !Gone(t) && AllIn(Live(u), box) && cfg.deleteParam < 1.0
    ensures DeleteRange(u, box, true, downsample, cfg).tree.Nil? <==>
      !InBox(box, t.point) && 10 < t.size < MULTI_THREAD_REBUILD_POINT_NUM
  {
    CoversAll(t, t.point, Live(u), box);
    LiveCount(u);
    LiveCount(t);
    if u.treeDel {
      assert |Live(u) + multiset{t.point}| == 1;
    } else {
      StaleRootIff(u, box, downsample, cfg);
    }
  }

  lemma BuiltWhole(cloud: seq<Point>, cfg: Config)
    requires cloud != []
    ensures var t := BuildTree(cloud, cfg);
      t.Node? && WF(t) && Exact(t) && !Gone(t) && t.size == |cloud| && Live(t) == multiset(cloud)
  {
    BuildOk(cloud, cfg);
    BuildExact(cloud, cfg);
    LiveCount(BuildTree(cloud, cfg));
  }

  lemma OthersAre(m: Bag, rest: Bag, p: Point)
    requires rest + multiset{p} == m
    ensures rest == m - multiset{p}
  {
  }

  lemma LostFromTree(cloud: seq<Point>, box: Box, downsample: bool, cfg: Config)
    requires cloud != [] && cfg.deleteParam < 1.0
    requires AllIn(multiset(cloud) - multiset{BuildTree(cloud, cfg).point}, box)
    ensures var t := BuildTree(cloud, cfg); var u := DeletePoint(t, t.point, true, cfg).tree;
      t.Node? && (DeleteRange(u, box, true, downsample, cfg).tree.Nil? <==>
        !InBox(box, t.point) && 10 < |cloud| < MULTI_THREAD_REBUILD_POINT_NUM)
  {
    var t := BuildTree(cloud, cfg);
    var u := DeletePoint(t, t.point, true, cfg).tree;
    BuiltWhole(cloud, cfg);
    RootTaken(cloud, cfg);
    OthersAre(Live(t), Live(u), t.point);
    RootOutIff(u, t, box, downsample, cfg);
  }

  /** Build, take out the root's point, then delete a box that holds all other points: the root is
      rebuilt to null if and only if the box does not hold that point and the tree is rebuilt in place. */
  lemma RootLostIff(cloud: seq<Point>, box: Box, downsample: bool, cfg: Config)
    requires cloud != [] && cfg.deleteParam < 1.0
    requires AllIn(multiset(cloud) - multiset{BuildTree(cloud, cfg).point}, box)
    ensures var p := BuildTree(cloud, cfg).point;
      Run(Start(cloud, cfg), [DeleteOne(p), DeleteBox(box, downsample)], cfg).tree.Nil? <==>
        !InBox(box, p) && 10 < |cloud| < MULTI_THREAD_REBUILD_POINT_NUM
  {
    LostFromTree(cloud, box, downsample, cfg);
    RunTwo(Start(cloud, cfg), DeleteOne(BuildTree(cloud, cfg).point), DeleteBox(box, downsample), cfg);
  }

  const LOW := Point(0.0, 0.0, 0.0)
  const PEAK := Point(1.0, 1.0, 0.0)
  const HIGH := Point(2.0, 0.0, 0.0)
  const FLOOR := Box(Point(0.0, 0.0, 0.0), Point(3.0, 1.0, 1.0))

  /** Five points on either side of a peak, in any order. */
  ghost predicate Ridge(s: seq<Point>) {
    multiset(s) == Copies(LOW, 5) + multiset{PEAK} + Copies(HIGH, 5)
  }

  lemma RidgeExists() returns (s: seq<Point>)
    ensures Ridge(s)
  {
    RowBag(LOW, 5);
    RowBag(HIGH, 5);
    s := Row(LOW, 5) + [PEAK] + Row(HIGH, 5);
  }

  lemma RidgePoints(s: seq<Point>)
    requires Ridge(s)
    ensures LOW in s && HIGH in s && forall q | q in s :: q == LOW || q == PEAK || q == HIGH
  {
    assert forall q :: q in s <==> q in multiset(s);
  }

  lemma RidgeAxis(s: seq<Point>)
    requires Ridge(s)
    ensures LongestAxis(Bounds(s)) == 0
  {
    var ground := Box(LOW, Point(2.0, 1.0, 0.0));
    RidgePoints(s);
    forall i | 0 <= i < |s| ensures InRange(ground, s[i]) { assert s[i] in s; }
    BoundsWithin(s, ground);
    var i :| 0 <= i < |s| && s[i] == LOW;
    var j :| 0 <= j < |s| && s[j] == HIGH;
  }

  lemma RidgeRoot(s: seq<Point>, cfg: Config)
    requires Ridge(s)
    ensures |s| == 11 && BuildTree(s, cfg).Node? && BuildTree(s, cfg).point == PEAK
  {
    RidgeAxis(s);
    assert |s| == |multiset(s)|;
    BuildAround(s, Copies(LOW, 5), PEAK, Copies(HIGH, 5), cfg);
  }

  lemma RidgeOnFloor(s: seq<Point>)
    requires Ridge(s)
    ensures !InBox(FLOOR, PEAK) && AllIn(multiset(s) - multiset{PEAK}, FLOOR)
  {
  }

  /** Such clouds exist: for any nth_element, a run after which there is no root. */
  lemma RidgeLosesRoot(cloud: seq<Point>, downsample: bool, cfg: Config)
    requires Ridge(cloud) && cfg.deleteParam < 1.0
    ensures Run(Start(cloud, cfg), [DeleteOne(PEAK), DeleteBox(FLOOR, downsample)], cfg).tree.Nil?
  {
    RidgeRoot(cloud, cfg);
    RidgeOnFloor(cloud);
    RootLostIff(cloud, FLOOR, downsample, cfg);
  }

  // ----- no removed point is lost or duplicated -----

  predicate NoThinning(ops: seq<Op>) {
    forall i | 0 <= i < |ops| :: ops[i].DeleteBox? ==> !ops[i].downsample
  }

  /** Deleted points still held by the tree. */
  ghost function Marked(t: Tree): Bag { Stored(t) - Live(t) }

  lemma {:induction false} PushedUnthinned(t: Tree, u: Tree)
    requires Unthinned(t) && Pushed(t, u)
    ensures Unthinned(u)
    decreases Nodes(t)
  {
    if t != u {
      PushUnthinned(t);
      PushedUnthinned(PushDown(t).left, u.left);
      PushedUnthinned(PushDown(t).right, u.right);
    }
  }

  lemma StepConserves(t: Tree, op: Op, cfg: Config, q: Point)
    requires WF(t) && Unthinned(t) && (op.DeleteBox? ==> !op.downsample)
    ensures var r := Apply(t, op, true, cfg);
      && Unthinned(r.tree)
      && Stored(r.tree)[q] + multiset(r.removed)[q] == Stored(t)[q] + Bit(op.Add? && op.point == q)
  {
    match op
    case Add(p) => AddAccounts(t, p, true, if t.Node? then t.axis else 0, cfg, q);
    case DeleteBox(box, _) => DeleteAccounts(t, box, true, false, cfg, q);
    case DeleteOne(p) => DeletePointAccounts(t, p, true, cfg, q);
    case Acquire =>
    case Query(u) =>
      if Pushed(t, u) {
        PushedOk(t, u);
        PushedUnthinned(t, u);
      }
  }

  lemma {:induction false} RunConservesAt(cloud: seq<Point>, ops: seq<Op>, cfg: Config, q: Point)
    requires NoThinning(ops)
    ensures var s := Run(Start(cloud, cfg), ops, cfg);
      && Unthinned(s.tree)
      && s.inserted[q] == Stored(s.tree)[q] + multiset(s.record)[q] + s.handedOut[q]
    decreases |ops|
  {
    if ops == [] {
      BuildOk(cloud, cfg);
    } else {
      var front, op := ops[..|ops| - 1], ops[|ops| - 1];
      RunConservesAt(cloud, front, cfg, q);
      RunSound(cloud, front, cfg);
      SessionConserves(Run(Start(cloud, cfg), front, cfg), op, cfg, q);
    }
  }

  lemma SessionConserves(s: Session, op: Op, cfg: Config, q: Point)
    requires WF(s.tree) && Unthinned(s.tree) && (op.DeleteBox? ==> !op.downsample)
    requires s.inserted[q] == Stored(s.tree)[q] + multiset(s.record)[q] + s.handedOut[q]
    ensures var r := Step(s, op, cfg);
      && Unthinned(r.tree)
      && r.inserted[q] == Stored(r.tree)[q] + multiset(r.record)[q] + r.handedOut[q]
  {
    StepConserves(s.tree, op, cfg, q);
    RecordAt(s, Apply(s.tree, op, true, cfg), op, cfg, q);
  }

  /** Recorded and handed out, after the step as before it. */
  lemma RecordAt(s: Session, r: Outcome, op: Op, cfg: Config, q: Point)
    requires r == Apply(s.tree, op, true, cfg)
    ensures var t := Step(s, op, cfg);
      && t.tree == r.tree && t.inserted[q] == s.inserted[q] + Bit(op.Add? && op.point == q)
      && multiset(t.record)[q] + t.handedOut[q] == multiset(s.record)[q] + multiset(r.removed)[q] + s.handedOut[q]
  {
    RemovedAt(s.record, r.removed, q);
  }

  lemma SumsUp(inserted: Bag, stored: Bag, live: Bag, record: Bag, handedOut: Bag)
    requires live <= stored
    requires forall q :: inserted[q] == stored[q] + record[q] + handedOut[q]
    ensures inserted == live + (stored - live) + record + handedOut
  {
  }

  /** Inserted = live + marked in the tree + recorded + handed out, as bags. */
  lemma RunConserves(cloud: seq<Point>, ops: seq<Op>, cfg: Config)
    requires NoThinning(ops)
    ensures var s := Run(Start(cloud, cfg), ops, cfg);
      s.inserted == Live(s.tree) + Marked(s.tree) + multiset(s.record) + s.handedOut
  {
    var s := Run(Start(cloud, cfg), ops, cfg);
    RunSound(cloud, ops, cfg);
    StoredCount(s.tree);
    forall q ensures s.inserted[q] == Stored(s.tree)[q] + multiset(s.record)[q] + s.handedOut[q] {
      RunConservesAt(cloud, ops, cfg, q);
    }
    SumsUp(s.inserted, Stored(s.tree), Live(s.tree), multiset(s.record), s.handedOut);
  }
}
