/** The other half of the rebuild criterion: in runs without Delete_by_point no subtree of in-place size
    carries more than the configured share of deleted points, and what the division axis of a built node is. */
module KdLean {
  import opened Geometry
  import opened KdTree
  import opened KdInvariant
  import opened KdLive
  import opened KdStep
  import opened KdQuery
  import opened KdExact
  import opened KdRun
  import B = KdBalance

  // ----- deleted points -----

  /** Deleted points against the size of a node. */
  function InvalidWithin(d: real): Share { (invalid: nat, size: nat) => invalid as real <= d * (size as real) }

  /** Every node of a size that is rebuilt in place, unless all of it is deleted, has an acceptable share. */
  ghost predicate Lean(t: Tree, ok: Share) {
    t.Node? ==>
      && Lean(t.left, ok) && Lean(t.right, ok)
      && (MINIMAL_UNBALANCED_TREE_SIZE < t.size < MULTI_THREAD_REBUILD_POINT_NUM && !t.treeDel ==>
            ok(t.invalid, t.size))
  }

  lemma PushIntoLean(t: Tree, c: Tree, ok: Share)
    requires t.Node? && c.Node? && WF(c) && Lean(c, ok)
    requires t.treeDown ==> t.treeDel
    requires !t.treeDel ==> LiveLeaf(c)
    ensures Lean(PushInto(t.treeDel, t.treeDown, c), ok)
  {
  }

  lemma PushLeftLean(t: Tree, ok: Share)
    requires t.Node? && WF(t) && Lean(t, ok)
    ensures Lean(PushLeft(t), ok)
  {
    if t.pushLeft && t.left.Node? { PushIntoLean(t, t.left, ok); }
  }

  lemma PushRightLean(t: Tree, ok: Share)
    requires t.Node? && WF(t) && Lean(t, ok)
    ensures Lean(PushRight(t), ok)
  {
    if t.pushRight && t.right.Node? { PushIntoLean(t, t.right, ok); }
  }

  lemma PushLean(t: Tree, ok: Share)
    requires t.Node? && WF(t) && Lean(t, ok)
    ensures Lean(PushDown(t), ok)
  {
    PushLeftLean(t, ok);
    PushLeftWF(t);
    PushRightLean(PushLeft(t), ok);
  }

  lemma NoneIsWithin(d: real, n: nat)
    requires d >= 0.0
    ensures InvalidWithin(d)(0, n)
  {
  }

  lemma {:induction false} BuildLean(s: seq<Point>, cfg: Config, d: real)
    requires d >= 0.0
    ensures Lean(BuildTree(s, cfg), InvalidWithin(d))
    decreases |s|
  {
    if s != [] {
      var mid := (|s| - 1) / 2;
      var r := Pivoted(s, cfg);
      BuildLean(r[..mid], cfg, d);
      BuildLean(r[mid + 1..], cfg, d);
      BuildOk(s, cfg);
      NoneIsWithin(d, BuildTree(s, cfg).size);
    }
  }

  lemma NotCriterionLean(u: Tree, cfg: Config)
    requires u.Node? && u.size == 1 + Size(u.left) + Size(u.right) && !Criterion(u, cfg)
    requires u.size > MINIMAL_UNBALANCED_TREE_SIZE
    ensures InvalidWithin(cfg.deleteParam)(u.invalid, u.size)
  {
    B.ShareBound(u.invalid, u.size, cfg.deleteParam);
  }

  /** After the rebuild check a node of in-place size is lean, rebuilt or not. */
  lemma FinishLean(v: Tree, cfg: Config)
    requires Ready(v) && cfg.deleteParam >= 0.0
    requires Lean(v.left, InvalidWithin(cfg.deleteParam)) && Lean(v.right, InvalidWithin(cfg.deleteParam))
    ensures Lean(Finish(v, true, cfg).tree, InvalidWithin(cfg.deleteParam))
  {
    var u := Update(v);
    if Criterion(u, cfg) {
      BuildLean(Flat(u), cfg, cfg.deleteParam);
    } else if u.size > MINIMAL_UNBALANCED_TREE_SIZE {
      NotCriterionLean(u, cfg);
    }
  }

  lemma AddLeanSide(t: Tree, p: Point, a: Axis, cfg: Config)
    requires t.Node? && WF(t) && cfg.deleteParam >= 0.0 && Lean(t, InvalidWithin(cfg.deleteParam))
    requires var c := if GoesLeft(t, p) then PushDown(t).left else PushDown(t).right;
      Lean(AddPoint(c, p, true, t.axis, cfg).tree, InvalidWithin(cfg.deleteParam))
    ensures Lean(AddPoint(t, p, true, a, cfg).tree, InvalidWithin(cfg.deleteParam))
  {
    PushLean(t, InvalidWithin(cfg.deleteParam));
    AddNodeReady(t, p, true, cfg);
    AddUnfold(t, p, true, a, cfg);
    FinishLean(AddNode(t, p, true, cfg), cfg);
  }

  lemma {:induction false} AddLean(t: Tree, p: Point, a: Axis, cfg: Config)
    requires WF(t) && cfg.deleteParam >= 0.0 && Lean(t, InvalidWithin(cfg.deleteParam))
    ensures Lean(AddPoint(t, p, true, a, cfg).tree, InvalidWithin(cfg.deleteParam))
    decreases Nodes(t)
  {
    if t.Node? {
      PushDownOk(t);
      PushLean(t, InvalidWithin(cfg.deleteParam));
      AddLean(if GoesLeft(t, p) then PushDown(t).left else PushDown(t).right, p, t.axis, cfg);
      AddLeanSide(t, p, a, cfg);
    }
  }

  lemma DeleteLeanStop(t: Tree, box: Box, downsample: bool, cfg: Config, ok: Share)
    requires WF(t) && Lean(t, ok) && !Splits(t, box)
    ensures Lean(DeleteRange(t, box, true, downsample, cfg).tree, ok)
  {
    DeleteStops(t, box, true, downsample, cfg);
    if t.Node? { PushLean(t, ok); }
  }

  lemma {:induction false} DeleteLean(t: Tree, box: Box, downsample: bool, cfg: Config)
    requires WF(t) && cfg.deleteParam >= 0.0 && Lean(t, InvalidWithin(cfg.deleteParam))
    ensures Lean(DeleteRange(t, box, true, downsample, cfg).tree, InvalidWithin(cfg.deleteParam))
    decreases Nodes(t)
  {
    if Splits(t, box) {
      PushDownOk(t);
      PushLean(t, InvalidWithin(cfg.deleteParam));
      DeleteLean(PushDown(t).left, box, downsample, cfg);
      DeleteLean(PushDown(t).right, box, downsample, cfg);
      DeleteNodeReady(t, box, true, downsample, cfg);
      DeleteUnfold(t, box, true, downsample, cfg);
      FinishLean(DeleteNode(t, box, true, downsample, cfg), cfg);
    } else {
      DeleteLeanStop(t, box, downsample, cfg, InvalidWithin(cfg.deleteParam));
    }
  }

  lemma {:induction false} PushedLean(t: Tree, u: Tree, ok: Share)
    requires WF(t) && Lean(t, ok) && Pushed(t, u)
    ensures Lean(u, ok)
    decreases Nodes(t)
  {
    if t != u {
      var v := PushDown(t);
      PushDownOk(t);
      PushLean(t, ok);
      PushedLean(v.left, u.left, ok);
      PushedLean(v.right, u.right, ok);
    }
  }

  lemma ApplyLean(t: Tree, op: Op, cfg: Config)
    requires WF(t) && cfg.deleteParam >= 0.0 && Lean(t, InvalidWithin(cfg.deleteParam)) && !op.DeleteOne?
    ensures Lean(Apply(t, op, true, cfg).tree, InvalidWithin(cfg.deleteParam))
  {
    match op
    case Add(p) => AddLean(t, p, if t.Node? then t.axis else 0, cfg);
    case DeleteBox(box, downsample) => DeleteLean(t, box, downsample, cfg);
    case Acquire =>
    case Query(u) => if Pushed(t, u) { PushedLean(t, u, InvalidWithin(cfg.deleteParam)); }
  }

  /** In every run of adds, box deletes and queries no subtree of more than 10 and fewer than 1500 points
      that is not deleted as a whole holds more than the configured share of deleted points. */
  lemma {:induction false} RunLean(cloud: seq<Point>, ops: seq<Op>, cfg: Config)
    requires cfg.deleteParam >= 0.0 && Boxy(ops)
    ensures Lean(Run(Start(cloud, cfg), ops, cfg).tree, InvalidWithin(cfg.deleteParam))
    decreases |ops|
  {
    if ops == [] {
      BuildLean(cloud, cfg, cfg.deleteParam);
    } else {
      var front := ops[..|ops| - 1];
      RunLean(cloud, front, cfg);
      RunSound(cloud, front, cfg);
      ApplyLean(Run(Start(cloud, cfg), front, cfg).tree, ops[|ops| - 1], cfg);
    }
  }

  // ----- division axes -----

  lemma LongestIsLongest(b: Box, a: Axis)
    ensures b.hi.At(a) - b.lo.At(a) <= b.hi.At(LongestAxis(b)) - b.lo.At(LongestAxis(b))
    ensures a < LongestAxis(b) ==> b.hi.At(a) - b.lo.At(a) < b.hi.At(LongestAxis(b)) - b.lo.At(LongestAxis(b))
  {
  }

  lemma {:induction false} BoundsTight(s: seq<Point>)
    requires s != []
    ensures Tight(Bounds(s), multiset(s))
  {
    if |s| == 1 {
      assert s == [s[0]] && multiset(s) == multiset{s[0]};
      TightPoint(s[0]);
    } else {
      var front, p := s[..|s| - 1], s[|s| - 1];
      assert s == front + [p];
      BoundsTight(front);
      TightPoint(p);
      TightHull(Bounds(front), multiset(front), PointBox(p), multiset{p});
    }
  }

  lemma Extremes(b: Box, m: Bag, a: Axis) returns (u: Point, w: Point)
    requires Tight(b, m)
    ensures u in m && w in m && u.At(a) == b.hi.At(a) && w.At(a) == b.lo.At(a)
  {
    if a == 0 {
      u :| u in m && u.x == b.hi.x;
      w :| w in m && w.x == b.lo.x;
    } else if a == 1 {
      u :| u in m && u.y == b.hi.y;
      w :| w in m && w.y == b.lo.y;
    } else {
      u :| u in m && u.z == b.hi.z;
      w :| w in m && w.z == b.lo.z;
    }
  }

  /** A built node divides along an axis on which two of its points are as far apart as any two are on any axis. */
  lemma BuildSplitsLongest(s: seq<Point>, cfg: Config, a: Axis, p: Point, q: Point) returns (u: Point, w: Point)
    requires p in s && q in s
    ensures BuildTree(s, cfg).Node? && u in s && w in s
    ensures var l := BuildTree(s, cfg).axis; u.At(l) - w.At(l) >= p.At(a) - q.At(a)
  {
    var b := Bounds(s);
    BoundsTight(s);
    u, w := Extremes(b, multiset(s), LongestAxis(b));
    assert p in multiset(s) && q in multiset(s);
    assert InRange(b, p) && InRange(b, q);
    LongestIsLongest(b, a);
  }

  /** The division axes follow each other from `a` on down. */
  ghost predicate Cycles(t: Tree, a: Axis) {
    t.Node? ==> t.axis == a && Cycles(t.left, (a + 1) % 3) && Cycles(t.right, (a + 1) % 3)
  }

  lemma PushCycles(t: Tree, a: Axis)
    requires t.Node? && Cycles(t, a)
    ensures Cycles(PushDown(t), a)
  {
  }

  /** Without rebuilding an added leaf divides along the axis after that of its father. */
  lemma {:induction false} AddCycles(t: Tree, p: Point, father: Axis, cfg: Config)
    requires Cycles(t, (father + 1) % 3)
    ensures Cycles(AddPoint(t, p, false, father, cfg).tree, (father + 1) % 3)
    decreases Nodes(t)
  {
    if t.Node? {
      PushCycles(t, (father + 1) % 3);
      AddCycles(if GoesLeft(t, p) then PushDown(t).left else PushDown(t).right, p, t.axis, cfg);
      AddUnfold(t, p, false, father, cfg);
    }
  }
}
