/** One recursion step of each update: the node as it stands just before `Update` and the
    rebuild check, from which every other property of the updates is read off. */
module KdStep {
  import opened Geometry
  import opened KdTree
  import opened KdInvariant
  import opened KdLive

  predicate GoesLeft(t: Tree, p: Point)
    requires t.Node?
  {
    p.At(t.axis) < t.point.At(t.axis)
  }

  function AddNode(t: Tree, p: Point, allow: bool, cfg: Config): Tree
    requires t.Node?
  {
    var u := PushDown(t);
    if GoesLeft(t, p) then u.(left := AddPoint(u.left, p, allow, u.axis, cfg).tree)
    else u.(right := AddPoint(u.right, p, allow, u.axis, cfg).tree)
  }

  function AddRemoved(t: Tree, p: Point, allow: bool, cfg: Config): seq<Point>
    requires t.Node?
  {
    var u := PushDown(t);
    if GoesLeft(t, p) then AddPoint(u.left, p, allow, u.axis, cfg).removed
    else AddPoint(u.right, p, allow, u.axis, cfg).removed
  }

  function DeletePointNode(t: Tree, p: Point, allow: bool, cfg: Config): Tree
    requires t.Node?
  {
    var u := PushDown(t);
    if GoesLeft(t, p) then u.(left := DeletePoint(u.left, p, allow, cfg).tree)
    else u.(right := DeletePoint(u.right, p, allow, cfg).tree)
  }

  function DeletePointRemoved(t: Tree, p: Point, allow: bool, cfg: Config): seq<Point>
    requires t.Node?
  {
    var u := PushDown(t);
    if GoesLeft(t, p) then DeletePoint(u.left, p, allow, cfg).removed
    else DeletePoint(u.right, p, allow, cfg).removed
  }

  function DeleteNode(t: Tree, box: Box, allow: bool, downsample: bool, cfg: Config): Tree
    requires t.Node?
  {
    var u := PushDown(t);
    MarkIf(u, box, downsample).(left := DeleteRange(u.left, box, allow, downsample, cfg).tree,
                                right := DeleteRange(u.right, box, allow, downsample, cfg).tree)
  }

  function DeleteRemoved(t: Tree, box: Box, allow: bool, downsample: bool, cfg: Config): seq<Point>
    requires t.Node?
  {
    var u := PushDown(t);
    DeleteRange(u.left, box, allow, downsample, cfg).removed + DeleteRange(u.right, box, allow, downsample, cfg).removed
  }

  lemma AddNodeReady(t: Tree, p: Point, allow: bool, cfg: Config)
    requires t.Node? && WF(t)
    ensures Ready(AddNode(t, p, allow, cfg))
  {
    var u := PushDown(t);
    Opened(t);
    if GoesLeft(t, p) {
      AddOk(u.left, p, allow, u.axis, cfg);
    } else {
      AddOk(u.right, p, allow, u.axis, cfg);
    }
  }

  lemma AddUnfold(t: Tree, p: Point, allow: bool, a: Axis, cfg: Config)
    requires t.Node?
    ensures var v := AddNode(t, p, allow, cfg); var f := Finish(v, allow, cfg);
      AddPoint(t, p, allow, a, cfg) == Outcome(f.tree, 0, AddRemoved(t, p, allow, cfg) + f.removed)
  {
  }

  predicate Splits(t: Tree, box: Box) {
    !Gone(t) && !Misses(box, t.range) && !Covers(box, t.range)
  }

  lemma DeleteNodeReady(t: Tree, box: Box, allow: bool, downsample: bool, cfg: Config)
    requires t.Node? && WF(t) && Splits(t, box)
    ensures Ready(DeleteNode(t, box, allow, downsample, cfg))
  {
    var u := PushDown(t);
    Opened(t);
    MarkIfOk(u, box, downsample);
    DeleteOk(u.left, box, allow, downsample, cfg);
    DeleteOk(u.right, box, allow, downsample, cfg);
  }

  lemma DeleteUnfold(t: Tree, box: Box, allow: bool, downsample: bool, cfg: Config)
    requires t.Node? && Splits(t, box)
    ensures var v := DeleteNode(t, box, allow, downsample, cfg); var f := Finish(v, allow, cfg);
      var r := DeleteRange(t, box, allow, downsample, cfg);
      r.tree == f.tree && r.removed == DeleteRemoved(t, box, allow, downsample, cfg) + f.removed
  {
  }

  predicate Takes(t: Tree, p: Point)
    requires t.Node?
  {
    SamePoint(t.point, p) && !t.pointDel
  }

  lemma DeletePointNodeReady(t: Tree, p: Point, allow: bool, cfg: Config)
    requires t.Node? && WF(t)
    ensures Ready(DeletePointNode(t, p, allow, cfg))
  {
    var u := PushDown(t);
    Opened(t);
    if GoesLeft(t, p) {
      DeletePointOk(u.left, p, allow, cfg);
    } else {
      DeletePointOk(u.right, p, allow, cfg);
    }
  }

  lemma DeletePointUnfold(t: Tree, p: Point, allow: bool, cfg: Config)
    requires t.Node? && !Gone(t) && !Takes(t, p)
    ensures var v := DeletePointNode(t, p, allow, cfg); var f := Finish(v, allow, cfg);
      var r := DeletePoint(t, p, allow, cfg);
      r.tree == f.tree && r.removed == DeletePointRemoved(t, p, allow, cfg) + f.removed
  {
  }

  /** A box delete that does not split stops here, in one of three ways. */
  lemma DeleteStops(t: Tree, box: Box, allow: bool, downsample: bool, cfg: Config)
    requires WF(t) && !Splits(t, box)
    ensures var r := DeleteRange(t, box, allow, downsample, cfg);
      && r.removed == []
      && (r.tree == t || (t.Node? && (r.tree == PushDown(t) || r.tree == MarkAll(PushDown(t), downsample))))
  {
  }

  lemma DeletePointStops(t: Tree, p: Point, allow: bool, cfg: Config)
    requires WF(t) && (Gone(t) || Takes(t, p))
    ensures var r := DeletePoint(t, p, allow, cfg);
      r.removed == [] && (r.tree == t || (!Gone(t) && !t.pointDel && r.tree == MarkOne(PushDown(t))))
  {
  }
}
