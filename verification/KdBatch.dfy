/** Add_Points and Delete_Point_Boxes: lists of operations on the tree, and the log they leave
    for the rebuild thread. */
module KdBatch {
  import opened Geometry
  import opened KdTree
  import opened KdInvariant
  import opened KdLive
  import opened KdExact
  import opened KdQuery
  import opened KdVoxel
  import R = KdRun

  // ----- what the operations do to a tree -----

  /** A list of operations on the tree, as one outcome. */
  ghost function Perform(t: Tree, ops: seq<R.Op>, allow: bool, cfg: Config): Outcome {
    if ops == [] then Outcome(t, 0, [])
    else
      var f := Perform(t, ops[..|ops| - 1], allow, cfg);
      var r := R.Apply(f.tree, ops[|ops| - 1], allow, cfg);
      Outcome(r.tree, f.count + r.count, f.removed + r.removed)
  }

  lemma ApplyFollows(t: Tree, op: R.Op, allow: bool, cfg: Config)
    requires WF(t) && !op.DeleteOne?
    ensures var r := R.Apply(t, op, allow, cfg).tree; WF(r) && Live(r) == R.BagStep(Live(t), op)
  {
    match op
    case Add(p) => AddOk(t, p, allow, if t.Node? then t.axis else 0, cfg);
    case DeleteBox(box, down) => DeleteOk(t, box, allow, down, cfg);
    case Acquire =>
    case Query(u) => if Pushed(t, u) { PushedOk(t, u); }
  }

  lemma ApplyExact(t: Tree, op: R.Op, allow: bool, cfg: Config)
    requires WF(t) && Exact(t) && t.Node? && !op.DeleteOne?
    ensures var r := R.Apply(t, op, allow, cfg).tree; Exact(r) && r.Node?
  {
    match op
    case Add(p) =>
      AddExact(t, p, allow, t.axis, cfg);
      AddNeverEmpties(t, p, allow, t.axis, cfg);
    case DeleteBox(box, down) =>
      DeleteExact(t, box, allow, down, cfg);
      DeleteNeverEmpties(t, box, allow, down, cfg);
    case Acquire =>
    case Query(u) => if Pushed(t, u) { PushedExact(t, u); }
  }

  /** Whatever the tree looks like and whether or not it may rebuild, it follows the plain bag. */
  lemma {:induction false} PerformFollows(t: Tree, ops: seq<R.Op>, allow: bool, cfg: Config)
    requires WF(t) && R.Boxy(ops)
    ensures var r := Perform(t, ops, allow, cfg).tree; WF(r) && Live(r) == R.BagRun(Live(t), ops)
    decreases |ops|
  {
    if ops != [] {
      PerformFollows(t, ops[..|ops| - 1], allow, cfg);
      ApplyFollows(Perform(t, ops[..|ops| - 1], allow, cfg).tree, ops[|ops| - 1], allow, cfg);
    }
  }

  /** Ranges stay exact and the root stays. */
  lemma {:induction false} PerformExact(t: Tree, ops: seq<R.Op>, allow: bool, cfg: Config)
    requires WF(t) && Exact(t) && t.Node? && R.Boxy(ops)
    ensures var r := Perform(t, ops, allow, cfg).tree; Exact(r) && r.Node?
    decreases |ops|
  {
    if ops != [] {
      PerformExact(t, ops[..|ops| - 1], allow, cfg);
      PerformFollows(t, ops[..|ops| - 1], allow, cfg);
      ApplyExact(Perform(t, ops[..|ops| - 1], allow, cfg).tree, ops[|ops| - 1], allow, cfg);
    }
  }

  // ----- Add_Points -----

  /** What this thread reads of the shared flags: is a rebuild of the whole tree wanted, and is
      the rebuild thread collecting missed operations? */
  datatype Glance = Glance(wholeTree: bool, rebuilding: bool)

  /** The tree, the points appended to `Points_deleted`, the operations logged, and a counter. */
  datatype Progress = Progress(tree: Tree, removed: seq<Point>, log: seq<R.Op>, count: int)

  /** A list of operations, counted by nobody. */
  ghost function Performed(g: Progress, ops: seq<R.Op>, allow: bool, cfg: Config): Progress {
    var r := Perform(g.tree, ops, allow, cfg);
    g.(tree := r.tree, removed := g.removed + r.removed)
  }

  ghost function Applied(g: Progress, op: R.Op, allow: bool, cfg: Config): Progress {
    var r := R.Apply(g.tree, op, allow, cfg);
    g.(tree := r.tree, removed := g.removed + r.removed)
  }

  function Logged(g: Progress, ops: seq<R.Op>, seen: Glance): Progress {
    if seen.wholeTree && seen.rebuilding then g.(log := g.log + ops) else g
  }

  function InVoxel(t: Tree, v: Box, thin: bool): Found {
    if thin then RangeSearch(t, v) else Found(t, [])
  }

  function InsertOps(p: Point, found: seq<Point>, v: Box, thin: bool): seq<R.Op> {
    if thin then ThinOps(p, found, v) else [R.Add(p)]
  }

  /** One point of Add_Points, whose voxel is `v`. */
  ghost function InsertIn(g: Progress, p: Point, v: Box, thin: bool, seen: Glance, cfg: Config): Progress {
    var q := InVoxel(g.tree, v, thin);
    Carry(g, q.tree, InsertOps(p, q.points, v, thin), thin, seen, cfg)
  }

  /** The operations for one point, on the tree the search left behind. */
  ghost function Carry(g: Progress, t: Tree, ops: seq<R.Op>, thin: bool, seen: Glance, cfg: Config): Progress {
    var r := Performed(g.(tree := t), ops, !seen.wholeTree, cfg);
    Logged(r, ops, seen).(count := g.count + Bit(thin && ops != []))
  }

  ghost function Insert(g: Progress, p: Point, thin: bool, seen: Glance, cfg: Config): Progress
    requires cfg.voxel > 0.0
  {
    InsertIn(g, p, VoxelOf(p, cfg.voxel), thin, seen, cfg)
  }

  ghost function InsertAll(g: Progress, points: seq<Point>, thin: bool, seen: nat -> Glance, cfg: Config): Progress
    requires cfg.voxel > 0.0
  {
    if points == [] then g
    else
      var i := |points| - 1;
      Insert(InsertAll(g, points[..i], thin, seen, cfg), points[i], thin, seen(i), cfg)
  }

  lemma OpsBoxy(p: Point, found: seq<Point>, v: Box, thin: bool)
    ensures R.Boxy(InsertOps(p, found, v, thin))
  {
  }

  lemma InVoxelOk(t: Tree, v: Box, thin: bool)
    requires WF(t)
    ensures var q := InVoxel(t, v, thin);
      && Pushed(t, q.tree) && WF(q.tree) && Live(q.tree) == Live(t)
      && (thin ==> multiset(q.points) == Select(Live(t), Inside(v)))
  {
    if thin { RangeSearchOk(t, v); } else { PushedSelf(t); }
    PushedOk(t, InVoxel(t, v, thin).tree);
  }

  /** The operations on the tree are those on the bag, and those logged for the rebuild thread. */
  lemma InsertInFollows(g: Progress, p: Point, v: Box, thin: bool, seen: Glance, cfg: Config)
    requires WF(g.tree)
    ensures var r := InsertIn(g, p, v, thin, seen, cfg);
      var ops := InsertOps(p, InVoxel(g.tree, v, thin).points, v, thin);
      && WF(r.tree) && Live(r.tree) == R.BagRun(Live(g.tree), ops)
      && r.log == if seen.wholeTree && seen.rebuilding then g.log + ops else g.log
  {
    var q := InVoxel(g.tree, v, thin);
    InVoxelOk(g.tree, v, thin);
    OpsBoxy(p, q.points, v, thin);
    PerformFollows(q.tree, InsertOps(p, q.points, v, thin), !seen.wholeTree, cfg);
  }

  /** One point added: the bag follows, by thinning its voxel or by plain addition. */
  lemma InsertFollows(g: Progress, p: Point, thin: bool, seen: Glance, cfg: Config)
    requires cfg.voxel > 0.0 && WF(g.tree)
    ensures var r := Insert(g, p, thin, seen, cfg);
      && WF(r.tree)
      && (thin ==> ThinnedTo(Live(g.tree), Live(r.tree), p, cfg.voxel))
      && (!thin ==> Live(r.tree) == Live(g.tree) + multiset{p})
  {
    var v := VoxelOf(p, cfg.voxel);
    InVoxelOk(g.tree, v, thin);
    InsertInFollows(g, p, v, thin, seen, cfg);
    if thin {
      ThinBag(Live(g.tree), p, InVoxel(g.tree, v, thin).points, cfg.voxel);
    } else {
      OneStep(Live(g.tree), R.Add(p));
    }
  }

  lemma InsertExact(g: Progress, p: Point, v: Box, thin: bool, seen: Glance, cfg: Config)
    requires WF(g.tree) && Exact(g.tree) && g.tree.Node?
    ensures var r := InsertIn(g, p, v, thin, seen, cfg); Exact(r.tree) && r.tree.Node?
  {
    var q := InVoxel(g.tree, v, thin);
    InVoxelOk(g.tree, v, thin);
    PushedExact(g.tree, q.tree);
    OpsBoxy(p, q.points, v, thin);
    PerformExact(q.tree, InsertOps(p, q.points, v, thin), !seen.wholeTree, cfg);
  }

  /** If every voxel held at most one live point, the same holds after the whole list. */
  lemma {:induction false} ThinningKeepsOne(g: Progress, points: seq<Point>, seen: nat -> Glance, cfg: Config)
    requires cfg.voxel > 0.0 && WF(g.tree) && OnePerVoxel(Live(g.tree), cfg.voxel)
    ensures var r := InsertAll(g, points, true, seen, cfg); WF(r.tree) && OnePerVoxel(Live(r.tree), cfg.voxel)
    decreases |points|
  {
    if points != [] {
      var i := |points| - 1;
      var f := InsertAll(g, points[..i], true, seen, cfg);
      ThinningKeepsOne(g, points[..i], seen, cfg);
      InsertFollows(f, points[i], true, seen(i), cfg);
      ThinKeepsOne(Live(f.tree), Live(Insert(f, points[i], true, seen(i), cfg).tree), points[i], cfg.voxel);
    }
  }

  lemma BagGrows(m: Bag, points: seq<Point>)
    requires points != []
    ensures var i := |points| - 1; m + multiset(points) == m + multiset(points[..i]) + multiset{points[i]}
  {
    assert points == points[..|points| - 1] + [points[|points| - 1]];
  }

  /** Without downsampling exactly the listed points are added. */
  lemma {:induction false} AddingAddsAll(g: Progress, points: seq<Point>, seen: nat -> Glance, cfg: Config)
    requires cfg.voxel > 0.0 && WF(g.tree)
    ensures var r := InsertAll(g, points, false, seen, cfg);
      WF(r.tree) && Live(r.tree) == Live(g.tree) + multiset(points)
    decreases |points|
  {
    if points != [] {
      var i := |points| - 1;
      AddingAddsAll(g, points[..i], seen, cfg);
      InsertFollows(InsertAll(g, points[..i], false, seen, cfg), points[i], false, seen(i), cfg);
      BagGrows(Live(g.tree), points);
    }
  }

  /** What Add_Points needs of the tree: a root, and exact ranges if it is going to delete. */
  ghost predicate Rooted(t: Tree, thin: bool) { WF(t) && t.Node? && (thin ==> Exact(t)) }

  lemma InsertRooted(g: Progress, p: Point, thin: bool, seen: Glance, cfg: Config)
    requires cfg.voxel > 0.0 && Rooted(g.tree, thin)
    ensures Rooted(Insert(g, p, thin, seen, cfg).tree, thin)
  {
    InsertFollows(g, p, thin, seen, cfg);
    if thin {
      InsertExact(g, p, VoxelOf(p, cfg.voxel), thin, seen, cfg);
    } else {
      assert p in Live(Insert(g, p, thin, seen, cfg).tree);
    }
  }

  /** Add_Points always has a root to read. */
  lemma {:induction false} AddingKeepsRoot(g: Progress, points: seq<Point>, thin: bool, seen: nat -> Glance,
                                           cfg: Config)
    requires cfg.voxel > 0.0 && Rooted(g.tree, thin)
    ensures Rooted(InsertAll(g, points, thin, seen, cfg).tree, thin)
    decreases |points|
  {
    if points != [] {
      var i := |points| - 1;
      AddingKeepsRoot(g, points[..i], thin, seen, cfg);
      InsertRooted(InsertAll(g, points[..i], thin, seen, cfg), points[i], thin, seen(i), cfg);
    }
  }

  // ----- Delete_Point_Boxes -----

  /** In some box of the list. */
  predicate InAny(boxes: seq<Box>, p: Point) { exists i :: 0 <= i < |boxes| && InBox(boxes[i], p) }

  function OutsideAll(boxes: seq<Box>): Point -> bool { p => !InAny(boxes, p) }

  ghost function DeleteOneBox(g: Progress, box: Box, seen: Glance, cfg: Config): Progress {
    var r := DeleteRange(g.tree, box, !seen.wholeTree, false, cfg);
    Logged(Progress(r.tree, g.removed + r.removed, g.log, g.count + r.count), [R.DeleteBox(box, false)], seen)
  }

  ghost function DeleteBoxes(g: Progress, boxes: seq<Box>, seen: nat -> Glance, cfg: Config): Progress {
    if boxes == [] then g
    else
      var i := |boxes| - 1;
      DeleteOneBox(DeleteBoxes(g, boxes[..i], seen, cfg), boxes[i], seen(i), cfg)
  }

  lemma InAnyMore(boxes: seq<Box>, p: Point)
    requires boxes != []
    ensures var i := |boxes| - 1; InAny(boxes, p) <==> InAny(boxes[..i], p) || InBox(boxes[i], p)
  {
    var i := |boxes| - 1;
    if InAny(boxes, p) {
      var j :| 0 <= j < |boxes| && InBox(boxes[j], p);
      if j < i { assert InBox(boxes[..i][j], p); }
    }
    if InAny(boxes[..i], p) {
      var j :| 0 <= j < i && InBox(boxes[..i][j], p);
      assert InBox(boxes[j], p);
    }
  }

  lemma SelectTwice(m: Bag, f: Point -> bool, g: Point -> bool, both: Point -> bool)
    requires forall p :: both(p) <==> f(p) && g(p)
    ensures Select(Select(m, f), g) == Select(m, both)
  {
  }

  lemma OneBoxMore(m: Bag, boxes: seq<Box>)
    requires boxes != []
    ensures var i := |boxes| - 1;
      Select(Select(m, OutsideAll(boxes[..i])), Outside(boxes[i])) == Select(m, OutsideAll(boxes))
  {
    var i := |boxes| - 1;
    var f, g, both := OutsideAll(boxes[..i]), Outside(boxes[i]), OutsideAll(boxes);
    forall p ensures both(p) <==> f(p) && g(p) { InAnyMore(boxes, p); }
    SelectTwice(m, f, g, both);
  }

  lemma DeleteOneBoxOk(g: Progress, box: Box, seen: Glance, cfg: Config)
    requires WF(g.tree)
    ensures var r := DeleteOneBox(g, box, seen, cfg);
      && WF(r.tree) && Live(r.tree) == Select(Live(g.tree), Outside(box))
      && r.count == g.count + |Live(g.tree)| - |Live(r.tree)|
      && (Exact(g.tree) && g.tree.Node? ==> Exact(r.tree) && r.tree.Node?)
  {
    DeleteOk(g.tree, box, !seen.wholeTree, false, cfg);
    if Exact(g.tree) && g.tree.Node? {
      DeleteExact(g.tree, box, !seen.wholeTree, false, cfg);
      DeleteNeverEmpties(g.tree, box, !seen.wholeTree, false, cfg);
    }
  }

  /** Exactly the live points of the union of the boxes go, and each is counted once, overlaps or not. */
  lemma {:induction false} DeleteBoxesOk(g: Progress, boxes: seq<Box>, seen: nat -> Glance, cfg: Config)
    requires WF(g.tree)
    ensures var r := DeleteBoxes(g, boxes, seen, cfg);
      && WF(r.tree) && Live(r.tree) == Select(Live(g.tree), OutsideAll(boxes))
      && r.count == g.count + |Live(g.tree)| - |Live(r.tree)|
      && (Exact(g.tree) && g.tree.Node? ==> Exact(r.tree) && r.tree.Node?)
    decreases |boxes|
  {
    if boxes == [] {
      SelectAll(Live(g.tree), OutsideAll(boxes));
    } else {
      var i := |boxes| - 1;
      DeleteBoxesOk(g, boxes[..i], seen, cfg);
      DeleteOneBoxOk(DeleteBoxes(g, boxes[..i], seen, cfg), boxes[i], seen(i), cfg);
      OneBoxMore(Live(g.tree), boxes);
    }
  }
}
