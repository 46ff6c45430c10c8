/** Add_Points and Delete_Point_Boxes against the two-thread state machine: what they log, and which of
    its steps they take. */
module KdCalls {
  import opened Geometry
  import opened KdTree
  import opened KdInvariant
  import opened KdOrder
  import opened KdQuery
  import opened KdRecord
  import opened KdRun
  import opened KdVoxel
  import opened KdBatch
  import opened KdRebuild

  // ----- the log -----

  /** The log has grown by operations that do to the live points before what was done to the tree. */
  ghost predicate LogTells(g: Progress, r: Progress) {
    g.log <= r.log && BagRun(Live(g.tree), r.log[|g.log|..]) == Live(r.tree)
  }

  /** The rebuild thread is seen to collect at every one of the first `n` looks. */
  predicate Collected(seen: nat -> Glance, n: nat) { forall i: nat | i < n :: seen(i) == Glance(true, true) }

  /** ... at none of them. */
  predicate Uncollected(seen: nat -> Glance, n: nat) {
    forall i: nat | i < n :: !(seen(i).wholeTree && seen(i).rebuilding)
  }

  lemma TailMore(a: seq<Op>, b: seq<Op>, n: nat)
    requires n <= |a|
    ensures (a + b)[n..] == a[n..] + b
  {
  }

  lemma LogMore(m: Bag, a: seq<Op>, ops: seq<Op>, n: nat, live: Bag, now: Bag)
    requires n <= |a| && BagRun(m, a[n..]) == live && BagRun(live, ops) == now
    ensures BagRun(m, (a + ops)[n..]) == now
  {
    TailMore(a, ops, n);
    RunSplit(m, a[n..], ops);
  }

  lemma LogTellsMore(g: Progress, f: Progress, r: Progress, ops: seq<Op>)
    requires LogTells(g, f) && r.log == f.log + ops && Live(r.tree) == BagRun(Live(f.tree), ops)
    ensures LogTells(g, r)
  {
    LogMore(Live(g.tree), f.log, ops, |g.log|, Live(f.tree), Live(r.tree));
  }

  lemma LogTellsSelf(g: Progress)
    ensures LogTells(g, g)
  {
    assert g.log[|g.log|..] == [];
  }

  /** The operations of one point, as the log has them. */
  function PointOps(t: Tree, p: Point, thin: bool, cfg: Config): seq<Op>
    requires cfg.voxel > 0.0
  {
    var v := VoxelOf(p, cfg.voxel);
    InsertOps(p, InVoxel(t, v, thin).points, v, thin)
  }

  lemma InsertLogs(g: Progress, p: Point, thin: bool, seen: Glance, cfg: Config)
    requires cfg.voxel > 0.0 && WF(g.tree)
    ensures var r, ops := Insert(g, p, thin, seen, cfg), PointOps(g.tree, p, thin, cfg);
      && WF(r.tree) && Live(r.tree) == BagRun(Live(g.tree), ops)
      && r.log == if seen.wholeTree && seen.rebuilding then g.log + ops else g.log
  {
    InsertInFollows(g, p, VoxelOf(p, cfg.voxel), thin, seen, cfg);
  }

  /** After `n` looks: the log only grew; it tells the whole change if all found the rebuild thread
      collecting, and is untouched if none did. */
  ghost predicate LogOk(g: Progress, r: Progress, seen: nat -> Glance, n: nat) {
    && WF(r.tree) && g.log <= r.log
    && (Collected(seen, n) ==> LogTells(g, r)) && (Uncollected(seen, n) ==> r.log == g.log)
  }

  lemma PointLogOk(g: Progress, f: Progress, p: Point, thin: bool, seen: nat -> Glance, i: nat, cfg: Config)
    requires cfg.voxel > 0.0 && LogOk(g, f, seen, i)
    ensures LogOk(g, Insert(f, p, thin, seen(i), cfg), seen, i + 1)
  {
    InsertLogs(f, p, thin, seen(i), cfg);
    if Collected(seen, i + 1) { PointTells(g, f, p, thin, cfg); }
  }

  lemma BoxLogOk(g: Progress, f: Progress, box: Box, seen: nat -> Glance, i: nat, cfg: Config)
    requires LogOk(g, f, seen, i)
    ensures LogOk(g, DeleteOneBox(f, box, seen(i), cfg), seen, i + 1)
  {
    DeleteOneBoxLogs(f, box, seen(i), cfg);
    if Collected(seen, i + 1) { BoxTells(g, f, box, cfg); }
  }

  /** Add_Points: the log only grows; it tells the whole change if every point was logged, and is
      untouched if none was. */
  lemma {:induction false} InsertAllLogs(g: Progress, points: seq<Point>, thin: bool, seen: nat -> Glance, cfg: Config)
    requires cfg.voxel > 0.0 && WF(g.tree)
    ensures LogOk(g, InsertAll(g, points, thin, seen, cfg), seen, |points|)
    decreases |points|
  {
    if points == [] {
      LogTellsSelf(g);
    } else {
      var i := |points| - 1;
      InsertAllLogs(g, points[..i], thin, seen, cfg);
      PointLogOk(g, InsertAll(g, points[..i], thin, seen, cfg), points[i], thin, seen, i, cfg);
    }
  }

  lemma DeleteOneBoxLogs(g: Progress, box: Box, seen: Glance, cfg: Config)
    requires WF(g.tree)
    ensures var r := DeleteOneBox(g, box, seen, cfg);
      && WF(r.tree) && Live(r.tree) == BagRun(Live(g.tree), [DeleteBox(box, false)])
      && r.log == if seen.wholeTree && seen.rebuilding then g.log + [DeleteBox(box, false)] else g.log
  {
    DeleteOneBoxOk(g, box, seen, cfg);
    BagRunOne(Live(g.tree), DeleteBox(box, false));
  }

  lemma BoxTells(g: Progress, f: Progress, box: Box, cfg: Config)
    requires WF(f.tree) && LogTells(g, f)
    ensures LogTells(g, DeleteOneBox(f, box, Glance(true, true), cfg))
  {
    DeleteOneBoxLogs(f, box, Glance(true, true), cfg);
    LogTellsMore(g, f, DeleteOneBox(f, box, Glance(true, true), cfg), [DeleteBox(box, false)]);
  }

  lemma PointTells(g: Progress, f: Progress, p: Point, thin: bool, cfg: Config)
    requires cfg.voxel > 0.0 && WF(f.tree) && LogTells(g, f)
    ensures LogTells(g, Insert(f, p, thin, Glance(true, true), cfg))
  {
    InsertLogs(f, p, thin, Glance(true, true), cfg);
    LogTellsMore(g, f, Insert(f, p, thin, Glance(true, true), cfg), PointOps(f.tree, p, thin, cfg));
  }

  /** Delete_Point_Boxes: the same of its log. */
  lemma {:induction false} DeleteBoxesLog(g: Progress, boxes: seq<Box>, seen: nat -> Glance, cfg: Config)
    requires WF(g.tree)
    ensures LogOk(g, DeleteBoxes(g, boxes, seen, cfg), seen, |boxes|)
    decreases |boxes|
  {
    if boxes == [] {
      LogTellsSelf(g);
    } else {
      var i := |boxes| - 1;
      DeleteBoxesLog(g, boxes[..i], seen, cfg);
      BoxLogOk(g, DeleteBoxes(g, boxes[..i], seen, cfg), boxes[i], seen, i, cfg);
    }
  }

  // ----- the count -----

  /** The only point of its voxel, nearer to the centre `c` than `p` and not the same point. */
  ghost predicate Keeps(m: Bag, q: Point, p: Point, c: Point) {
    m == multiset{q} && Dist(q, c) < Dist(p, c) && !SamePoint(p, q)
  }

  lemma OnePoint(found: seq<Point>, q: Point)
    requires multiset(found) == multiset{q}
    ensures found == [q]
  {
    assert |found| == |multiset(found)| == 1;
    assert found[0] in multiset(found);
  }

  lemma OpsForNothing(p: Point, found: seq<Point>, v: Box)
    ensures ThinOps(p, found, v) == [] <==> exists q :: Keeps(multiset(found), q, p, Middle(v))
  {
    SelfSame(p);
    ClosestOk(p, found, FromMiddle(v));
    if |found| == 1 {
      assert found == [found[0]] && found[..0] == [];
      assert Closest(p, found, FromMiddle(v)) == if Dist(found[0], Middle(v)) < Dist(p, Middle(v)) then found[0] else p;
      if Keeps(multiset(found), found[0], p, Middle(v)) {}
    }
    if q :| Keeps(multiset(found), q, p, Middle(v)) { OnePoint(found, q); }
  }

  /** The counter of Add_Points: with downsampling a point counts unless its voxel keeps the one point
      it has, without downsampling none does. */
  lemma InsertCounts(g: Progress, p: Point, thin: bool, seen: Glance, cfg: Config)
    requires cfg.voxel > 0.0 && WF(g.tree)
    ensures var v := VoxelOf(p, cfg.voxel);
      var kept := exists q :: Keeps(Select(Live(g.tree), Inside(v)), q, p, Middle(v));
      Insert(g, p, thin, seen, cfg).count == g.count + Bit(thin && !kept)
  {
    var v := VoxelOf(p, cfg.voxel);
    InVoxelOk(g.tree, v, thin);
    if thin { OpsForNothing(p, InVoxel(g.tree, v, thin).points, v); }
  }

  // ----- Points_deleted -----

  /** Recorded and due. */
  ghost function RecordOf(g: Progress, q: Point): nat { multiset(g.removed)[q] + Due(g.tree, q) }

  /** Adding: neither adds nor thinnings make anything due. */
  predicate Adding(op: Op) { op.Add? || (op.DeleteBox? && op.downsample) }

  lemma AddingDue(t: Tree, op: Op, allow: bool, cfg: Config, q: Point)
    requires WF(t) && Adding(op)
    ensures var r := Apply(t, op, allow, cfg); DueAfter(r, q) <= Due(t, q) && (op.Add? ==> DueAfter(r, q) == Due(t, q))
  {
    match op
    case Add(p) => AddDue(t, p, allow, if t.Node? then t.axis else 0, cfg, q);
    case DeleteBox(box, _) => DeleteDue(t, box, allow, true, cfg, q);
  }

  predicate AllAdding(ops: seq<Op>) { forall i | 0 <= i < |ops| :: Adding(ops[i]) }
  predicate AllAdds(ops: seq<Op>) { forall i | 0 <= i < |ops| :: ops[i].Add? }

  /** No more is due or recorded than was due, and as much if `all`. */
  ghost predicate NoMoreDue(t: Tree, r: Outcome, q: Point, all: bool) {
    DueAfter(r, q) <= Due(t, q) && (all ==> DueAfter(r, q) == Due(t, q))
  }

  lemma NoMoreDueOn(t: Tree, f: Outcome, op: Op, allow: bool, cfg: Config, q: Point, all: bool)
    requires WF(f.tree) && Adding(op) && (all ==> op.Add?) && NoMoreDue(t, f, q, all)
    ensures var r := Apply(f.tree, op, allow, cfg);
      NoMoreDue(t, Outcome(r.tree, f.count + r.count, f.removed + r.removed), q, all)
  {
    AddingDue(f.tree, op, allow, cfg, q);
    RemovedAt(f.removed, Apply(f.tree, op, allow, cfg).removed, q);
  }

  lemma {:induction false} PerformDue(t: Tree, ops: seq<Op>, allow: bool, cfg: Config, q: Point, all: bool)
    requires WF(t) && AllAdding(ops) && (all ==> AllAdds(ops))
    ensures NoMoreDue(t, Perform(t, ops, allow, cfg), q, all)
    decreases |ops|
  {
    if ops != [] {
      var front := ops[..|ops| - 1];
      PerformDue(t, front, allow, cfg, q, all);
      PerformFollows(t, front, allow, cfg);
      NoMoreDueOn(t, Perform(t, front, allow, cfg), ops[|ops| - 1], allow, cfg, q, all);
    }
  }

  lemma InsertParts(g: Progress, p: Point, thin: bool, seen: Glance, cfg: Config, t: Tree, ops: seq<Op>)
    requires cfg.voxel > 0.0 && t == InVoxel(g.tree, VoxelOf(p, cfg.voxel), thin).tree
    requires ops == PointOps(g.tree, p, thin, cfg)
    ensures var r, f := Insert(g, p, thin, seen, cfg), Perform(t, ops, !seen.wholeTree, cfg);
      r.tree == f.tree && r.removed == g.removed + f.removed
  {
  }

  lemma OpsAreAdding(p: Point, found: seq<Point>, v: Box, thin: bool)
    ensures var ops := InsertOps(p, found, v, thin); AllAdding(ops) && (!thin ==> AllAdds(ops))
  {
  }

  lemma InsertRecord(g: Progress, p: Point, thin: bool, seen: Glance, cfg: Config, q: Point)
    requires cfg.voxel > 0.0 && WF(g.tree)
    ensures var r := Insert(g, p, thin, seen, cfg);
      RecordOf(r, q) <= RecordOf(g, q) && (!thin ==> RecordOf(r, q) == RecordOf(g, q))
  {
    var v := VoxelOf(p, cfg.voxel);
    var f, ops := InVoxel(g.tree, v, thin), PointOps(g.tree, p, thin, cfg);
    InsertParts(g, p, thin, seen, cfg, f.tree, ops);
    OpsAreAdding(p, f.points, v, thin);
    InVoxelOk(g.tree, v, thin);
    PushedDue(g.tree, f.tree, q);
    PerformDue(f.tree, ops, !seen.wholeTree, cfg, q, !thin);
    RemovedAt(g.removed, Perform(f.tree, ops, !seen.wholeTree, cfg).removed, q);
  }

  /** Add_Points: nothing it removes is ever recorded, and without downsampling nothing is lost to the record. */
  lemma {:induction false} InsertAllRecord(g: Progress, points: seq<Point>, thin: bool, seen: nat -> Glance,
                                           cfg: Config, q: Point)
    requires cfg.voxel > 0.0 && WF(g.tree)
    ensures var r := InsertAll(g, points, thin, seen, cfg);
      RecordOf(r, q) <= RecordOf(g, q) && (!thin ==> RecordOf(r, q) == RecordOf(g, q))
    decreases |points|
  {
    if points != [] {
      var i := |points| - 1;
      InsertAllRecord(g, points[..i], thin, seen, cfg, q);
      InsertAllLogs(g, points[..i], thin, seen, cfg);
      InsertRecord(InsertAll(g, points[..i], thin, seen, cfg), points[i], thin, seen(i), cfg, q);
    }
  }

  /** What is no longer live is recorded or due. */
  ghost predicate RecordKept(g: Progress, r: Progress, q: Point) {
    RecordOf(r, q) + Live(r.tree)[q] == RecordOf(g, q) + Live(g.tree)[q]
  }

  lemma BoxRecord(g: Progress, box: Box, seen: Glance, cfg: Config, q: Point)
    requires WF(g.tree)
    ensures RecordKept(g, DeleteOneBox(g, box, seen, cfg), q)
  {
    DeleteDue(g.tree, box, !seen.wholeTree, false, cfg, q);
    RemovedAt(g.removed, DeleteRange(g.tree, box, !seen.wholeTree, false, cfg).removed, q);
  }

  lemma BoxRecordMore(g: Progress, f: Progress, box: Box, seen: Glance, cfg: Config, q: Point)
    requires WF(f.tree) && RecordKept(g, f, q)
    ensures RecordKept(g, DeleteOneBox(f, box, seen, cfg), q)
  {
    BoxRecord(f, box, seen, cfg, q);
  }

  /** Delete_Point_Boxes: exactly the points deleted are recorded or due. */
  lemma {:induction false} DeleteBoxesRecord(g: Progress, boxes: seq<Box>, seen: nat -> Glance, cfg: Config, q: Point)
    requires WF(g.tree)
    ensures RecordKept(g, DeleteBoxes(g, boxes, seen, cfg), q)
    decreases |boxes|
  {
    if boxes != [] {
      var i := |boxes| - 1;
      DeleteBoxesRecord(g, boxes[..i], seen, cfg, q);
      DeleteBoxesLog(g, boxes[..i], seen, cfg);
      BoxRecordMore(g, DeleteBoxes(g, boxes[..i], seen, cfg), boxes[i], seen(i), cfg, q);
    }
  }

  // ----- the steps of the state machine -----

  /** All steps of an unlocked call. */
  ghost function AllDirect(s: State): State
    decreases if s.main.Direct? then |s.main.ops| else 0
  {
    if s.main.Direct? && s.main.ops != [] then AllDirect(DoDirect(s, false)) else s
  }

  /** Where the mapping thread is when a call begins: before the locked step, or before the unlocked ones. */
  ghost predicate Before(s: State, g: Progress, t: Tree, call: Call, seen: Glance, cfg: Config) {
    && s.tree == t && s.log == g.log && s.cfg == cfg && s.flag == seen.rebuilding && s.wanted == seen.wholeTree
    && s.main == Begun(OpsOf(call, cfg), seen.wholeTree)
  }

  /** The state when it is over. */
  ghost function Done(s: State): State { if s.main.Locked? then DoLocked(s) else AllDirect(s) }

  /** The call did to the tree and to the log what those steps do. */
  ghost predicate Steps(s: State, r: Progress) { Done(s).tree == r.tree && Done(s).log == r.log && Done(s).main.Free? }

  lemma {:induction false} PerformFirst(t: Tree, ops: seq<Op>, allow: bool, cfg: Config)
    requires ops != []
    ensures Perform(t, ops, allow, cfg).tree
         == Perform(Apply(t, ops[0], allow, cfg).tree, ops[1..], allow, cfg).tree
    decreases |ops|
  {
    if |ops| > 1 {
      var front := ops[..|ops| - 1];
      PerformFirst(t, front, allow, cfg);
      var rest := ops[1..];
      assert rest[..|rest| - 1] == front[1..] && rest[|rest| - 1] == ops[|ops| - 1] && front[0] == ops[0];
    }
  }

  lemma {:induction false} AllDirectPerforms(s: State)
    requires s.main.Direct? && s.main.ops != []
    ensures var r := AllDirect(s);
      r.tree == Perform(s.tree, s.main.ops, true, s.cfg).tree && r.log == s.log && r.main.Free?
    decreases |s.main.ops|
  {
    PerformFirst(s.tree, s.main.ops, true, s.cfg);
    if |s.main.ops| > 1 { AllDirectPerforms(DoDirect(s, false)); }
  }

  lemma CallSteps(s: State, g: Progress, t: Tree, call: Call, seen: Glance, cfg: Config)
    requires Before(s, g, t, call, seen, cfg)
    ensures var ops := OpsOf(call, cfg); var r := Done(s);
      && r.tree == Perform(t, ops, !seen.wholeTree, cfg).tree && r.main.Free?
      && r.log == if seen.wholeTree && seen.rebuilding then g.log + ops else g.log
  {
    var ops := OpsOf(call, cfg);
    if ops == [] {
      assert g.log + ops == g.log;
    } else if !seen.wholeTree {
      AllDirectPerforms(s);
    }
  }

  /** One point of Add_Points is one call of the state machine, with what the search has found. */
  lemma InsertIsCall(g: Progress, p: Point, thin: bool, seen: Glance, cfg: Config, s: State)
    requires cfg.voxel > 0.0 && WF(g.tree)
    requires var q := InVoxel(g.tree, VoxelOf(p, cfg.voxel), thin);
      Before(s, g, q.tree, if thin then AddThinned(p, q.points) else AddPlain(p), seen, cfg)
    ensures var q := InVoxel(g.tree, VoxelOf(p, cfg.voxel), thin);
      && Pushed(g.tree, q.tree) && Callable(q.tree, if thin then AddThinned(p, q.points) else AddPlain(p), cfg)
      && Steps(s, Insert(g, p, thin, seen, cfg))
  {
    var v := VoxelOf(p, cfg.voxel);
    var q := InVoxel(g.tree, v, thin);
    InVoxelOk(g.tree, v, thin);
    CallSteps(s, g, q.tree, if thin then AddThinned(p, q.points) else AddPlain(p), seen, cfg);
  }

  /** One box of Delete_Point_Boxes is one call. */
  lemma DeleteIsCall(g: Progress, box: Box, seen: Glance, cfg: Config, s: State)
    requires Before(s, g, g.tree, DeleteIn(box), seen, cfg)
    ensures Steps(s, DeleteOneBox(g, box, seen, cfg))
  {
    CallSteps(s, g, g.tree, DeleteIn(box), seen, cfg);
    assert [DeleteBox(box, false)][..0] == [];
  }
}
