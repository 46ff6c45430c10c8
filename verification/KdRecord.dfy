/** What goes into Points_deleted: exactly what was deleted without downsampling, save what a thinning
    swallows. */
module KdRecord {
  import opened Geometry
  import opened KdTree
  import opened KdInvariant
  import opened KdLive
  import opened KdStep
  import opened KdOrder
  import opened KdQuery
  import opened KdErase
  import opened KdExact
  import R = KdRun

  /** Occurrences of `q` that a flatten would record now. */
  ghost function Due(t: Tree, q: Point): nat { multiset(Buried(t))[q] }

  lemma DueUnfold(t: Tree, q: Point)
    requires t.Node?
    ensures var u := PushDown(t);
      Due(t, q) == Due(u.left, q) + Due(u.right, q) + Bit(t.pointDel && !t.pointDown && t.point == q)
  {
    BuriedStep(t, q);
  }

  lemma DuePush(t: Tree, q: Point)
    requires t.Node?
    ensures Due(PushDown(t), q) == Due(t, q)
  {
    PushTwice(t);
    DueUnfold(t, q);
    DueUnfold(PushDown(t), q);
  }

  // ----- marks -----

  lemma DownIsPushed(t: Tree)
    requires t.Node? && WF(t) && t.treeDown
    ensures var u := PushDown(t);
      && WF(u.left) && WF(u.right) && (u.left.Node? ==> u.left.treeDown) && (u.right.Node? ==> u.right.treeDown)
  {
    PushDownOk(t);
  }

  /** Nothing below a downsample mark is ever recorded. */
  lemma {:induction false} ThinnedIsNotDue(t: Tree, q: Point)
    requires WF(t) && (t.Node? ==> t.treeDown)
    ensures Due(t, q) == 0
    decreases Nodes(t)
  {
    if t.Node? {
      DownIsPushed(t);
      DueUnfold(t, q);
      ThinnedIsNotDue(PushDown(t).left, q);
      ThinnedIsNotDue(PushDown(t).right, q);
    }
  }

  /** A subtree that gets a deletion mark. */
  function Killed(c: Tree): Tree { if c.Nil? then Nil else PushInto(true, false, c) }

  lemma KilledKeeps(c: Tree)
    requires WF(c)
    ensures WF(Killed(c))
  {
    if c.Node? {
      var leaf := Leaf(c.point, 0);
      assert leaf.Node? && !leaf.treeDown;
      PushIntoOk(leaf.(treeDel := true), c, true);
    }
  }

  lemma PushedKilled(c: Tree)
    requires c.Node? && WF(c) && !c.treeDown
    ensures var k := PushDown(Killed(c)); k.left == Killed(c.left) && k.right == Killed(c.right)
  {
  }

  lemma LeafPush(c: Tree, q: Point)
    requires LiveLeaf(c)
    ensures Due(PushInto(false, false, c), q) == 0 && Due(c, q) == 0
  {
    DueUnfold(c, q);
    DueUnfold(PushInto(false, false, c), q);
  }

  lemma SonPushed(t: Tree, c: Tree, push: bool, q: Point)
    requires t.Node? && WF(t) && !t.treeDown && WF(c)
    requires (t.treeDel && !push ==> Gone(c)) && (!t.treeDel && push && c.Node? ==> LiveLeaf(c))
    requires Due(Killed(c), q) == Due(c, q) + Live(c)[q]
    ensures var d := if push && c.Node? then PushInto(t.treeDel, t.treeDown, c) else c;
      Due(d, q) + (if t.treeDel then 0 else Live(c)[q]) == Due(c, q) + Live(c)[q]
  {
    if push && c.Node? && !t.treeDel { LeafPush(c, q); }
  }

  lemma PushedEither(t: Tree)
    requires t.Node?
    ensures var u := PushDown(t);
      && u.left == (if t.pushLeft && t.left.Node? then PushInto(t.treeDel, t.treeDown, t.left) else t.left)
      && u.right == (if t.pushRight && t.right.Node? then PushInto(t.treeDel, t.treeDown, t.right) else t.right)
  {
  }

  /** What a subtree without the mark hands to its sons: a kill if it is deleted, else nothing that counts. */
  lemma PushedSons(c: Tree, q: Point)
    requires c.Node? && WF(c) && !c.treeDown
    requires Due(Killed(c.left), q) == Due(c.left, q) + Live(c.left)[q]
    requires Due(Killed(c.right), q) == Due(c.right, q) + Live(c.right)[q]
    ensures var u := PushDown(c);
      Due(u.left, q) + Due(u.right, q) + (if c.treeDel then 0 else Live(c.left)[q] + Live(c.right)[q])
        == Due(c.left, q) + Live(c.left)[q] + Due(c.right, q) + Live(c.right)[q]
  {
    PushedEither(c);
    SonPushed(c, c.left, c.pushLeft, q);
    SonPushed(c, c.right, c.pushRight, q);
  }

  lemma KillNode(c: Tree, q: Point)
    requires c.Node? && WF(c) && !c.treeDown
    requires Due(Killed(c.left), q) == Due(c.left, q) + Live(c.left)[q]
    requires Due(Killed(c.right), q) == Due(c.right, q) + Live(c.right)[q]
    ensures Due(Killed(c), q) == Due(c, q) + Live(c)[q]
  {
    PushedKilled(c);
    PushedSons(c, q);
    DueUnfold(c, q);
    DueUnfold(Killed(c), q);
  }

  /** A deletion mark makes exactly the live points due, on top of those due before. */
  lemma {:induction false} KillOk(c: Tree, q: Point)
    requires WF(c)
    ensures Due(Killed(c), q) == Due(c, q) + Live(c)[q]
  {
    if c.Node? {
      if c.treeDown {
        KilledKeeps(c);
        ThinnedIsNotDue(c, q);
        ThinnedIsNotDue(Killed(c), q);
      } else {
        KillOk(c.left, q);
        KillOk(c.right, q);
        KillNode(c, q);
      }
    }
  }

  lemma MarkAllDue(t: Tree, downsample: bool, q: Point)
    requires t.Node? && WF(t) && !t.treeDel
    ensures Due(MarkAll(t, downsample), q) == if downsample then 0 else Due(t, q) + Live(t)[q]
  {
    if downsample {
      MarkAllOk(t, true);
      ThinnedIsNotDue(MarkAll(t, true), q);
    } else {
      assert MarkAll(t, false) == Killed(t);
      KillOk(t, q);
    }
  }

  // ----- building and rebuilding -----

  lemma {:induction false} BuildDue(s: seq<Point>, cfg: Config, q: Point)
    ensures Due(BuildTree(s, cfg), q) == 0
    decreases |s|
  {
    if s != [] {
      var mid := (|s| - 1) / 2;
      var r := Pivoted(s, cfg);
      BuildDue(r[..mid], cfg, q);
      BuildDue(r[mid + 1..], cfg, q);
      JointDue(r[mid], LongestAxis(Bounds(s)), BuildTree(r[..mid], cfg), BuildTree(r[mid + 1..], cfg), q);
    }
  }

  lemma JointDue(p: Point, a: Axis, l: Tree, r: Tree, q: Point)
    requires Due(l, q) == Due(r, q) == 0
    ensures Due(Joint(p, a, l, r), q) == 0
  {
    var t := Joint(p, a, l, r);
    assert PushDown(t) == t;
    DueUnfold(t, q);
  }

  lemma UpdateSons(v: Tree)
    requires Ready(v)
    ensures var u := PushDown(Update(v));
      && (u.left == v.left || (LiveLeaf(v.left) && u.left == PushInto(false, false, v.left)))
      && (u.right == v.right || (LiveLeaf(v.right) && u.right == PushInto(false, false, v.right)))
      && u.point == v.point && u.pointDel == v.pointDel && u.pointDown == v.pointDown
  {
  }

  lemma UpdateDue(v: Tree, q: Point)
    requires Ready(v)
    ensures Due(Update(v), q) == Due(v.left, q) + Due(v.right, q) + Bit(v.pointDel && !v.pointDown && v.point == q)
  {
    UpdateSons(v);
    DueUnfold(Update(v), q);
    if LiveLeaf(v.left) { LeafPush(v.left, q); }
    if LiveLeaf(v.right) { LeafPush(v.right, q); }
  }

  /** A rebuild on the way records what is due, and leaves nothing due. */
  lemma FinishDue(v: Tree, allow: bool, cfg: Config, q: Point)
    requires Ready(v)
    ensures var f := Finish(v, allow, cfg);
      Due(f.tree, q) + multiset(f.removed)[q]
        == Due(v.left, q) + Due(v.right, q) + Bit(v.pointDel && !v.pointDown && v.point == q)
  {
    UpdateDue(v, q);
    BuildDue(Flat(Update(v)), cfg, q);
  }

  // ----- one operation -----

  /** Due in the tree plus recorded, after an operation. */
  ghost function DueAfter(r: Outcome, q: Point): nat { Due(r.tree, q) + multiset(r.removed)[q] }

  lemma SideDue(t: Tree, left: bool, c: Outcome, r: Outcome, allow: bool, cfg: Config, q: Point, plus: nat)
    requires t.Node? && WF(t)
    requires var u := PushDown(t); DueAfter(c, q) == Due(if left then u.left else u.right, q) + plus
    requires var v := if left then PushDown(t).(left := c.tree) else PushDown(t).(right := c.tree);
      var f := Finish(v, allow, cfg); Ready(v) && r.tree == f.tree && r.removed == c.removed + f.removed
    ensures DueAfter(r, q) == Due(t, q) + plus
  {
    var v := if left then PushDown(t).(left := c.tree) else PushDown(t).(right := c.tree);
    DueUnfold(t, q);
    FinishDue(v, allow, cfg, q);
    RemovedAt(c.removed, Finish(v, allow, cfg).removed, q);
  }

  lemma AddDueSide(t: Tree, p: Point, allow: bool, a: Axis, cfg: Config, q: Point)
    requires t.Node? && WF(t)
    requires var son := if GoesLeft(t, p) then PushDown(t).left else PushDown(t).right;
      DueAfter(AddPoint(son, p, allow, t.axis, cfg), q) == Due(son, q)
    ensures DueAfter(AddPoint(t, p, allow, a, cfg), q) == Due(t, q)
  {
    var son := if GoesLeft(t, p) then PushDown(t).left else PushDown(t).right;
    AddNodeReady(t, p, allow, cfg);
    AddUnfold(t, p, allow, a, cfg);
    SideDue(t, GoesLeft(t, p), AddPoint(son, p, allow, t.axis, cfg), AddPoint(t, p, allow, a, cfg), allow, cfg, q, 0);
  }

  lemma LeafDue(p: Point, a: Axis, q: Point)
    ensures DueAfter(Outcome(Leaf(p, a), 0, []), q) == 0 && Due(Nil, q) == 0
  {
    JointDue(p, a, Nil, Nil, q);
  }

  /** Add_by_point makes nothing due. */
  lemma {:induction false} AddDue(t: Tree, p: Point, allow: bool, a: Axis, cfg: Config, q: Point)
    requires WF(t)
    ensures DueAfter(AddPoint(t, p, allow, a, cfg), q) == Due(t, q)
    decreases Nodes(t)
  {
    if t.Nil? {
      LeafDue(p, (a + 1) % 3, q);
    } else {
      PushDownOk(t);
      AddDue(if GoesLeft(t, p) then PushDown(t).left else PushDown(t).right, p, allow, t.axis, cfg, q);
      AddDueSide(t, p, allow, a, cfg, q);
    }
  }

  predicate NothingPending(u: Tree)
    requires u.Node?
  {
    (u.pushLeft ==> u.left.Nil?) && (u.pushRight ==> u.right.Nil?)
  }

  lemma DueHere(u: Tree, q: Point)
    requires u.Node? && NothingPending(u)
    ensures Due(u, q) == Due(u.left, q) + Due(u.right, q) + Bit(u.pointDel && !u.pointDown && u.point == q)
  {
    PushedEither(u);
    DueUnfold(u, q);
  }

  lemma MarkOneFields(u: Tree)
    requires u.Node? && NothingPending(u)
    ensures var m := MarkOne(u);
      && m.Node? && NothingPending(m) && m.left == u.left && m.right == u.right && m.pointDel
      && m.pointDown == u.pointDown && m.point == u.point
  {
  }

  lemma MarkOneDue(u: Tree, q: Point)
    requires u.Node? && WF(u) && !Gone(u) && !u.pointDel && NothingPending(u)
    ensures Due(MarkOne(u), q) == Due(u, q) + Bit(u.point == q)
  {
    MarkOneFields(u);
    DueHere(MarkOne(u), q);
    DueHere(u, q);
  }

  /** Occurrences of `q` that Delete_by_point takes. */
  function TakenAt(t: Tree, p: Point, q: Point): nat { Bit(Met(t, p) == Some(q)) }

  lemma MetUnfold(t: Tree, p: Point)
    requires !Gone(t) && !Takes(t, p)
    ensures Met(t, p) == Met(if GoesLeft(t, p) then PushDown(t).left else PushDown(t).right, p)
  {
  }

  lemma DeletePointDueSide(t: Tree, p: Point, allow: bool, cfg: Config, q: Point)
    requires WF(t) && !Gone(t) && !Takes(t, p)
    requires var son := if GoesLeft(t, p) then PushDown(t).left else PushDown(t).right;
      DueAfter(DeletePoint(son, p, allow, cfg), q) == Due(son, q) + TakenAt(son, p, q)
    ensures DueAfter(DeletePoint(t, p, allow, cfg), q) == Due(t, q) + TakenAt(t, p, q)
  {
    var son := if GoesLeft(t, p) then PushDown(t).left else PushDown(t).right;
    DeletePointNodeReady(t, p, allow, cfg);
    DeletePointUnfold(t, p, allow, cfg);
    MetUnfold(t, p);
    SideDue(t, GoesLeft(t, p), DeletePoint(son, p, allow, cfg), DeletePoint(t, p, allow, cfg), allow, cfg, q,
            TakenAt(son, p, q));
  }

  lemma DeletePointDueHere(t: Tree, p: Point, allow: bool, cfg: Config, q: Point)
    requires WF(t) && !Gone(t) && Takes(t, p)
    ensures DueAfter(DeletePoint(t, p, allow, cfg), q) == Due(t, q) + TakenAt(t, p, q)
  {
    PushDownOk(t);
    DuePush(t, q);
    MarkOneDue(PushDown(t), q);
  }

  /** Delete_by_point makes exactly the point it takes due. */
  lemma {:induction false} DeletePointDue(t: Tree, p: Point, allow: bool, cfg: Config, q: Point)
    requires WF(t)
    ensures DueAfter(DeletePoint(t, p, allow, cfg), q) == Due(t, q) + TakenAt(t, p, q)
    decreases Nodes(t)
  {
    if !Gone(t) {
      if Takes(t, p) {
        DeletePointDueHere(t, p, allow, cfg, q);
      } else {
        PushDownOk(t);
        DeletePointDue(if GoesLeft(t, p) then PushDown(t).left else PushDown(t).right, p, allow, cfg, q);
        DeletePointDueSide(t, p, allow, cfg, q);
      }
    }
  }

  /** Points due in subtrees that a thinning box covers: their downsample mark takes them out of the record. */
  ghost function Swallowed(t: Tree, box: Box, q: Point): nat
    decreases Nodes(t)
  {
    if Gone(t) || Misses(box, t.range) then 0
    else if Covers(box, t.range) then Due(t, q)
    else Swallowed(PushDown(t).left, box, q) + Swallowed(PushDown(t).right, box, q)
  }

  /** What a box delete does to the account. */
  ghost predicate BoxDue(t: Tree, r: Outcome, box: Box, downsample: bool, q: Point) {
    if downsample then DueAfter(r, q) + Swallowed(t, box, q) == Due(t, q)
    else DueAfter(r, q) + Live(r.tree)[q] == Due(t, q) + Live(t)[q]
  }

  lemma StopDue(t: Tree, box: Box, allow: bool, downsample: bool, cfg: Config, q: Point)
    requires WF(t) && !Splits(t, box)
    ensures BoxDue(t, DeleteRange(t, box, allow, downsample, cfg), box, downsample, q)
  {
    if !Gone(t) {
      var u := PushDown(t);
      PushDownOk(t);
      DuePush(t, q);
      if Covers(box, t.range) {
        MarkAllDue(u, downsample, q);
        MarkAllOk(u, downsample);
      }
      if Misses(box, t.range) && Covers(box, t.range) { assert Due(u, q) == Due(t, q); }
    }
  }

  lemma BothDueAfter(t: Tree, box: Box, allow: bool, downsample: bool, cfg: Config, q: Point)
    requires WF(t) && Splits(t, box)
    ensures var u, v := PushDown(t), MarkIf(PushDown(t), box, downsample);
      DueAfter(DeleteRange(t, box, allow, downsample, cfg), q)
        == DueAfter(DeleteRange(u.left, box, allow, downsample, cfg), q)
         + DueAfter(DeleteRange(u.right, box, allow, downsample, cfg), q)
         + Bit(v.pointDel && !v.pointDown && v.point == q)
  {
    var u, v := PushDown(t), DeleteNode(t, box, allow, downsample, cfg);
    DeleteNodeReady(t, box, allow, downsample, cfg);
    DeleteUnfold(t, box, allow, downsample, cfg);
    FinishDue(v, allow, cfg, q);
    RemovedThree(DeleteRange(u.left, box, allow, downsample, cfg).removed,
                 DeleteRange(u.right, box, allow, downsample, cfg).removed, Finish(v, allow, cfg).removed, q);
  }

  /** The live points of a node that was split, after the delete. */
  lemma BothLive(t: Tree, box: Box, allow: bool, downsample: bool, cfg: Config, q: Point)
    requires WF(t) && Splits(t, box)
    ensures var u := PushDown(t);
      Live(DeleteRange(t, box, allow, downsample, cfg).tree)[q]
        == OwnLive(MarkIf(u, box, downsample))[q] + Live(DeleteRange(u.left, box, allow, downsample, cfg).tree)[q]
         + Live(DeleteRange(u.right, box, allow, downsample, cfg).tree)[q]
  {
    DeleteNodeReady(t, box, allow, downsample, cfg);
    DeleteUnfold(t, box, allow, downsample, cfg);
    FinishOk(DeleteNode(t, box, allow, downsample, cfg), allow, cfg);
  }

  /** Marking the own point by a plain delete makes it due; marking it by a thinning does not. */
  lemma OwnDue(u: Tree, box: Box, downsample: bool, q: Point)
    requires u.Node? && (u.pointDown ==> u.pointDel)
    ensures var v := MarkIf(u, box, downsample);
      var was, now := Bit(u.pointDel && !u.pointDown && u.point == q), Bit(v.pointDel && !v.pointDown && v.point == q);
      if downsample then now == was else now + OwnLive(v)[q] == was + OwnLive(u)[q]
  {
  }

  lemma SwallowedBoth(t: Tree, box: Box, q: Point)
    requires Splits(t, box)
    ensures Swallowed(t, box, q) == Swallowed(PushDown(t).left, box, q) + Swallowed(PushDown(t).right, box, q)
  {
  }

  lemma BothDueThin(t: Tree, box: Box, allow: bool, cfg: Config, q: Point)
    requires WF(t) && Splits(t, box)
    requires var u := PushDown(t);
      && BoxDue(u.left, DeleteRange(u.left, box, allow, true, cfg), box, true, q)
      && BoxDue(u.right, DeleteRange(u.right, box, allow, true, cfg), box, true, q)
    ensures BoxDue(t, DeleteRange(t, box, allow, true, cfg), box, true, q)
  {
    Opened(t);
    DueUnfold(t, q);
    OwnDue(PushDown(t), box, true, q);
    BothDueAfter(t, box, allow, true, cfg, q);
    SwallowedBoth(t, box, q);
  }

  lemma BothDuePlain(t: Tree, box: Box, allow: bool, cfg: Config, q: Point)
    requires WF(t) && Splits(t, box)
    requires var u := PushDown(t);
      && BoxDue(u.left, DeleteRange(u.left, box, allow, false, cfg), box, false, q)
      && BoxDue(u.right, DeleteRange(u.right, box, allow, false, cfg), box, false, q)
    ensures BoxDue(t, DeleteRange(t, box, allow, false, cfg), box, false, q)
  {
    Opened(t);
    DueUnfold(t, q);
    OwnDue(PushDown(t), box, false, q);
    BothDueAfter(t, box, allow, false, cfg, q);
    BothLive(t, box, allow, false, cfg, q);
    assert Live(t)[q] == OwnLive(PushDown(t))[q] + Live(PushDown(t).left)[q] + Live(PushDown(t).right)[q];
  }

  lemma BothDue(t: Tree, box: Box, allow: bool, downsample: bool, cfg: Config, q: Point)
    requires WF(t) && Splits(t, box)
    requires var u := PushDown(t);
      && BoxDue(u.left, DeleteRange(u.left, box, allow, downsample, cfg), box, downsample, q)
      && BoxDue(u.right, DeleteRange(u.right, box, allow, downsample, cfg), box, downsample, q)
    ensures BoxDue(t, DeleteRange(t, box, allow, downsample, cfg), box, downsample, q)
  {
    if downsample { BothDueThin(t, box, allow, cfg, q); } else { BothDuePlain(t, box, allow, cfg, q); }
  }

  /** Delete_by_range: without downsampling exactly the points deleted become due; with it none does, and
      those swallowed no longer are. */
  lemma {:induction false} DeleteDue(t: Tree, box: Box, allow: bool, downsample: bool, cfg: Config, q: Point)
    requires WF(t)
    ensures BoxDue(t, DeleteRange(t, box, allow, downsample, cfg), box, downsample, q)
    decreases Nodes(t)
  {
    if Splits(t, box) {
      PushDownOk(t);
      DeleteDue(PushDown(t).left, box, allow, downsample, cfg, q);
      DeleteDue(PushDown(t).right, box, allow, downsample, cfg, q);
      BothDue(t, box, allow, downsample, cfg, q);
    } else {
      StopDue(t, box, allow, downsample, cfg, q);
    }
  }

  // ----- whole runs -----

  /** Occurrences of `q` that an operation deletes other than by downsampling. */
  ghost function ErasedBy(t: Tree, op: R.Op, cfg: Config, q: Point): int {
    var before: int, after: int := Live(t)[q], Live(R.Apply(t, op, true, cfg).tree)[q];
    if op.DeleteOne? || (op.DeleteBox? && !op.downsample) then before - after else 0
  }

  ghost function SwallowedBy(t: Tree, op: R.Op, q: Point): int {
    if op.DeleteBox? && op.downsample then Swallowed(t, op.box, q) else 0
  }

  ghost function Erased(s: R.Session, ops: seq<R.Op>, cfg: Config, q: Point): int {
    if ops == [] then 0
    else
      Erased(s, ops[..|ops| - 1], cfg, q)
      + ErasedBy(R.Run(s, ops[..|ops| - 1], cfg).tree, ops[|ops| - 1], cfg, q)
  }

  ghost function SwallowedIn(s: R.Session, ops: seq<R.Op>, cfg: Config, q: Point): int {
    if ops == [] then 0
    else
      SwallowedIn(s, ops[..|ops| - 1], cfg, q)
      + SwallowedBy(R.Run(s, ops[..|ops| - 1], cfg).tree, ops[|ops| - 1], q)
  }

  lemma TakenIsErased(t: Tree, p: Point, cfg: Config, q: Point)
    requires WF(t)
    ensures ErasedBy(t, R.DeleteOne(p), cfg, q) == TakenAt(t, p, q)
  {
    ErasesWhatItMeets(t, p, true, cfg);
    WithoutAt(Live(t), Met(t, p), q);
  }

  lemma WithoutAt(m: Bag, o: Option<Point>, q: Point)
    requires o.Some? ==> o.value in m
    ensures m[q] - Without(m, o)[q] == Bit(o == Some(q))
  {
  }

  lemma PushedDue(t: Tree, u: Tree, q: Point)
    requires Pushed(t, u)
    ensures Due(u, q) == Due(t, q)
    decreases Nodes(t)
  {
    if t != u {
      var v := PushDown(t);
      PushedDue(v.left, u.left, q);
      PushedDue(v.right, u.right, q);
      DueUnfold(t, q);
      PushedIsPushed(t, u);
      DueUnfold(u, q);
    }
  }

  /** Once the flags of a node are handed down, nothing more is. */
  lemma PushedIsPushed(t: Tree, u: Tree)
    requires t.Node? && Pushed(t, u) && t != u
    ensures PushDown(u) == u
  {
    PushTwice(t);
    PushedSurface(PushDown(t).left, u.left);
    PushedSurface(PushDown(t).right, u.right);
  }

  lemma OneDue(t: Tree, p: Point, cfg: Config, q: Point)
    requires WF(t)
    ensures DueAfter(DeletePoint(t, p, true, cfg), q) == Due(t, q) + ErasedBy(t, R.DeleteOne(p), cfg, q)
  {
    DeletePointDue(t, p, true, cfg, q);
    TakenIsErased(t, p, cfg, q);
  }

  lemma BoxOpDue(t: Tree, box: Box, downsample: bool, cfg: Config, q: Point)
    requires WF(t)
    ensures var op := R.DeleteBox(box, downsample);
      DueAfter(DeleteRange(t, box, true, downsample, cfg), q) + SwallowedBy(t, op, q)
        == Due(t, q) + ErasedBy(t, op, cfg, q)
  {
    DeleteDue(t, box, true, downsample, cfg, q);
  }

  lemma OpDue(t: Tree, op: R.Op, cfg: Config, q: Point)
    requires WF(t)
    ensures DueAfter(R.Apply(t, op, true, cfg), q) + SwallowedBy(t, op, q) == Due(t, q) + ErasedBy(t, op, cfg, q)
  {
    match op
    case Add(p) => AddDue(t, p, true, if t.Node? then t.axis else 0, cfg, q);
    case DeleteBox(box, downsample) => BoxOpDue(t, box, downsample, cfg, q);
    case DeleteOne(p) => OneDue(t, p, cfg, q);
    case Acquire =>
    case Query(u) => if Pushed(t, u) { PushedDue(t, u, q); }
  }

  /** Handed out, recorded and still due. */
  ghost function Accounted(s: R.Session, q: Point): nat {
    s.handedOut[q] + multiset(s.record)[q] + Due(s.tree, q)
  }

  lemma SessionDue(s: R.Session, op: R.Op, cfg: Config, q: Point)
    requires WF(s.tree)
    ensures Accounted(R.Step(s, op, cfg), q) + SwallowedBy(s.tree, op, q)
         == Accounted(s, q) + ErasedBy(s.tree, op, cfg, q)
  {
    OpDue(s.tree, op, cfg, q);
    R.RecordAt(s, R.Apply(s.tree, op, true, cfg), op, cfg, q);
  }

  /** In every run, thinning included: handed out, recorded and still due are together exactly the points
      deleted other than by downsampling, less those that a thinning swallowed. */
  lemma {:induction false} RunRecords(cloud: seq<Point>, ops: seq<R.Op>, cfg: Config, q: Point)
    ensures var s := R.Start(cloud, cfg);
      Accounted(R.Run(s, ops, cfg), q) + SwallowedIn(s, ops, cfg, q) == Erased(s, ops, cfg, q)
    decreases |ops|
  {
    if ops == [] {
      BuildDue(cloud, cfg, q);
    } else {
      var front := ops[..|ops| - 1];
      RunRecords(cloud, front, cfg, q);
      R.RunSound(cloud, front, cfg);
      SessionDue(R.Run(R.Start(cloud, cfg), front, cfg), ops[|ops| - 1], cfg, q);
    }
  }

  // ----- a thinning does swallow -----

  /** A thinning box that covers the range of a tree takes whatever is due in it out of the record for good. */
  lemma CoverSwallows(t: Tree, box: Box, cfg: Config, q: Point)
    requires WF(t) && !Gone(t) && Covers(box, t.range) && !Misses(box, t.range)
    ensures Swallowed(t, box, q) == Due(t, q)
    ensures DueAfter(R.Apply(t, R.DeleteBox(box, true), true, cfg), q) == 0
  {
    DeleteDue(t, box, true, true, cfg, q);
  }

  lemma SmallFinish(v: Tree, allow: bool, cfg: Config)
    requires v.Node? && 1 + Size(v.left) + Size(v.right) <= MINIMAL_UNBALANCED_TREE_SIZE
    ensures var f := Finish(v, allow, cfg); f.removed == [] && Size(f.tree) == 1 + Size(v.left) + Size(v.right)
  {
  }

  /** A tree of at most ten points is never rebuilt, so nothing is recorded yet. */
  lemma {:induction false} SmallRecordsNothing(t: Tree, box: Box, allow: bool, downsample: bool, cfg: Config)
    requires WF(t) && Size(t) <= MINIMAL_UNBALANCED_TREE_SIZE
    ensures var r := DeleteRange(t, box, allow, downsample, cfg); r.removed == [] && Size(r.tree) == Size(t)
    decreases Nodes(t)
  {
    if Splits(t, box) {
      PushDownOk(t);
      SmallRecordsNothing(PushDown(t).left, box, allow, downsample, cfg);
      SmallRecordsNothing(PushDown(t).right, box, allow, downsample, cfg);
      DeleteUnfold(t, box, allow, downsample, cfg);
      SmallFinish(DeleteNode(t, box, allow, downsample, cfg), allow, cfg);
    } else {
      DeleteStops(t, box, allow, downsample, cfg);
    }
  }

  const FIRST := Point(0.0, 0.0, 0.0)
  const SECOND := Point(2.0, 0.0, 0.0)
  const THIRD := Point(4.0, 0.0, 0.0)
  const ABOUT_FIRST := Box(Point(0.0, 0.0, 0.0), Point(1.0, 1.0, 1.0))
  const ABOUT_OTHERS := Box(Point(2.0, 0.0, 0.0), Point(5.0, 1.0, 1.0))

  lemma FirstIsGone(cloud: seq<Point>, cfg: Config)
    requires multiset(cloud) == multiset{FIRST, SECOND, THIRD}
    ensures var t := BuildTree(cloud, cfg); var r := DeleteRange(t, ABOUT_FIRST, true, false, cfg).tree;
      && WF(t) && t.size == 3 && Live(t) == multiset(cloud)
      && WF(r) && Exact(r) && Live(r) == multiset{SECOND, THIRD}
  {
    var t := BuildTree(cloud, cfg);
    assert |cloud| == |multiset(cloud)|;
    BuildOk(cloud, cfg);
    BuildExact(cloud, cfg);
    DeleteOk(t, ABOUT_FIRST, true, false, cfg);
    DeleteExact(t, ABOUT_FIRST, true, false, cfg);
    assert Select(multiset{FIRST, SECOND, THIRD}, Outside(ABOUT_FIRST)) == multiset{SECOND, THIRD};
  }

  /** Three points on a line: the plain delete of the first one leaves it due. */
  lemma FirstIsDue(cloud: seq<Point>, cfg: Config)
    requires multiset(cloud) == multiset{FIRST, SECOND, THIRD}
    ensures var r := DeleteRange(BuildTree(cloud, cfg), ABOUT_FIRST, true, false, cfg);
      r.removed == [] && Due(r.tree, FIRST) == 1
  {
    var t := BuildTree(cloud, cfg);
    FirstIsGone(cloud, cfg);
    BuildDue(cloud, cfg, FIRST);
    DeleteDue(t, ABOUT_FIRST, true, false, cfg, FIRST);
    SmallRecordsNothing(t, ABOUT_FIRST, true, false, cfg);
  }

  lemma CoversOthers(t: Tree)
    requires WF(t) && Exact(t) && Live(t) == multiset{SECOND, THIRD}
    ensures !Gone(t) && Covers(ABOUT_OTHERS, t.range) && !Misses(ABOUT_OTHERS, t.range)
  {
    LiveCount(t);
    CoverIsExact(t, ABOUT_OTHERS);
    assert SECOND in Live(t);
    Encloses(t);
  }

  lemma RunOfTwo(s: R.Session, first: R.Op, second: R.Op, cfg: Config)
    ensures R.Run(s, [first, second], cfg) == R.Step(R.Step(s, first, cfg), second, cfg)
  {
    assert [first, second][..1] == [first] && [first][..0] == [];
    assert R.Run(s, [], cfg) == s;
    assert R.Run(s, [first], cfg) == R.Step(s, first, cfg);
  }

  /** Nothing was recorded before and nothing is due after. */
  lemma ForgetsAll(s: R.Session, box: Box, cfg: Config, q: Point)
    requires WF(s.tree) && !Gone(s.tree) && Covers(box, s.tree.range) && !Misses(box, s.tree.range)
    requires s.record == [] && s.handedOut == multiset{}
    ensures Accounted(R.Step(s, R.DeleteBox(box, true), cfg), q) == 0
  {
    CoverSwallows(s.tree, box, cfg, q);
    R.RecordAt(s, R.Apply(s.tree, R.DeleteBox(box, true), true, cfg), R.DeleteBox(box, true), cfg, q);
  }

  lemma ForgetsOthers(s: R.Session, cfg: Config)
    requires WF(s.tree) && Exact(s.tree) && Live(s.tree) == multiset{SECOND, THIRD}
    requires s.record == [] && s.handedOut == multiset{}
    ensures var r := R.Step(s, R.DeleteBox(ABOUT_OTHERS, true), cfg);
      Accounted(r, FIRST) == 0 && Live(r.tree) == multiset{}
  {
    CoversOthers(s.tree);
    ForgetsAll(s, ABOUT_OTHERS, cfg, FIRST);
    DeleteOk(s.tree, ABOUT_OTHERS, true, true, cfg);
    assert Select(multiset{SECOND, THIRD}, Outside(ABOUT_OTHERS)) == multiset{};
  }

  lemma BoxStep(s: R.Session, box: Box, downsample: bool, cfg: Config)
    ensures var t, r := R.Step(s, R.DeleteBox(box, downsample), cfg), DeleteRange(s.tree, box, true, downsample, cfg);
      t.tree == r.tree && t.record == s.record + r.removed && t.handedOut == s.handedOut
  {
  }

  lemma AfterFirst(s: R.Session, cloud: seq<Point>, cfg: Config)
    requires multiset(cloud) == multiset{FIRST, SECOND, THIRD} && s == R.Start(cloud, cfg)
    ensures var r := R.Step(s, R.DeleteBox(ABOUT_FIRST, false), cfg);
      && WF(r.tree) && Exact(r.tree) && Live(r.tree) == multiset{SECOND, THIRD}
      && r.record == [] && r.handedOut == multiset{}
  {
    FirstIsGone(cloud, cfg);
    FirstIsDue(cloud, cfg);
    BoxStep(s, ABOUT_FIRST, false, cfg);
  }

  /** It happens: after Build of three points, a plain delete of the first and a thinning that covers the
      other two, the first has been erased and is neither recorded nor due. */
  lemma SwallowHappens(cloud: seq<Point>, cfg: Config)
    requires multiset(cloud) == multiset{FIRST, SECOND, THIRD}
    ensures var ops := [R.DeleteBox(ABOUT_FIRST, false), R.DeleteBox(ABOUT_OTHERS, true)];
      var s := R.Run(R.Start(cloud, cfg), ops, cfg);
      FIRST in multiset(cloud) && Live(s.tree) == multiset{} && Accounted(s, FIRST) == 0
  {
    var first := R.DeleteBox(ABOUT_FIRST, false);
    AfterFirst(R.Start(cloud, cfg), cloud, cfg);
    ForgetsOthers(R.Step(R.Start(cloud, cfg), first, cfg), cfg);
    RunOfTwo(R.Start(cloud, cfg), first, R.DeleteBox(ABOUT_OTHERS, true), cfg);
  }
}
