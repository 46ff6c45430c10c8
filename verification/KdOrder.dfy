/** The division order of the tree, and where every stored point goes. */
module KdOrder {
  import opened Geometry
  import opened KdTree
  import opened KdInvariant
  import opened KdLive
  import opened KdStep

  // ----- pushing -----

  lemma PushIntoOrdered(td: bool, tdd: bool, c: Tree)
    requires c.Node? && Ordered(c)
    ensures Ordered(PushInto(td, tdd, c)) && Stored(PushInto(td, tdd, c)) == Stored(c)
  {
  }

  lemma PushLeftOrdered(t: Tree)
    requires t.Node? && Ordered(t)
    ensures Ordered(PushLeft(t)) && Stored(PushLeft(t)) == Stored(t)
  {
    if t.left.Node? { PushIntoOrdered(t.treeDel, t.treeDown, t.left); }
  }

  lemma PushRightOrdered(t: Tree)
    requires t.Node? && Ordered(t)
    ensures Ordered(PushRight(t)) && Stored(PushRight(t)) == Stored(t)
  {
    if t.right.Node? { PushIntoOrdered(t.treeDel, t.treeDown, t.right); }
  }

  lemma PushOrdered(t: Tree)
    requires t.Node? && Ordered(t)
    ensures Ordered(PushDown(t)) && Stored(PushDown(t)) == Stored(t)
  {
    PushLeftOrdered(t);
    PushRightOrdered(PushLeft(t));
  }

  lemma PushUnthinned(t: Tree)
    requires t.Node? && Unthinned(t)
    ensures Unthinned(PushDown(t))
  {
  }

  // ----- flattening -----

  /** At most as many `q` as before, and exactly as many if nothing was ever thinned out. */
  ghost predicate Lossless(t: Tree, after: int, before: int) {
    after <= before && (Unthinned(t) ==> after == before)
  }

  lemma BuriedStep(t: Tree, q: Point)
    requires t.Node?
    ensures var u := PushDown(t);
      multiset(Buried(t))[q] == multiset(Buried(u.left))[q] + multiset(Buried(u.right))[q]
        + Bit(u.pointDel && !u.pointDown && u.point == q)
  {
  }

  lemma OpenedAt(t: Tree, q: Point)
    requires t.Node? && WF(t)
    ensures var u := PushDown(t);
      && Live(t)[q] == Bit(!u.pointDel && u.point == q) + Live(u.left)[q] + Live(u.right)[q]
      && Stored(t)[q] == Bit(u.point == q) + Stored(u.left)[q] + Stored(u.right)[q]
  {
    Opened(t);
    PushDownOk(t);
  }

  ghost predicate Handed(t: Tree, q: Point) {
    Lossless(t, Live(t)[q] + multiset(Buried(t))[q], Stored(t)[q])
  }

  lemma UnthinnedParts(t: Tree)
    requires t.Node?
    ensures var u := PushDown(t);
      Unthinned(t) ==> Unthinned(u.left) && Unthinned(u.right) && !u.pointDown
  {
    if Unthinned(t) { PushUnthinned(t); }
  }

  lemma BuriedJoin(t: Tree, q: Point)
    requires t.Node? && WF(t) && Handed(PushDown(t).left, q) && Handed(PushDown(t).right, q)
    ensures Handed(t, q)
  {
    UnthinnedParts(t);
    BuriedStep(t, q);
    OpenedAt(t, q);
  }

  /** flatten hands out every stored point exactly once: as live, or as removed unless it was
      thinned out by downsampling. */
  lemma {:induction false} BuriedOk(t: Tree, q: Point)
    requires WF(t)
    ensures Handed(t, q)
    decreases Nodes(t)
  {
    if t.Node? {
      Opened(t);
      BuriedOk(PushDown(t).left, q);
      BuriedOk(PushDown(t).right, q);
      BuriedJoin(t, q);
    }
  }

  // ----- the account of one operation -----

  /** Stored plus recorded occurrences of `q` against those before. */
  ghost predicate Accounts(t: Tree, r: Outcome, q: Point, before: int) {
    Lossless(t, Stored(r.tree)[q] + multiset(r.removed)[q], before)
  }

  lemma RebuildAccounts(t: Tree, cfg: Config, q: Point)
    requires t.Node? && WF(t)
    ensures Accounts(t, Rebuild(t, cfg), q, Stored(t)[q])
    ensures Unthinned(t) ==> Unthinned(Rebuild(t, cfg).tree)
  {
    FlatOk(t);
    BuildOk(Flat(t), cfg);
    BuriedOk(t, q);
  }

  lemma FinishAccounts(t: Tree, allow: bool, cfg: Config, q: Point)
    requires Ready(t)
    ensures Accounts(t, Finish(t, allow, cfg), q, Bit(t.point == q) + Stored(t.left)[q] + Stored(t.right)[q])
    ensures Unthinned(t) ==> Unthinned(Finish(t, allow, cfg).tree)
  {
    UpdateOk(t);
    UpdateStores(t, q);
    RebuildAccounts(Update(t), cfg, q);
  }

  lemma UpdateStores(t: Tree, q: Point)
    requires t.Node?
    ensures Stored(Update(t))[q] == Bit(t.point == q) + Stored(t.left)[q] + Stored(t.right)[q]
    ensures Unthinned(t) ==> Unthinned(Update(t))
  {
  }

  lemma RemovedAt(a: seq<Point>, b: seq<Point>, q: Point)
    ensures multiset(a + b)[q] == multiset(a)[q] + multiset(b)[q]
  {
  }

  /** What one side of a node hands up, with `plus` new occurrences of `q`. */
  ghost predicate SideAccounts(c: Tree, r: Outcome, q: Point, plus: int) {
    Accounts(c, r, q, Stored(c)[q] + plus) && (Unthinned(c) ==> Unthinned(r.tree))
  }

  lemma AccountsLeft(t: Tree, c: Outcome, r: Outcome, allow: bool, cfg: Config, q: Point, plus: int)
    requires t.Node? && WF(t) && SideAccounts(PushDown(t).left, c, q, plus)
    requires var v := PushDown(t).(left := c.tree); var f := Finish(v, allow, cfg);
      Ready(v) && r.tree == f.tree && r.removed == c.removed + f.removed
    ensures SideAccounts(t, r, q, plus)
  {
    var v := PushDown(t).(left := c.tree);
    OpenedAt(t, q);
    if Unthinned(t) { PushUnthinned(t); }
    FinishAccounts(v, allow, cfg, q);
    RemovedAt(c.removed, Finish(v, allow, cfg).removed, q);
  }

  lemma AccountsRight(t: Tree, c: Outcome, r: Outcome, allow: bool, cfg: Config, q: Point, plus: int)
    requires t.Node? && WF(t) && SideAccounts(PushDown(t).right, c, q, plus)
    requires var v := PushDown(t).(right := c.tree); var f := Finish(v, allow, cfg);
      Ready(v) && r.tree == f.tree && r.removed == c.removed + f.removed
    ensures SideAccounts(t, r, q, plus)
  {
    var v := PushDown(t).(right := c.tree);
    OpenedAt(t, q);
    if Unthinned(t) { PushUnthinned(t); }
    FinishAccounts(v, allow, cfg, q);
    RemovedAt(c.removed, Finish(v, allow, cfg).removed, q);
  }

  /** Add_by_point: stored plus recorded points grow by exactly the new one. */
  lemma {:induction false} AddAccounts(t: Tree, p: Point, allow: bool, a: Axis, cfg: Config, q: Point)
    requires WF(t)
    ensures SideAccounts(t, AddPoint(t, p, allow, a, cfg), q, Bit(p == q))
    decreases Nodes(t)
  {
    if t.Nil? {
      LeafOk(p, (a + 1) % 3);
    } else {
      var u, r := PushDown(t), AddPoint(t, p, allow, a, cfg);
      Opened(t);
      AddNodeReady(t, p, allow, cfg);
      AddUnfold(t, p, allow, a, cfg);
      if GoesLeft(t, p) {
        AddAccounts(u.left, p, allow, u.axis, cfg, q);
        AccountsLeft(t, AddPoint(u.left, p, allow, u.axis, cfg), r, allow, cfg, q, Bit(p == q));
      } else {
        AddAccounts(u.right, p, allow, u.axis, cfg, q);
        AccountsRight(t, AddPoint(u.right, p, allow, u.axis, cfg), r, allow, cfg, q, Bit(p == q));
      }
    }
  }

  lemma MarkOneStored(u: Tree)
    requires u.Node?
    ensures Stored(MarkOne(u)) == Stored(u) && (Unthinned(u) ==> Unthinned(MarkOne(u)))
  {
  }

  lemma MarkedAccounts(t: Tree, r: Outcome, q: Point)
    requires WF(t) && r.removed == []
    requires r.tree == t || (!Gone(t) && r.tree == MarkOne(PushDown(t)))
    ensures SideAccounts(t, r, q, 0)
  {
    if r.tree != t {
      PushDownOk(t);
      MarkOneStored(PushDown(t));
      assert Stored(r.tree) == Stored(t);
      if Unthinned(t) { PushUnthinned(t); }
    }
  }

  /** Delete_by_point only moves points to the record. */
  lemma {:induction false} DeletePointAccounts(t: Tree, p: Point, allow: bool, cfg: Config, q: Point)
    requires WF(t)
    ensures SideAccounts(t, DeletePoint(t, p, allow, cfg), q, 0)
    decreases Nodes(t)
  {
    var r := DeletePoint(t, p, allow, cfg);
    if Gone(t) || Takes(t, p) {
      DeletePointStops(t, p, allow, cfg);
      MarkedAccounts(t, r, q);
    } else {
      var u := PushDown(t);
      Opened(t);
      DeletePointNodeReady(t, p, allow, cfg);
      DeletePointUnfold(t, p, allow, cfg);
      if GoesLeft(t, p) {
        DeletePointAccounts(u.left, p, allow, cfg, q);
        AccountsLeft(t, DeletePoint(u.left, p, allow, cfg), r, allow, cfg, q, 0);
      } else {
        DeletePointAccounts(u.right, p, allow, cfg, q);
        AccountsRight(t, DeletePoint(u.right, p, allow, cfg), r, allow, cfg, q, 0);
      }
    }
  }

  /** The account of a box delete: exact when nothing is or gets thinned out. */
  ghost predicate BoxAccounts(t: Tree, r: Outcome, downsample: bool, q: Point) {
    && Stored(r.tree)[q] + multiset(r.removed)[q] <= Stored(t)[q]
    && (Unthinned(t) && !downsample ==>
          Unthinned(r.tree) && Stored(r.tree)[q] + multiset(r.removed)[q] == Stored(t)[q])
  }

  lemma AccountsBoth(t: Tree, v: Tree, l: Outcome, r: Outcome, d: Outcome, allow: bool, downsample: bool,
      cfg: Config, q: Point)
    requires t.Node? && WF(t) && v.Node? && Ready(v)
    requires var f := Finish(v, allow, cfg); d.tree == f.tree && d.removed == l.removed + r.removed + f.removed
    requires BoxAccounts(PushDown(t).left, l, downsample, q) && BoxAccounts(PushDown(t).right, r, downsample, q)
    requires v.left == l.tree && v.right == r.tree && v.point == t.point
    requires Unthinned(t) && !downsample ==> !v.pointDown && !v.treeDown
    ensures BoxAccounts(t, d, downsample, q)
  {
    var f := Finish(v, allow, cfg);
    OpenedAt(t, q);
    UnthinnedParts(t);
    assert Unthinned(t) && !downsample ==> Unthinned(v);
    FinishAccounts(v, allow, cfg, q);
    RemovedThree(l.removed, r.removed, f.removed, q);
  }

  lemma RemovedThree(a: seq<Point>, b: seq<Point>, c: seq<Point>, q: Point)
    ensures multiset(a + b + c)[q] == multiset(a)[q] + multiset(b)[q] + multiset(c)[q]
  {
    RemovedAt(a, b, q);
    RemovedAt(a + b, c, q);
  }

  lemma NodeUnthinned(t: Tree, box: Box, allow: bool, downsample: bool, cfg: Config)
    requires t.Node? && WF(t)
    ensures var v := DeleteNode(t, box, allow, downsample, cfg);
      && v.Node? && v.point == t.point && v.axis == t.axis
      && v.left == DeleteRange(PushDown(t).left, box, allow, downsample, cfg).tree
      && v.right == DeleteRange(PushDown(t).right, box, allow, downsample, cfg).tree
      && (Unthinned(t) && !downsample ==> !v.pointDown && !v.treeDown)
  {
  }

  lemma MarkAllStored(u: Tree, downsample: bool)
    requires u.Node?
    ensures Stored(MarkAll(u, downsample)) == Stored(u)
    ensures Unthinned(u) && !downsample ==> Unthinned(MarkAll(u, downsample))
  {
  }

  lemma CoveredAccounts(t: Tree, r: Outcome, downsample: bool, q: Point)
    requires WF(t) && r.removed == []
    requires r.tree == t || (t.Node? && (r.tree == PushDown(t) || r.tree == MarkAll(PushDown(t), downsample)))
    ensures BoxAccounts(t, r, downsample, q)
  {
    if r.tree != t {
      PushDownOk(t);
      MarkAllStored(PushDown(t), downsample);
      assert Stored(r.tree) == Stored(t);
      if Unthinned(t) { PushUnthinned(t); }
    }
  }

  /** A box delete only moves points to the record; nothing is lost unless it thins out. */
  lemma {:induction false} DeleteAccounts(t: Tree, box: Box, allow: bool, downsample: bool, cfg: Config, q: Point)
    requires WF(t)
    ensures BoxAccounts(t, DeleteRange(t, box, allow, downsample, cfg), downsample, q)
    decreases Nodes(t)
  {
    var r := DeleteRange(t, box, allow, downsample, cfg);
    if Splits(t, box) {
      var u, v := PushDown(t), DeleteNode(t, box, allow, downsample, cfg);
      Opened(t);
      DeleteAccounts(u.left, box, allow, downsample, cfg, q);
      DeleteAccounts(u.right, box, allow, downsample, cfg, q);
      DeleteNodeReady(t, box, allow, downsample, cfg);
      DeleteUnfold(t, box, allow, downsample, cfg);
      NodeUnthinned(t, box, allow, downsample, cfg);
      AccountsBoth(t, v, DeleteRange(u.left, box, allow, downsample, cfg),
                   DeleteRange(u.right, box, allow, downsample, cfg), r, allow, downsample, cfg, q);
    } else {
      DeleteStops(t, box, allow, downsample, cfg);
      CoveredAccounts(t, r, downsample, q);
    }
  }

  // ----- the order -----

  lemma JointOrdered(r: seq<Point>, mid: nat, a: Axis, l: Tree, u: Tree)
    requires mid < |r| && Ordered(l) && Ordered(u) && Holds(l, r[..mid]) && Holds(u, r[mid + 1..])
    requires forall i | 0 <= i < mid :: r[i].At(a) <= r[mid].At(a)
    requires forall i | mid < i < |r| :: r[mid].At(a) <= r[i].At(a)
    ensures Ordered(Joint(r[mid], a, l, u))
  {
    forall q | q in Stored(l) ensures q.At(a) <= r[mid].At(a) {
      assert q in r[..mid];
    }
    forall q | q in Stored(u) ensures r[mid].At(a) <= q.At(a) {
      assert q in r[mid + 1..];
    }
  }

  /** BuildTree orders every node along its axis. */
  lemma {:induction false} BuildOrdered(s: seq<Point>, cfg: Config)
    ensures Ordered(BuildTree(s, cfg))
    decreases |s|
  {
    if s != [] {
      var mid := (|s| - 1) / 2;
      var r := Pivoted(s, cfg);
      BuildOrdered(r[..mid], cfg);
      BuildOrdered(r[mid + 1..], cfg);
      BuildOk(r[..mid], cfg);
      BuildOk(r[mid + 1..], cfg);
      JointOrdered(r, mid, LongestAxis(Bounds(s)), BuildTree(r[..mid], cfg), BuildTree(r[mid + 1..], cfg));
    }
  }

  lemma FinishOrdered(v: Tree, allow: bool, cfg: Config)
    requires v.Node? && Ordered(v.left) && Ordered(v.right)
    requires Below(Stored(v.left), v.axis, v.point.At(v.axis))
    requires Above(Stored(v.right), v.axis, v.point.At(v.axis))
    ensures Ordered(Finish(v, allow, cfg).tree)
  {
    BuildOrdered(Flat(Update(v)), cfg);
  }

  lemma OrderedLeft(t: Tree, u: Tree, l: Tree, r: Tree, p: Point, allow: bool, cfg: Config)
    requires t.Node? && u == PushDown(t) && Ordered(t) && Ordered(l) && GoesLeft(t, p)
    requires forall q | q in Stored(l) :: q in Stored(u.left) || q == p
    requires r == Finish(u.(left := l), allow, cfg).tree
    ensures Ordered(r)
  {
    PushOrdered(t);
    assert Below(Stored(l), u.axis, u.point.At(u.axis));
    FinishOrdered(u.(left := l), allow, cfg);
  }

  lemma OrderedRight(t: Tree, u: Tree, c: Tree, r: Tree, p: Point, allow: bool, cfg: Config)
    requires t.Node? && u == PushDown(t) && Ordered(t) && Ordered(c) && !GoesLeft(t, p)
    requires forall q | q in Stored(c) :: q in Stored(u.right) || q == p
    requires r == Finish(u.(right := c), allow, cfg).tree
    ensures Ordered(r)
  {
    PushOrdered(t);
    assert Above(Stored(c), u.axis, u.point.At(u.axis));
    FinishOrdered(u.(right := c), allow, cfg);
  }

  lemma AddStores(t: Tree, p: Point, allow: bool, a: Axis, cfg: Config)
    requires WF(t)
    ensures forall q | q in Stored(AddPoint(t, p, allow, a, cfg).tree) :: q in Stored(t) || q == p
  {
    forall q | q in Stored(AddPoint(t, p, allow, a, cfg).tree) ensures q in Stored(t) || q == p {
      AddAccounts(t, p, allow, a, cfg, q);
    }
  }

  lemma AddOrderedLeft(t: Tree, p: Point, allow: bool, a: Axis, cfg: Config)
    requires t.Node? && WF(t) && Ordered(t) && GoesLeft(t, p)
    requires Ordered(AddPoint(PushDown(t).left, p, allow, t.axis, cfg).tree)
    ensures Ordered(AddPoint(t, p, allow, a, cfg).tree)
  {
    var u := PushDown(t);
    Opened(t);
    AddUnfold(t, p, allow, a, cfg);
    AddStores(u.left, p, allow, t.axis, cfg);
    OrderedLeft(t, u, AddPoint(u.left, p, allow, t.axis, cfg).tree, AddPoint(t, p, allow, a, cfg).tree, p, allow, cfg);
  }

  lemma AddOrderedRight(t: Tree, p: Point, allow: bool, a: Axis, cfg: Config)
    requires t.Node? && WF(t) && Ordered(t) && !GoesLeft(t, p)
    requires Ordered(AddPoint(PushDown(t).right, p, allow, t.axis, cfg).tree)
    ensures Ordered(AddPoint(t, p, allow, a, cfg).tree)
  {
    var u := PushDown(t);
    Opened(t);
    AddUnfold(t, p, allow, a, cfg);
    AddStores(u.right, p, allow, t.axis, cfg);
    OrderedRight(t, u, AddPoint(u.right, p, allow, t.axis, cfg).tree, AddPoint(t, p, allow, a, cfg).tree,
                 p, allow, cfg);
  }

  /** left <= pivot <= right survives Add_by_point. */
  lemma {:induction false} AddOrdered(t: Tree, p: Point, allow: bool, a: Axis, cfg: Config)
    requires WF(t) && Ordered(t)
    ensures Ordered(AddPoint(t, p, allow, a, cfg).tree)
    decreases Nodes(t)
  {
    if t.Node? {
      Opened(t);
      PushOrdered(t);
      if GoesLeft(t, p) {
        AddOrdered(PushDown(t).left, p, allow, t.axis, cfg);
        AddOrderedLeft(t, p, allow, a, cfg);
      } else {
        AddOrdered(PushDown(t).right, p, allow, t.axis, cfg);
        AddOrderedRight(t, p, allow, a, cfg);
      }
    }
  }

  lemma DeleteStores(t: Tree, box: Box, allow: bool, downsample: bool, cfg: Config)
    requires WF(t)
    ensures forall q | q in Stored(DeleteRange(t, box, allow, downsample, cfg).tree) :: q in Stored(t)
  {
    forall q | q in Stored(DeleteRange(t, box, allow, downsample, cfg).tree) ensures q in Stored(t) {
      DeleteAccounts(t, box, allow, downsample, cfg, q);
    }
  }

  lemma OrderedBoth(t: Tree, v: Tree, allow: bool, cfg: Config)
    requires t.Node? && Ordered(t) && v.Node? && v.point == t.point && v.axis == t.axis
    requires Ordered(v.left) && Ordered(v.right)
    requires forall q | q in Stored(v.left) :: q in Stored(PushDown(t).left)
    requires forall q | q in Stored(v.right) :: q in Stored(PushDown(t).right)
    ensures Ordered(Finish(v, allow, cfg).tree)
  {
    PushOrdered(t);
    FinishOrdered(v, allow, cfg);
  }

  /** ... and box deletes ... */
  lemma {:induction false} DeleteOrdered(t: Tree, box: Box, allow: bool, downsample: bool, cfg: Config)
    requires WF(t) && Ordered(t)
    ensures Ordered(DeleteRange(t, box, allow, downsample, cfg).tree)
    decreases Nodes(t)
  {
    if Splits(t, box) {
      var u := PushDown(t);
      PushDownOk(t);
      PushOrdered(t);
      DeleteOrdered(u.left, box, allow, downsample, cfg);
      DeleteOrdered(u.right, box, allow, downsample, cfg);
      DeleteStores(u.left, box, allow, downsample, cfg);
      DeleteStores(u.right, box, allow, downsample, cfg);
      DeleteUnfold(t, box, allow, downsample, cfg);
      NodeUnthinned(t, box, allow, downsample, cfg);
      OrderedBoth(t, DeleteNode(t, box, allow, downsample, cfg), allow, cfg);
    } else {
      DeleteStops(t, box, allow, downsample, cfg);
      if t.Node? { PushOrdered(t); }
    }
  }

  lemma DeletePointStores(t: Tree, p: Point, allow: bool, cfg: Config)
    requires WF(t)
    ensures forall q | q in Stored(DeletePoint(t, p, allow, cfg).tree) :: q in Stored(t)
  {
    forall q | q in Stored(DeletePoint(t, p, allow, cfg).tree) ensures q in Stored(t) {
      DeletePointAccounts(t, p, allow, cfg, q);
    }
  }

  lemma DeletePointOrderedSide(t: Tree, p: Point, allow: bool, cfg: Config)
    requires t.Node? && WF(t) && Ordered(t) && !Gone(t) && !Takes(t, p)
    requires var u := PushDown(t); Ordered(DeletePoint(if GoesLeft(t, p) then u.left else u.right, p, allow, cfg).tree)
    ensures Ordered(DeletePoint(t, p, allow, cfg).tree)
  {
    var u, r := PushDown(t), DeletePoint(t, p, allow, cfg).tree;
    PushDownOk(t);
    DeletePointUnfold(t, p, allow, cfg);
    if GoesLeft(t, p) {
      DeletePointStores(u.left, p, allow, cfg);
      OrderedLeft(t, u, DeletePoint(u.left, p, allow, cfg).tree, r, p, allow, cfg);
    } else {
      DeletePointStores(u.right, p, allow, cfg);
      OrderedRight(t, u, DeletePoint(u.right, p, allow, cfg).tree, r, p, allow, cfg);
    }
  }

  lemma DeletePointOrderedStop(t: Tree, p: Point, allow: bool, cfg: Config)
    requires WF(t) && Ordered(t) && (Gone(t) || Takes(t, p))
    ensures Ordered(DeletePoint(t, p, allow, cfg).tree)
  {
    DeletePointStops(t, p, allow, cfg);
    if t.Node? { PushOrdered(t); }
  }

  /** ... and Delete_by_point. */
  lemma {:induction false} DeletePointOrdered(t: Tree, p: Point, allow: bool, cfg: Config)
    requires WF(t) && Ordered(t)
    ensures Ordered(DeletePoint(t, p, allow, cfg).tree)
    decreases Nodes(t)
  {
    if Gone(t) || Takes(t, p) {
      DeletePointOrderedStop(t, p, allow, cfg);
    } else {
      PushDownOk(t);
      PushOrdered(t);
      if GoesLeft(t, p) {
        DeletePointOrdered(PushDown(t).left, p, allow, cfg);
      } else {
        DeletePointOrdered(PushDown(t).right, p, allow, cfg);
      }
      DeletePointOrderedSide(t, p, allow, cfg);
    }
  }
}
