/** Ranges stay exact under adds and box deletes, and so the tree never empties itself. */
module KdExact {
  import opened Geometry
  import opened KdTree
  import opened KdInvariant
  import opened KdLive
  import opened KdStep
  import B = KdBalance

  /** `r` is the bounding box of the bag: it contains every point, and each side is touched. */
  ghost predicate Tight(r: Box, m: Bag) {
    && (forall q | q in m :: InRange(r, q))
    && (exists q :: q in m && q.x == r.lo.x) && (exists q :: q in m && q.x == r.hi.x)
    && (exists q :: q in m && q.y == r.lo.y) && (exists q :: q in m && q.y == r.hi.y)
    && (exists q :: q in m && q.z == r.lo.z) && (exists q :: q in m && q.z == r.hi.z)
  }

  lemma TightPoint(p: Point)
    ensures Tight(PointBox(p), multiset{p})
  {
    assert p in multiset{p};
  }

  lemma TightHull(a: Box, m: Bag, b: Box, n: Bag)
    requires Tight(a, m) && Tight(b, n)
    ensures Tight(Hull(a, b), m + n)
  {
    var h := Hull(a, b);
    forall q | q in m + n ensures InRange(h, q) {
      assert q in m || q in n;
    }
    Touch(m, n, (q: Point) => q.x == h.lo.x);
    Touch(m, n, (q: Point) => q.x == h.hi.x);
    Touch(m, n, (q: Point) => q.y == h.lo.y);
    Touch(m, n, (q: Point) => q.y == h.hi.y);
    Touch(m, n, (q: Point) => q.z == h.lo.z);
    Touch(m, n, (q: Point) => q.z == h.hi.z);
  }

  lemma Touch(m: Bag, n: Bag, f: Point -> bool)
    requires (exists q :: q in m && f(q)) || (exists q :: q in n && f(q))
    ensures exists q :: q in m + n && f(q)
  {
    var q :| (q in m || q in n) && f(q);
    assert q in m + n;
  }

  ghost predicate TightIf(b: Option<Box>, m: Bag) {
    match b case None => m == multiset{} case Some(r) => Tight(r, m)
  }

  lemma TightJoin(a: Option<Box>, m: Bag, b: Option<Box>, n: Bag)
    requires TightIf(a, m) && TightIf(b, n)
    ensures TightIf(Join(a, b), m + n)
  {
    if a.Some? && b.Some? { TightHull(a.value, m, b.value, n); }
  }

  /** The range of a node that is not deleted is the exact bounding box of its live points. */
  lemma {:induction false} ExactIsTight(t: Tree)
    requires WF(t) && Exact(t) && !Gone(t)
    ensures Tight(t.range, Live(t))
  {
    if !Gone(t.left) { ExactIsTight(t.left); }
    if !Gone(t.right) { ExactIsTight(t.right); }
    TightNode(t);
  }

  function RangeIf(t: Tree): Option<Box> { if Gone(t) then None else Some(t.range) }
  function PointIf(p: Point, gone: bool): Option<Box> { if gone then None else Some(PointBox(p)) }

  lemma TightSon(t: Tree)
    requires WF(t) && (!Gone(t) ==> Tight(t.range, Live(t)))
    ensures TightIf(RangeIf(t), Live(t))
  {
  }

  lemma TightOwn(t: Tree)
    requires t.Node?
    ensures TightIf(PointIf(t.point, t.pointDel), OwnLive(t))
  {
    TightPoint(t.point);
  }

  lemma RangeIsJoin(t: Tree)
    requires WF(t) && !Gone(t)
    ensures Join(Join(RangeIf(t.left), RangeIf(t.right)), PointIf(t.point, t.pointDel))
         == Some(RangeOf(t.point, t.pointDel, false, t.left, t.right))
  {
    LiveCount(t.left);
    LiveCount(t.right);
  }

  lemma TightNode(t: Tree)
    requires WF(t) && !Gone(t) && t.range == RangeOf(t.point, t.pointDel, false, t.left, t.right)
    requires !Gone(t.left) ==> Tight(t.left.range, Live(t.left))
    requires !Gone(t.right) ==> Tight(t.right.range, Live(t.right))
    ensures Tight(t.range, Live(t))
  {
    var lb, rb, pb := RangeIf(t.left), RangeIf(t.right), PointIf(t.point, t.pointDel);
    TightSon(t.left);
    TightSon(t.right);
    TightOwn(t);
    TightJoin(lb, Live(t.left), rb, Live(t.right));
    TightJoin(Join(lb, rb), Live(t.left) + Live(t.right), pb, OwnLive(t));
    RangeIsJoin(t);
    assert Live(t) == Live(t.left) + Live(t.right) + OwnLive(t);
  }

  // ----- exactness is kept -----

  lemma PushLeftExact(t: Tree)
    requires t.Node? && WF(t) && Exact(t)
    ensures Exact(PushLeft(t))
  {
    if t.pushLeft && t.left.Node? { PushIntoOk(t, t.left, t.pushLeft); }
  }

  lemma PushRightExact(t: Tree)
    requires t.Node? && WF(t) && Exact(t)
    ensures Exact(PushRight(t))
  {
    if t.pushRight && t.right.Node? { PushIntoOk(t, t.right, t.pushRight); }
  }

  lemma PushExact(t: Tree)
    requires t.Node? && WF(t) && Exact(t)
    ensures Exact(PushDown(t))
  {
    PushLeftExact(t);
    PushLeftWF(t);
    PushRightExact(PushLeft(t));
  }

  lemma {:induction false} BuildExact(s: seq<Point>, cfg: Config)
    ensures Exact(BuildTree(s, cfg))
    decreases |s|
  {
    if s != [] {
      var mid := (|s| - 1) / 2;
      var r := Pivoted(s, cfg);
      BuildExact(r[..mid], cfg);
      BuildExact(r[mid + 1..], cfg);
    }
  }

  lemma FinishExact(v: Tree, allow: bool, cfg: Config)
    requires v.Node? && Exact(v.left) && Exact(v.right)
    ensures Exact(Finish(v, allow, cfg).tree)
  {
    BuildExact(Flat(Update(v)), cfg);
  }

  lemma AddExactSide(t: Tree, p: Point, allow: bool, a: Axis, cfg: Config)
    requires t.Node? && WF(t) && Exact(t)
    requires var u := PushDown(t);
      Exact(AddPoint(if GoesLeft(t, p) then u.left else u.right, p, allow, t.axis, cfg).tree)
    ensures Exact(AddPoint(t, p, allow, a, cfg).tree)
  {
    PushExact(t);
    AddUnfold(t, p, allow, a, cfg);
    FinishExact(AddNode(t, p, allow, cfg), allow, cfg);
  }

  /** Add_by_point keeps every range exact. */
  lemma {:induction false} AddExact(t: Tree, p: Point, allow: bool, a: Axis, cfg: Config)
    requires WF(t) && Exact(t)
    ensures Exact(AddPoint(t, p, allow, a, cfg).tree)
    decreases Nodes(t)
  {
    if t.Node? {
      PushDownOk(t);
      PushExact(t);
      if GoesLeft(t, p) {
        AddExact(PushDown(t).left, p, allow, t.axis, cfg);
      } else {
        AddExact(PushDown(t).right, p, allow, t.axis, cfg);
      }
      AddExactSide(t, p, allow, a, cfg);
    }
  }

  lemma DeleteExactStop(t: Tree, box: Box, allow: bool, downsample: bool, cfg: Config)
    requires WF(t) && Exact(t) && !Splits(t, box)
    ensures Exact(DeleteRange(t, box, allow, downsample, cfg).tree)
  {
    DeleteStops(t, box, allow, downsample, cfg);
    if t.Node? { PushExact(t); }
  }

  lemma DeleteExactBoth(t: Tree, box: Box, allow: bool, downsample: bool, cfg: Config)
    requires t.Node? && WF(t) && Splits(t, box)
    requires Exact(DeleteRange(PushDown(t).left, box, allow, downsample, cfg).tree)
    requires Exact(DeleteRange(PushDown(t).right, box, allow, downsample, cfg).tree)
    ensures Exact(DeleteRange(t, box, allow, downsample, cfg).tree)
  {
    DeleteUnfold(t, box, allow, downsample, cfg);
    FinishExact(DeleteNode(t, box, allow, downsample, cfg), allow, cfg);
  }

  /** Delete_by_range keeps every range exact. */
  lemma {:induction false} DeleteExact(t: Tree, box: Box, allow: bool, downsample: bool, cfg: Config)
    requires WF(t) && Exact(t)
    ensures Exact(DeleteRange(t, box, allow, downsample, cfg).tree)
    decreases Nodes(t)
  {
    if Splits(t, box) {
      PushDownOk(t);
      PushExact(t);
      DeleteExact(PushDown(t).left, box, allow, downsample, cfg);
      DeleteExact(PushDown(t).right, box, allow, downsample, cfg);
      DeleteExactBoth(t, box, allow, downsample, cfg);
    } else {
      DeleteExactStop(t, box, allow, downsample, cfg);
    }
  }

  // ----- a tree never empties itself -----

  /** With exact ranges, a box holds all live points of a subtree exactly when it covers the
      range: a delete that clears a subtree always takes the full-cover return. */
  lemma CoverIsExact(t: Tree, box: Box)
    requires WF(t) && Exact(t) && !Gone(t)
    ensures Covers(box, t.range) <==> forall q | q in Live(t) :: InBox(box, q)
  {
    ExactIsTight(t);
    if !Covers(box, t.range) {
      var q :| q in Live(t) && !InBox(box, q);
    }
  }

  /** No box delete, and no rebuild inside it, turns an existing subtree into a null pointer. */
  lemma DeleteNeverEmpties(t: Tree, box: Box, allow: bool, downsample: bool, cfg: Config)
    requires WF(t) && Exact(t) && t.Node?
    ensures DeleteRange(t, box, allow, downsample, cfg).tree.Node?
  {
    if Splits(t, box) {
      CoverIsExact(t, box);
      var q :| q in Live(t) && !InBox(box, q);
      DeleteOk(t, box, allow, downsample, cfg);
      assert q in Live(DeleteRange(t, box, allow, downsample, cfg).tree);
    } else {
      DeleteStops(t, box, allow, downsample, cfg);
    }
  }

  // ----- when a box delete does leave a null pointer -----

  /** Criterion_Check at a node without a live point, whose sons have `l` and `r` nodes. */
  predicate ClearedAsks(l: nat, r: nat, cfg: Config) {
    l + r + 1 > MINIMAL_UNBALANCED_TREE_SIZE &&
    var share := ((if l > 0 then l else r) as real) / ((l + r) as real);
    1.0 > cfg.deleteParam || share > cfg.balanceParam || share < 1.0 - cfg.balanceParam
  }

  /** Nodes left of a subtree that a box delete clears: where it splits, a node whose sons keep
      enough nodes to ask for a rebuild, and fewer than 1500, is rebuilt from no point at all. */
  function Cleared(t: Tree, box: Box, allow: bool, cfg: Config): nat
    decreases Nodes(t)
  {
    if !Splits(t, box) then Size(t)
    else
      var u := PushDown(t);
      var l, r := Cleared(u.left, box, allow, cfg), Cleared(u.right, box, allow, cfg);
      if allow && ClearedAsks(l, r, cfg) && l + r + 1 < MULTI_THREAD_REBUILD_POINT_NUM then 0 else l + r + 1
  }

  ghost predicate AllIn(m: Bag, box: Box) { forall q | q in m :: InBox(box, q) }

  lemma NothingOutside(m: Bag, box: Box)
    ensures Select(m, Outside(box)) == multiset{} <==> AllIn(m, box)
  {
    if AllIn(m, box) { SelectNone(m, Outside(box)); }
    if q :| q in m && !InBox(box, q) { assert Select(m, Outside(box))[q] == m[q]; }
  }

  lemma CriterionCleared(u: Tree, cfg: Config)
    requires u.Node? && u.size == 1 + Size(u.left) + Size(u.right) && u.invalid == u.size
    requires u.left.Node? <==> Size(u.left) > 0
    ensures Criterion(u, cfg) <==> ClearedAsks(Size(u.left), Size(u.right), cfg)
  {
    B.SelfShare(u.size);
  }

  lemma RebuildsToNothing(u: Tree, cfg: Config)
    requires u.Node? && WF(u) && Live(u) == multiset{}
    ensures Size(Rebuild(u, cfg).tree) == if u.size < MULTI_THREAD_REBUILD_POINT_NUM then 0 else u.size
  {
    FlatOk(u);
    assert |multiset(Flat(u))| == |Flat(u)|;
  }

  lemma FinishCleared(v: Tree, allow: bool, cfg: Config)
    requires Ready(v) && OwnLive(v) == Live(v.left) == Live(v.right) == multiset{}
    ensures var l, r := Size(v.left), Size(v.right);
      Size(Finish(v, allow, cfg).tree) ==
        if allow && ClearedAsks(l, r, cfg) && l + r + 1 < MULTI_THREAD_REBUILD_POINT_NUM then 0 else l + r + 1
  {
    var u := Update(v);
    UpdateOk(v);
    LiveCount(u);
    CriterionCleared(u, cfg);
    RebuildsToNothing(u, cfg);
  }

  lemma ClearedBoth(t: Tree, box: Box, allow: bool, downsample: bool, cfg: Config)
    requires WF(t) && Splits(t, box) && AllIn(Live(t), box)
    ensures var v := DeleteNode(t, box, allow, downsample, cfg);
      Ready(v) && OwnLive(v) == Live(v.left) == Live(v.right) == multiset{}
  {
    var u := PushDown(t);
    Opened(t);
    DeleteNodeReady(t, box, allow, downsample, cfg);
    MarkIfOk(u, box, downsample);
    DeleteOk(u.left, box, allow, downsample, cfg);
    DeleteOk(u.right, box, allow, downsample, cfg);
    NothingOutside(OwnLive(u), box);
    NothingOutside(Live(u.left), box);
    NothingOutside(Live(u.right), box);
  }

  lemma ClearedSplit(t: Tree, box: Box, allow: bool, downsample: bool, cfg: Config)
    requires WF(t) && Splits(t, box) && AllIn(Live(t), box)
    requires var u := PushDown(t);
      && Size(DeleteRange(u.left, box, allow, downsample, cfg).tree) == Cleared(u.left, box, allow, cfg)
      && Size(DeleteRange(u.right, box, allow, downsample, cfg).tree) == Cleared(u.right, box, allow, cfg)
    ensures Size(DeleteRange(t, box, allow, downsample, cfg).tree) == Cleared(t, box, allow, cfg)
  {
    ClearedBoth(t, box, allow, downsample, cfg);
    DeleteUnfold(t, box, allow, downsample, cfg);
    FinishCleared(DeleteNode(t, box, allow, downsample, cfg), allow, cfg);
  }

  lemma ClearedStop(t: Tree, box: Box, allow: bool, downsample: bool, cfg: Config)
    requires WF(t) && !Splits(t, box)
    ensures Size(DeleteRange(t, box, allow, downsample, cfg).tree) == Size(t)
  {
    DeleteStops(t, box, allow, downsample, cfg);
  }

  lemma ClearedParts(t: Tree, box: Box)
    requires t.Node? && WF(t) && AllIn(Live(t), box)
    ensures var u := PushDown(t); AllIn(Live(u.left), box) && AllIn(Live(u.right), box)
  {
    Opened(t);
  }

  /** A box delete that clears a subtree leaves exactly that many nodes. */
  lemma {:induction false} ClearedSize(t: Tree, box: Box, allow: bool, downsample: bool, cfg: Config)
    requires WF(t) && AllIn(Live(t), box)
    ensures Size(DeleteRange(t, box, allow, downsample, cfg).tree) == Cleared(t, box, allow, cfg)
    decreases Nodes(t)
  {
    if Splits(t, box) {
      PushDownOk(t);
      ClearedParts(t, box);
      ClearedSize(PushDown(t).left, box, allow, downsample, cfg);
      ClearedSize(PushDown(t).right, box, allow, downsample, cfg);
      ClearedSplit(t, box, allow, downsample, cfg);
    } else {
      ClearedStop(t, box, allow, downsample, cfg);
    }
  }

  /** Whatever its ranges: a box delete makes an existing subtree null if and only if the box holds
      all its live points and the rebuilds on the way leave no node. */
  lemma DeleteEmptiesIff(t: Tree, box: Box, allow: bool, downsample: bool, cfg: Config)
    requires WF(t) && t.Node?
    ensures DeleteRange(t, box, allow, downsample, cfg).tree.Nil? <==>
      AllIn(Live(t), box) && Cleared(t, box, allow, cfg) == 0
  {
    DeleteOk(t, box, allow, downsample, cfg);
    NothingOutside(Live(t), box);
    if AllIn(Live(t), box) { ClearedSize(t, box, allow, downsample, cfg); }
  }

  /** A subtree with exact ranges that a box clears is covered, not split. */
  lemma ClearedWhole(t: Tree, box: Box, allow: bool, cfg: Config)
    requires WF(t) && Exact(t) && AllIn(Live(t), box)
    ensures Cleared(t, box, allow, cfg) == Size(t)
  {
    if !Gone(t) { CoverIsExact(t, box); }
  }

  lemma ClearsSplits(t: Tree, box: Box)
    requires t.Node? && WF(t) && !t.treeDel && AllIn(Live(t), box)
    ensures Splits(t, box) <==> !Covers(box, t.range)
  {
    LiveCount(t);
    var q :| q in Live(t);
    Encloses(t);
    assert InBox(box, q) && InRange(t.range, q);
  }

  lemma PushedSons(t: Tree)
    requires t.Node? && WF(t) && !t.treeDel && Exact(t.left) && Exact(t.right)
    ensures var u := PushDown(t); WF(u) && Exact(u.left) && Exact(u.right)
    ensures var u := PushDown(t); Live(u.left) == Live(t.left) && Live(u.right) == Live(t.right)
    ensures var u := PushDown(t); 1 + Size(u.left) + Size(u.right) == t.size
  {
    PushDownOk(t);
    if t.pushLeft && t.left.Node? { PushIntoOk(t, t.left, t.pushLeft); }
    if t.pushRight && t.right.Node? { PushIntoOk(t, t.right, t.pushRight); }
  }

  lemma AsksBySize(l: nat, r: nat, cfg: Config)
    requires cfg.deleteParam < 1.0
    ensures ClearedAsks(l, r, cfg) <==> l + r + 1 > MINIMAL_UNBALANCED_TREE_SIZE
  {
  }

  lemma ClearedNode(t: Tree, box: Box, l: nat, r: nat, cfg: Config)
    requires t.Node? && Splits(t, box)
    requires l == Cleared(PushDown(t).left, box, true, cfg) && r == Cleared(PushDown(t).right, box, true, cfg)
    ensures Cleared(t, box, true, cfg) == 0 <==> ClearedAsks(l, r, cfg) && l + r + 1 < MULTI_THREAD_REBUILD_POINT_NUM
  {
  }

  lemma ClearedSons(t: Tree, box: Box, cfg: Config)
    requires t.Node? && WF(t) && !t.treeDel && Exact(t.left) && Exact(t.right)
    requires Splits(t, box) && AllIn(Live(t), box) && cfg.deleteParam < 1.0
    ensures Cleared(t, box, true, cfg) == 0 <==> 10 < t.size < MULTI_THREAD_REBUILD_POINT_NUM
  {
    var u := PushDown(t);
    PushedSons(t);
    ClearedWhole(u.left, box, true, cfg);
    ClearedWhole(u.right, box, true, cfg);
    ClearedNode(t, box, Size(u.left), Size(u.right), cfg);
    AsksBySize(Size(u.left), Size(u.right), cfg);
  }

  /** A test on the node alone, when only its own range may be too large: a delete of all live points
      makes it null if and only if the box does not cover that range and the size is one rebuilt in place. */
  lemma StaleRootIff(t: Tree, box: Box, downsample: bool, cfg: Config)
    requires t.Node? && WF(t) && !t.treeDel && Exact(t.left) && Exact(t.right)
    requires AllIn(Live(t), box) && cfg.deleteParam < 1.0
    ensures DeleteRange(t, box, true, downsample, cfg).tree.Nil? <==>
      !Covers(box, t.range) && MINIMAL_UNBALANCED_TREE_SIZE < t.size < MULTI_THREAD_REBUILD_POINT_NUM
  {
    DeleteEmptiesIff(t, box, true, downsample, cfg);
    ClearsSplits(t, box);
    if Splits(t, box) { ClearedSons(t, box, cfg); }
  }

  lemma AddNeverEmpties(t: Tree, p: Point, allow: bool, a: Axis, cfg: Config)
    requires WF(t)
    ensures AddPoint(t, p, allow, a, cfg).tree.Node?
  {
    AddOk(t, p, allow, a, cfg);
    assert p in Live(AddPoint(t, p, allow, a, cfg).tree);
  }
}
