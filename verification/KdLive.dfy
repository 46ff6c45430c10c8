/** Lazy deletion refines a bag of points: each operation on the tree is one step on `Live`. */
module KdLive {
  import opened Geometry
  import opened KdTree
  import opened KdInvariant

  // ----- Update -----

  /** What `Update` needs of the node it is called on. */
  ghost predicate Ready(t: Tree) {
    && t.Node? && WF(t.left) && WF(t.right) && (t.pointDown ==> t.pointDel)
    && Settled(t.pushLeft, t.left) && Settled(t.pushRight, t.right)
  }

  ghost function OwnLive(t: Tree): Bag
    requires t.Node?
  {
    if t.pointDel then multiset{} else multiset{t.point}
  }

  lemma RangeEncloses(t: Tree)
    requires t.Node?
    ensures Enclosed(Update(t))
  {
  }

  /** Update restores the invariant of a node from its children. */
  lemma UpdateOk(t: Tree)
    requires Ready(t)
    ensures var u := Update(t);
      && WF(u) && Live(u) == OwnLive(t) + Live(t.left) + Live(t.right)
  {
    RangeEncloses(t);
    LiveCount(t.left);
    LiveCount(t.right);
  }

  // ----- building and flattening -----

  lemma LeafOk(p: Point, a: Axis)
    ensures LiveLeaf(Leaf(p, a)) && WF(Leaf(p, a))
    ensures Live(Leaf(p, a)) == Stored(Leaf(p, a)) == multiset{p}
  {
  }

  /** A tree with nothing deleted that holds exactly the points of `s`. */
  ghost predicate Holds(t: Tree, s: seq<Point>) {
    && WF(t) && Live(t) == Stored(t) == multiset(s) && Size(t) == |s|
    && Unthinned(t) && Invalid(t) == 0 && (t.Nil? <==> s == [])
  }

  lemma SplitBag(s: seq<Point>, r: seq<Point>, mid: nat)
    requires mid < |r| && multiset(r) == multiset(s)
    ensures multiset(s) == multiset{r[mid]} + multiset(r[..mid]) + multiset(r[mid + 1..])
    ensures |s| == 1 + |r[..mid]| + |r[mid + 1..]|
  {
    assert r == r[..mid] + [r[mid]] + r[mid + 1..];
    assert |s| == |multiset(s)| == |r|;
  }

  lemma JointOk(p: Point, a: Axis, l: Tree, r: Tree, ls: seq<Point>, rs: seq<Point>, s: seq<Point>)
    requires Holds(l, ls) && Holds(r, rs)
    requires multiset(s) == multiset{p} + multiset(ls) + multiset(rs) && |s| == 1 + |ls| + |rs|
    ensures Holds(Joint(p, a, l, r), s)
  {
    UpdateOk(Fresh(p, a, l, r));
  }

  /** BuildTree holds exactly the given points, all live. */
  lemma {:induction false} BuildOk(s: seq<Point>, cfg: Config)
    ensures Holds(BuildTree(s, cfg), s)
    decreases |s|
  {
    if s != [] {
      var mid := (|s| - 1) / 2;
      var r := Pivoted(s, cfg);
      BuildOk(r[..mid], cfg);
      BuildOk(r[mid + 1..], cfg);
      SplitBag(s, r, mid);
      JointOk(r[mid], LongestAxis(Bounds(s)), BuildTree(r[..mid], cfg), BuildTree(r[mid + 1..], cfg),
              r[..mid], r[mid + 1..], s);
    }
  }

  /** flatten stores exactly the live points. */
  lemma {:induction false} FlatOk(t: Tree)
    requires WF(t)
    ensures multiset(Flat(t)) == Live(t)
    decreases Nodes(t)
  {
    if t.Node? {
      var u := PushDown(t);
      PushDownOk(t);
      FlatOk(u.left);
      FlatOk(u.right);
      assert Live(u) == OwnLive(u) + Live(u.left) + Live(u.right);
    }
  }

  /** Rebuild changes no live point. */
  lemma RebuildOk(t: Tree, cfg: Config)
    requires t.Node? && WF(t)
    ensures var r := Rebuild(t, cfg).tree; WF(r) && Live(r) == Live(t)
  {
    FlatOk(t);
    BuildOk(Flat(t), cfg);
  }

  lemma FinishOk(t: Tree, allow: bool, cfg: Config)
    requires Ready(t)
    ensures var r := Finish(t, allow, cfg).tree;
      WF(r) && Live(r) == OwnLive(t) + Live(t.left) + Live(t.right)
  {
    UpdateOk(t);
    RebuildOk(Update(t), cfg);
  }

  // ----- adding -----

  /** After Push_Down the live bag splits at the root even when the node is deleted. */
  lemma Opened(t: Tree)
    requires t.Node? && WF(t)
    ensures var u := PushDown(t);
      && Ready(u) && Live(t) == OwnLive(u) + Live(u.left) + Live(u.right)
      && u.point == t.point && u.axis == t.axis
      && (u.pushLeft ==> u.left.Nil?) && (u.pushRight ==> u.right.Nil?)
  {
    PushDownOk(t);
  }

  lemma FinishLeft(u: Tree, l: Tree, p: Point, allow: bool, cfg: Config)
    requires Ready(u) && WF(l) && (u.pushLeft ==> LiveLeaf(l)) && Live(l) == Live(u.left) + multiset{p}
    ensures var r := Finish(u.(left := l), allow, cfg).tree;
      WF(r) && Live(r) == OwnLive(u) + Live(u.left) + Live(u.right) + multiset{p}
  {
    FinishOk(u.(left := l), allow, cfg);
  }

  lemma FinishRight(u: Tree, r: Tree, p: Point, allow: bool, cfg: Config)
    requires Ready(u) && WF(r) && (u.pushRight ==> LiveLeaf(r)) && Live(r) == Live(u.right) + multiset{p}
    ensures var f := Finish(u.(right := r), allow, cfg).tree;
      WF(f) && Live(f) == OwnLive(u) + Live(u.left) + Live(u.right) + multiset{p}
  {
    FinishOk(u.(right := r), allow, cfg);
  }

  ghost predicate Added(t: Tree, r: Tree, p: Point) {
    WF(r) && Live(r) == Live(t) + multiset{p} && (t.Nil? ==> LiveLeaf(r))
  }

  lemma AddLeft(t: Tree, p: Point, allow: bool, a: Axis, cfg: Config)
    requires t.Node? && WF(t) && p.At(t.axis) < t.point.At(t.axis)
    requires var u := PushDown(t); Added(u.left, AddPoint(u.left, p, allow, u.axis, cfg).tree, p)
    ensures Added(t, AddPoint(t, p, allow, a, cfg).tree, p)
  {
    var u := PushDown(t);
    Opened(t);
    FinishLeft(u, AddPoint(u.left, p, allow, u.axis, cfg).tree, p, allow, cfg);
  }

  lemma AddRight(t: Tree, p: Point, allow: bool, a: Axis, cfg: Config)
    requires t.Node? && WF(t) && !(p.At(t.axis) < t.point.At(t.axis))
    requires var u := PushDown(t); Added(u.right, AddPoint(u.right, p, allow, u.axis, cfg).tree, p)
    ensures Added(t, AddPoint(t, p, allow, a, cfg).tree, p)
  {
    var u := PushDown(t);
    Opened(t);
    FinishRight(u, AddPoint(u.right, p, allow, u.axis, cfg).tree, p, allow, cfg);
  }

  /** Add_by_point adds exactly the one point, wherever pushes are pending. */
  lemma {:induction false} AddOk(t: Tree, p: Point, allow: bool, a: Axis, cfg: Config)
    requires WF(t)
    ensures Added(t, AddPoint(t, p, allow, a, cfg).tree, p)
    decreases Nodes(t)
  {
    if t.Nil? {
      LeafOk(p, (a + 1) % 3);
    } else {
      Opened(t);
      if p.At(t.axis) < t.point.At(t.axis) {
        AddOk(PushDown(t).left, p, allow, t.axis, cfg);
        AddLeft(t, p, allow, a, cfg);
      } else {
        AddOk(PushDown(t).right, p, allow, t.axis, cfg);
        AddRight(t, p, allow, a, cfg);
      }
    }
  }

  // ----- deleting a box -----

  ghost predicate Deleted(t: Tree, r: Outcome, box: Box) {
    && WF(r.tree) && Live(r.tree) == Select(Live(t), Outside(box))
    && r.count == |Live(t)| - |Live(r.tree)|
    && (t.Nil? ==> r.tree.Nil?)
  }

  lemma DeleteMiss(t: Tree, box: Box)
    requires t.Node? && WF(t) && !Gone(t) && Misses(box, t.range)
    ensures Deleted(t, Outcome(PushDown(t), 0, []), box)
  {
    PushDownOk(t);
    Encloses(t);
    SelectAll(Live(t), Outside(box));
  }

  lemma MarkAllOk(t: Tree, downsample: bool)
    requires t.Node? && WF(t)
    ensures var r := MarkAll(t, downsample);
      WF(r) && Live(r) == multiset{} && Stored(r) == Stored(t) && Gone(r)
  {
  }

  lemma Swallowed(t: Tree, box: Box)
    requires t.Node? && WF(t) && !Gone(t) && Covers(box, t.range)
    ensures Select(Live(t), Outside(box)) == multiset{}
  {
    Encloses(t);
    SelectNone(Live(t), Outside(box));
  }

  lemma DeleteCover(t: Tree, box: Box, downsample: bool)
    requires t.Node? && WF(t) && !Gone(t) && Covers(box, t.range)
    ensures var u := PushDown(t);
      Deleted(t, Outcome(MarkAll(u, downsample), u.size - u.invalid, []), box)
  {
    var u := PushDown(t);
    PushDownOk(t);
    MarkAllOk(u, downsample);
    LiveCount(u);
    Swallowed(t, box);
  }

  /** The node itself, after its own point has been tested against the box. */
  function MarkIf(u: Tree, box: Box, downsample: bool): Tree
    requires u.Node?
  {
    if !u.pointDel && InBox(box, u.point) then MarkPoint(u, downsample) else u
  }

  lemma MarkIfOk(u: Tree, box: Box, downsample: bool)
    requires Ready(u)
    ensures var v := MarkIf(u, box, downsample);
      && OwnLive(v) == Select(OwnLive(u), Outside(box))
      && v.left == u.left && v.right == u.right && v.pushLeft == u.pushLeft && v.pushRight == u.pushRight
      && (v.pointDown ==> v.pointDel)
      && Bit(!u.pointDel && InBox(box, u.point)) == |OwnLive(u)| - |OwnLive(v)|
  {
  }

  lemma FinishBoth(v: Tree, l: Tree, r: Tree, allow: bool, cfg: Config)
    requires v.Node? && WF(l) && WF(r) && (v.pointDown ==> v.pointDel)
    requires (v.pushLeft ==> l.Nil?) && (v.pushRight ==> r.Nil?)
    ensures var f := Finish(v.(left := l, right := r), allow, cfg).tree;
      WF(f) && Live(f) == OwnLive(v) + Live(l) + Live(r)
  {
    FinishOk(v.(left := l, right := r), allow, cfg);
  }

  lemma SelectThree(o: Bag, l: Bag, r: Bag, keep: Point -> bool)
    ensures Select(o + l + r, keep) == Select(o, keep) + Select(l, keep) + Select(r, keep)
  {
    SelectPlus(o, l, keep);
    SelectPlus(o + l, r, keep);
  }

  lemma DeleteJoin(t: Tree, v: Tree, l: Outcome, r: Outcome, d: Outcome, box: Box, allow: bool, cfg: Config)
    requires t.Node? && WF(t) && v.Node? && (v.pointDown ==> v.pointDel)
    requires (v.pushLeft ==> l.tree.Nil?) && (v.pushRight ==> r.tree.Nil?)
    requires var u := PushDown(t);
      && OwnLive(v) == Select(OwnLive(u), Outside(box))
      && Deleted(u.left, l, box) && Deleted(u.right, r, box)
      && d.tree == Finish(v.(left := l.tree, right := r.tree), allow, cfg).tree
      && d.count == |OwnLive(u)| - |OwnLive(v)| + l.count + r.count
    ensures Deleted(t, d, box)
  {
    var u := PushDown(t);
    Opened(t);
    FinishBoth(v, l.tree, r.tree, allow, cfg);
    SelectThree(OwnLive(u), Live(u.left), Live(u.right), Outside(box));
  }

  lemma DeleteSplit(t: Tree, box: Box, allow: bool, downsample: bool, cfg: Config)
    requires t.Node? && WF(t) && !Gone(t) && !Misses(box, t.range) && !Covers(box, t.range)
    requires var u := PushDown(t);
      && Deleted(u.left, DeleteRange(u.left, box, allow, downsample, cfg), box)
      && Deleted(u.right, DeleteRange(u.right, box, allow, downsample, cfg), box)
    ensures Deleted(t, DeleteRange(t, box, allow, downsample, cfg), box)
  {
    var u := PushDown(t);
    Opened(t);
    MarkIfOk(u, box, downsample);
    DeleteJoin(t, MarkIf(u, box, downsample), DeleteRange(u.left, box, allow, downsample, cfg),
               DeleteRange(u.right, box, allow, downsample, cfg), DeleteRange(t, box, allow, downsample, cfg),
               box, allow, cfg);
  }

  /** Delete_by_range removes exactly the live points of the half-open box and counts them. */
  lemma {:induction false} DeleteOk(t: Tree, box: Box, allow: bool, downsample: bool, cfg: Config)
    requires WF(t)
    ensures Deleted(t, DeleteRange(t, box, allow, downsample, cfg), box)
    decreases Nodes(t)
  {
    if !Gone(t) {
      PushDownOk(t);
      if Misses(box, t.range) {
        DeleteMiss(t, box);
      } else if Covers(box, t.range) {
        DeleteCover(t, box, downsample);
      } else {
        DeleteOk(PushDown(t).left, box, allow, downsample, cfg);
        DeleteOk(PushDown(t).right, box, allow, downsample, cfg);
        DeleteSplit(t, box, allow, downsample, cfg);
      }
    }
  }

  // ----- deleting a point -----

  /** Either nothing changed, or one element within EPSS of `p` is gone. */
  ghost predicate LessOne(before: Bag, after: Bag, count: int, p: Point) {
    if count == 0 then after == before
    else count == 1 && exists q :: q in before && SamePoint(q, p) && after == before - multiset{q}
  }

  lemma LessOnePlus(before: Bag, after: Bag, count: int, p: Point, x: Bag, y: Bag)
    requires LessOne(before, after, count, p)
    ensures LessOne(x + before + y, x + after + y, count, p)
  {
    if count != 0 {
      var q :| q in before && SamePoint(q, p) && after == before - multiset{q};
      assert q in x + before + y && x + after + y == x + before + y - multiset{q};
    }
  }

  lemma LessOneMore(before: Bag, after: Bag, count: int, p: Point, x: Bag)
    requires LessOne(before, after, count, p)
    ensures LessOne(x + before, x + after, count, p)
  {
    if count != 0 {
      var q :| q in before && SamePoint(q, p) && after == before - multiset{q};
      assert q in x + before && x + after == x + before - multiset{q};
    }
  }

  ghost predicate DeletedOne(t: Tree, r: Outcome, p: Point) {
    WF(r.tree) && (t.Nil? ==> r.tree.Nil?) && LessOne(Live(t), Live(r.tree), r.count, p)
  }

  lemma MarkOneOk(u: Tree)
    requires u.Node? && WF(u) && !Gone(u) && !u.pointDel
    requires (u.pushLeft ==> u.left.Nil?) && (u.pushRight ==> u.right.Nil?)
    ensures WF(MarkOne(u)) && Live(MarkOne(u)) == Live(u.left) + Live(u.right) && Stored(MarkOne(u)) == Stored(u)
  {
    LiveCount(u.left);
    LiveCount(u.right);
  }

  lemma LessHere(x: Point, l: Bag, r: Bag, p: Point)
    requires SamePoint(x, p)
    ensures LessOne(multiset{x} + l + r, l + r, 1, p)
  {
    assert x in multiset{x} + l + r && l + r == multiset{x} + l + r - multiset{x};
  }

  lemma DeletePointHere(t: Tree, p: Point, allow: bool, cfg: Config)
    requires t.Node? && WF(t) && !Gone(t) && SamePoint(t.point, p) && !t.pointDel
    ensures DeletedOne(t, DeletePoint(t, p, allow, cfg), p)
  {
    var u := PushDown(t);
    PushDownOk(t);
    MarkOneOk(u);
    LessHere(t.point, Live(u.left), Live(u.right), p);
    assert Live(t) == multiset{t.point} + Live(u.left) + Live(u.right);
  }

  lemma LessOnLeft(t: Tree, l: Outcome, p: Point, allow: bool, cfg: Config)
    requires t.Node? && WF(t) && DeletedOne(PushDown(t).left, l, p)
    ensures DeletedOne(t, Outcome(Finish(PushDown(t).(left := l.tree), allow, cfg).tree, l.count, []), p)
  {
    var u := PushDown(t);
    Opened(t);
    FinishBoth(u, l.tree, u.right, allow, cfg);
    assert u.(left := l.tree, right := u.right) == u.(left := l.tree);
    LessOnePlus(Live(u.left), Live(l.tree), l.count, p, OwnLive(u), Live(u.right));
  }

  lemma LessOnRight(t: Tree, r: Outcome, p: Point, allow: bool, cfg: Config)
    requires t.Node? && WF(t) && DeletedOne(PushDown(t).right, r, p)
    ensures DeletedOne(t, Outcome(Finish(PushDown(t).(right := r.tree), allow, cfg).tree, r.count, []), p)
  {
    var u := PushDown(t);
    Opened(t);
    FinishBoth(u, u.left, r.tree, allow, cfg);
    assert u.(left := u.left, right := r.tree) == u.(right := r.tree);
    LessOneMore(Live(u.right), Live(r.tree), r.count, p, OwnLive(u) + Live(u.left));
  }

  lemma DeletePointLeft(t: Tree, p: Point, allow: bool, cfg: Config)
    requires t.Node? && WF(t) && !Gone(t) && !(SamePoint(t.point, p) && !t.pointDel)
      && p.At(t.axis) < t.point.At(t.axis)
    requires var u := PushDown(t); DeletedOne(u.left, DeletePoint(u.left, p, allow, cfg), p)
    ensures DeletedOne(t, DeletePoint(t, p, allow, cfg), p)
  {
    LessOnLeft(t, DeletePoint(PushDown(t).left, p, allow, cfg), p, allow, cfg);
  }

  lemma DeletePointRight(t: Tree, p: Point, allow: bool, cfg: Config)
    requires t.Node? && WF(t) && !Gone(t) && !(SamePoint(t.point, p) && !t.pointDel)
      && !(p.At(t.axis) < t.point.At(t.axis))
    requires var u := PushDown(t); DeletedOne(u.right, DeletePoint(u.right, p, allow, cfg), p)
    ensures DeletedOne(t, DeletePoint(t, p, allow, cfg), p)
  {
    LessOnRight(t, DeletePoint(PushDown(t).right, p, allow, cfg), p, allow, cfg);
  }

  /** Delete_by_point removes at most one live point, and only one it takes for `p`. */
  lemma {:induction false} DeletePointOk(t: Tree, p: Point, allow: bool, cfg: Config)
    requires WF(t)
    ensures DeletedOne(t, DeletePoint(t, p, allow, cfg), p)
    decreases Nodes(t)
  {
    if !Gone(t) {
      PushDownOk(t);
      if SamePoint(t.point, p) && !t.pointDel {
        DeletePointHere(t, p, allow, cfg);
      } else if p.At(t.axis) < t.point.At(t.axis) {
        DeletePointOk(PushDown(t).left, p, allow, cfg);
        DeletePointLeft(t, p, allow, cfg);
      } else {
        DeletePointOk(PushDown(t).right, p, allow, cfg);
        DeletePointRight(t, p, allow, cfg);
      }
    }
  }
}
