/** The invariant of the tree and the bags of points it stands for. */
module KdInvariant {
  import opened Geometry
  import opened KdTree

  /** The live points: nothing below a deleted mark counts. */
  ghost function Live(t: Tree): Bag {
    if Gone(t) then multiset{}
    else (if t.pointDel then multiset{} else multiset{t.point}) + Live(t.left) + Live(t.right)
  }

  /** All points held by nodes, deleted ones included. */
  ghost function Stored(t: Tree): Bag {
    if t.Nil? then multiset{} else multiset{t.point} + Stored(t.left) + Stored(t.right)
  }

  /** A leaf as `Add_by_point` makes it; only its own push flags may have been set since. */
  predicate LiveLeaf(t: Tree) {
    && t.Node? && t.left.Nil? && t.right.Nil?
    && !t.pointDel && !t.treeDel && !t.pointDown && !t.treeDown && t.invalid == 0 && t.down == 0
  }

  /** A push flag over an existing child either carries a deletion or is a stale flag over a
      leaf that was added after the child was missing. */
  predicate Settled(push: bool, child: Tree) {
    push && child.Node? ==> LiveLeaf(child)
  }

  predicate Counted(t: Tree)
    requires t.Node?
  {
    && t.size == 1 + Size(t.left) + Size(t.right)
    && (t.treeDown ==> t.treeDel && t.pointDown)
    && (t.pointDown ==> t.pointDel)
    && (t.treeDel ==>
          && t.pointDel && t.invalid == t.size
          && (!t.pushLeft ==> Gone(t.left)) && (!t.pushRight ==> Gone(t.right)))
    && (!t.treeDel ==>
          && t.invalid == Invalid(t.left) + Invalid(t.right) + Bit(t.pointDel) && t.invalid < t.size
          && Settled(t.pushLeft, t.left) && Settled(t.pushRight, t.right))
    && (t.treeDown ==>
          && t.down == t.size
          && (!t.pushLeft ==> Thinned(t.left)) && (!t.pushRight ==> Thinned(t.right)))
    && (!t.treeDown ==> t.down == Down(t.left) + Down(t.right) + Bit(t.pointDown) && t.down < t.size)
  }

  /** The range encloses whatever is not deleted. */
  predicate Enclosed(t: Tree)
    requires t.Node?
  {
    !t.treeDel ==>
      && (!t.pointDel ==> InRange(t.range, t.point))
      && (!Gone(t.left) ==> Within(t.left.range, t.range))
      && (!Gone(t.right) ==> Within(t.right.range, t.range))
  }

  ghost predicate WF(t: Tree) {
    t.Node? ==> WF(t.left) && WF(t.right) && Counted(t) && Enclosed(t)
  }

  /** The range is the hull of whatever is not deleted. */
  ghost predicate Exact(t: Tree) {
    t.Node? ==>
      && Exact(t.left) && Exact(t.right)
      && (!t.treeDel ==> t.range == RangeOf(t.point, t.pointDel, false, t.left, t.right))
  }

  ghost predicate Below(m: Bag, a: Axis, v: real) { forall q | q in m :: q.At(a) <= v }
  ghost predicate Above(m: Bag, a: Axis, v: real) { forall q | q in m :: v <= q.At(a) }

  /** left <= pivot <= right along the division axis, deleted points included. */
  ghost predicate Ordered(t: Tree) {
    t.Node? ==>
      && Ordered(t.left) && Ordered(t.right)
      && Below(Stored(t.left), t.axis, t.point.At(t.axis))
      && Above(Stored(t.right), t.axis, t.point.At(t.axis))
  }

  /** Size of the left child against the size of the node. */
  type Share = (nat, nat) -> bool

  /** The left child's part of the other size - 1 points is within [1-b, b]. */
  function ShareWithin(b: real): Share {
    (left: nat, size: nat) => (1.0 - b) * (size as real - 1.0) <= left as real <= b * (size as real - 1.0)
  }

  /** Every node of a size that is rebuilt in place has an acceptable share. */
  ghost predicate Balanced(t: Tree, ok: Share) {
    t.Node? ==>
      && Balanced(t.left, ok) && Balanced(t.right, ok)
      && (MINIMAL_UNBALANCED_TREE_SIZE < t.size < MULTI_THREAD_REBUILD_POINT_NUM ==> ok(Size(t.left), t.size))
  }

  /** No point was ever deleted by downsampling. */
  ghost predicate Unthinned(t: Tree) {
    t.Node? ==> Unthinned(t.left) && Unthinned(t.right) && !t.pointDown && !t.treeDown
  }

  // ----- what the invariant means -----

  /** TreeSize minus invalid_point_num is the number of live points. */
  lemma {:induction false} LiveCount(t: Tree)
    requires WF(t)
    ensures |Live(t)| == Size(t) - Invalid(t)
    ensures Gone(t) <==> Live(t) == multiset{}
  {
    if !Gone(t) {
      LiveCount(t.left);
      LiveCount(t.right);
      assert |Live(t)| == (1 - Bit(t.pointDel)) + |Live(t.left)| + |Live(t.right)|;
    }
  }

  lemma {:induction false} StoredCount(t: Tree)
    requires WF(t)
    ensures |Stored(t)| == Size(t) == Nodes(t) && Live(t) <= Stored(t)
  {
    if t.Node? {
      StoredCount(t.left);
      StoredCount(t.right);
    }
  }

  /** Every live point lies in the range. */
  lemma {:induction false} Encloses(t: Tree)
    requires WF(t) && !Gone(t)
    ensures forall q | q in Live(t) :: InRange(t.range, q)
  {
    if !Gone(t.left) { Encloses(t.left); }
    if !Gone(t.right) { Encloses(t.right); }
  }

  // ----- pushing -----

  lemma PushIntoOk(t: Tree, c: Tree, push: bool)
    requires t.Node? && c.Node? && WF(c) && push
    requires t.treeDown ==> t.treeDel
    requires !t.treeDel ==> LiveLeaf(c)
    ensures var d := PushInto(t.treeDel, t.treeDown, c);
      && WF(d) && Stored(d) == Stored(c) && d.size == c.size && (t.treeDown ==> d.treeDown)
      && d.range == c.range && (!t.treeDown ==> d.down == c.down)
      && (if t.treeDel then d.treeDel else LiveLeaf(d) && Live(d) == Live(c))
  {
  }

  /** What a push keeps. */
  ghost predicate PushKeeps(t: Tree, u: Tree)
    requires t.Node? && u.Node?
  {
    && Live(u) == Live(t) && Stored(u) == Stored(t)
    && Size(u.left) == Size(t.left) && Size(u.right) == Size(t.right)
    && (!t.treeDel ==> Live(u.left) == Live(t.left) && Live(u.right) == Live(t.right))
  }

  lemma PushLeftWF(t: Tree)
    requires t.Node? && WF(t)
    ensures var u := PushLeft(t);
      WF(u) && (u.pushLeft ==> u.left.Nil?) && (u.treeDel ==> Gone(u.left))
  {
    if t.pushLeft && t.left.Node? { PushIntoOk(t, t.left, t.pushLeft); }
  }

  lemma PushRightWF(t: Tree)
    requires t.Node? && WF(t)
    ensures var u := PushRight(t);
      WF(u) && (u.pushRight ==> u.right.Nil?) && (u.treeDel ==> Gone(u.right))
  {
    if t.pushRight && t.right.Node? { PushIntoOk(t, t.right, t.pushRight); }
  }

  lemma PushLeftKeeps(t: Tree)
    requires t.Node? && WF(t)
    ensures PushKeeps(t, PushLeft(t))
  {
    if t.pushLeft && t.left.Node? { PushIntoOk(t, t.left, t.pushLeft); }
  }

  lemma PushRightKeeps(t: Tree)
    requires t.Node? && WF(t)
    ensures PushKeeps(t, PushRight(t))
  {
    if t.pushRight && t.right.Node? { PushIntoOk(t, t.right, t.pushRight); }
  }

  /** Push_Down keeps the invariant, changes no live and no stored point; a flag survives only over a missing child. */
  lemma PushDownOk(t: Tree)
    requires t.Node? && WF(t)
    ensures var u := PushDown(t);
      && WF(u) && PushKeeps(t, u)
      && (u.pushLeft ==> u.left.Nil?) && (u.pushRight ==> u.right.Nil?)
      && (u.treeDel ==> Gone(u.left) && Gone(u.right))
  {
    PushLeftWF(t);
    PushLeftKeeps(t);
    PushRightWF(PushLeft(t));
    PushRightKeeps(PushLeft(t));
  }
}
