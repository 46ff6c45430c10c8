/** The tree in its own form: nodes on the heap, changed in place. Every method is tied to the
    function of the same name on `model`, the value a node and everything below it stands for. */
module KdNode {
  import opened Geometry
  import T = KdTree
  import KdLive
  import KdStep

  /** The scalar fields of a node. */
  datatype Fields = Fields(point: Point, divisionAxis: Axis, treeSize: nat, invalidPointNum: nat, downDelNum: nat,
                           pointDeleted: bool, treeDeleted: bool,
                           pointDownsampleDeleted: bool, treeDownsampleDeleted: bool,
                           needPushDownToLeft: bool, needPushDownToRight: bool,
                           range: Box, radiusSq: real)

  function Assemble(f: Fields, l: T.Tree, r: T.Tree): T.Tree {
    T.Node(f.point, f.divisionAxis, f.treeSize, f.invalidPointNum, f.downDelNum,
           f.pointDeleted, f.treeDeleted, f.pointDownsampleDeleted, f.treeDownsampleDeleted,
           f.needPushDownToLeft, f.needPushDownToRight, f.range, l, r)
  }

  ghost function ModelOf(n: Node?): T.Tree
    reads n
  {
    if n == null then T.Nil else n.model
  }

  ghost function ReprOf(n: Node?): set<object>
    reads n
  {
    if n == null then {} else n.repr
  }

  ghost predicate ValidOf(n: Node?)
    reads n, if n == null then {} else n.repr
  {
    n != null ==> n.Valid()
  }

  /** A value, not a predicate: proofs then unfold it only where they ask for it. */
  datatype Condition = Sound | Broken

  class Node {
    var f: Fields
    var left: Node?
    var right: Node?
    ghost var repr: set<object>
    ghost var model: T.Tree

    ghost function Health(): (h: Condition)
      reads this, repr
      ensures h == Sound ==> this in repr
      decreases repr
    {
      if && this in repr
         && (left != null ==> left in repr && left.repr <= repr && this !in left.repr && left.Health() == Sound)
         && (right != null ==> right in repr && right.repr <= repr && this !in right.repr && right.Health() == Sound)
         && repr == {this} + ReprOf(left) + ReprOf(right) && ReprOf(left) !! ReprOf(right)
         && model == Assemble(f, ModelOf(left), ModelOf(right))
         && f.radiusSq == T.HalfDiagonalSq(f.range)
      then Sound else Broken
    }

    ghost predicate Valid()
      reads this, repr
      ensures Valid() ==> this in repr
    {
      Health() == Sound
    }

    /** The model of a sound node repeats its fields. */
    lemma Fits()
      requires Valid()
      ensures model == Assemble(f, ModelOf(left), ModelOf(right))
    {
    }

    lemma SonsFit()
      requires Valid()
      ensures left != null ==> left.model == Assemble(left.f, ModelOf(left.left), ModelOf(left.right))
      ensures right != null ==> right.model == Assemble(right.f, ModelOf(right.left), ModelOf(right.right))
    {
      if left != null { left.Fits(); }
      if right != null { right.Fits(); }
    }

    /** new, InitTreeNode, and the assignments that follow it. */
    constructor (p: Point, axis: Axis, l: Node?, r: Node?)
      requires ValidOf(l) && ValidOf(r) && ReprOf(l) !! ReprOf(r)
      ensures Valid() && left == l && right == r
      ensures fresh(this)
      ensures model == T.Fresh(p, axis, ModelOf(l), ModelOf(r))
    {
      f := Fields(p, axis, 0, 0, 0, false, false, false, false, false, false,
                  PointBox(p), T.HalfDiagonalSq(PointBox(p)));
      left, right := l, r;
      repr := {this} + ReprOf(l) + ReprOf(r);
      model := T.Fresh(p, axis, ModelOf(l), ModelOf(r));
    }

    /** All writes to the scalar fields of one node. */
    method Set(g: Fields)
      requires Valid() && g.radiusSq == T.HalfDiagonalSq(g.range)
      modifies this`f, this`model
      ensures Valid() && f == g
      ensures model == Assemble(g, ModelOf(left), ModelOf(right))
    {
      f := g;
      model := Assemble(g, ModelOf(left), ModelOf(right));
    }

    /** The part of Push_Down that writes into this child. */
    method TakeMarks(parentDeleted: bool, parentDownsampleDeleted: bool)
      requires Valid()
      modifies this`f, this`model
      ensures Valid() && model == T.PushInto(parentDeleted, parentDownsampleDeleted, old(model))
    {
      var treeDown := f.treeDownsampleDeleted || parentDownsampleDeleted;
      var pointDown := f.pointDownsampleDeleted || parentDownsampleDeleted;
      var treeDel := parentDeleted || treeDown;
      var down := if parentDownsampleDeleted then f.treeSize else f.downDelNum;
      Set(f.(treeDownsampleDeleted := treeDown, pointDownsampleDeleted := pointDown,
             treeDeleted := treeDel, pointDeleted := treeDel || pointDown, downDelNum := down,
             invalidPointNum := if parentDeleted then f.treeSize else down,
             needPushDownToLeft := true, needPushDownToRight := true));
    }

    method PushDownLeft()
      requires Valid()
      modifies this, left
      ensures Valid() && repr == old(repr) && left == old(left) && right == old(right)
      ensures ReprOf(left) == old(ReprOf(left)) && ReprOf(right) == old(ReprOf(right))
      ensures model == T.PushLeft(old(model))
    {
      if f.needPushDownToLeft && left != null {
        left.TakeMarks(f.treeDeleted, f.treeDownsampleDeleted);
        f := f.(needPushDownToLeft := false);
        model := T.PushLeft(model);
      }
    }

    method PushDownRight()
      requires Valid()
      modifies this, right
      ensures Valid() && repr == old(repr) && left == old(left) && right == old(right)
      ensures ReprOf(left) == old(ReprOf(left)) && ReprOf(right) == old(ReprOf(right))
      ensures model == T.PushRight(old(model))
    {
      if f.needPushDownToRight && right != null {
        right.TakeMarks(f.treeDeleted, f.treeDownsampleDeleted);
        f := f.(needPushDownToRight := false);
        model := T.PushRight(model);
      }
    }

    method PushDown()
      requires Valid()
      modifies this, left, right
      ensures Valid() && repr == old(repr) && left == old(left) && right == old(right)
      ensures ReprOf(left) == old(ReprOf(left)) && ReprOf(right) == old(ReprOf(right))
      ensures model == T.PushDown(old(model))
    {
      PushDownLeft();
      PushDownRight();
    }

    /** The range computed by Update, branch by branch. */
    method LiveRange(treeDeleted: bool) returns (box: Box)
      requires Valid()
      requires treeDeleted == (T.Gone(ModelOf(left)) && T.Gone(ModelOf(right)) && f.pointDeleted)
      ensures box == T.RangeOf(f.point, f.pointDeleted, treeDeleted, ModelOf(left), ModelOf(right))
    {
      SonsFit();
      var own := PointBox(f.point);
      var tmp: Option<Box> := None;
      if left != null && right != null {
        if treeDeleted || (!left.f.treeDeleted && !right.f.treeDeleted && !f.pointDeleted) {
          return Hull(Hull(left.f.range, right.f.range), own);
        }
        if !left.f.treeDeleted { tmp := Join(tmp, Some(left.f.range)); }
        if !right.f.treeDeleted { tmp := Join(tmp, Some(right.f.range)); }
        if !f.pointDeleted { tmp := Join(tmp, Some(own)); }
        return tmp.value;
      } else if left != null {
        if treeDeleted || (!left.f.treeDeleted && !f.pointDeleted) {
          return Hull(left.f.range, own);
        }
        if !left.f.treeDeleted { tmp := Join(tmp, Some(left.f.range)); }
        if !f.pointDeleted { tmp := Join(tmp, Some(own)); }
        return tmp.value;
      } else if right != null {
        if treeDeleted || (!right.f.treeDeleted && !f.pointDeleted) {
          return Hull(right.f.range, own);
        }
        if !right.f.treeDeleted { tmp := Join(tmp, Some(right.f.range)); }
        if !f.pointDeleted { tmp := Join(tmp, Some(own)); }
        return tmp.value;
      }
      return own;
    }

    /** The fields that Update is about to store. */
    method Recount() returns (g: Fields)
      requires Valid()
      ensures g.radiusSq == T.HalfDiagonalSq(g.range)
      ensures Assemble(g, ModelOf(left), ModelOf(right)) == T.Update(model)
    {
      SonsFit();
      var size, invalid, down := 1, T.Bit(f.pointDeleted), T.Bit(f.pointDownsampleDeleted);
      var treeDown, treeDel := f.pointDownsampleDeleted, f.pointDeleted;
      if left != null {
        size := left.f.treeSize + size;
        invalid := left.f.invalidPointNum + invalid;
        down := left.f.downDelNum + down;
        treeDown := left.f.treeDownsampleDeleted && treeDown;
        treeDel := left.f.treeDeleted && treeDel;
      }
      if right != null {
        size := right.f.treeSize + size;
        invalid := right.f.invalidPointNum + invalid;
        down := right.f.downDelNum + down;
        treeDown := right.f.treeDownsampleDeleted && treeDown;
        treeDel := right.f.treeDeleted && treeDel;
      }
      var box := LiveRange(treeDel);
      g := f.(treeSize := size, invalidPointNum := invalid, downDelNum := down,
              treeDownsampleDeleted := treeDown, treeDeleted := treeDel,
              range := box, radiusSq := T.HalfDiagonalSq(box));
    }

    method Update()
      requires Valid()
      modifies this`f, this`model
      ensures Valid() && model == T.Update(old(model))
    {
      var g := Recount();
      Set(g);
    }

    /** A node over two sound sons that do not share a node is sound. */
    lemma Whole()
      requires ValidOf(left) && ValidOf(right) && f.radiusSq == T.HalfDiagonalSq(f.range)
      requires this !in ReprOf(left) && this !in ReprOf(right) && ReprOf(left) !! ReprOf(right)
      requires model == Assemble(f, ModelOf(left), ModelOf(right))
      requires repr == {this} + ReprOf(left) + ReprOf(right)
      ensures Valid()
    {
    }

    /** Store a new left son. */
    method SetLeft(l: Node?)
      requires ValidOf(l) && ValidOf(right) && f.radiusSq == T.HalfDiagonalSq(f.range)
      requires this !in ReprOf(l) && this !in ReprOf(right) && ReprOf(l) !! ReprOf(right)
      requires model.Node? && model == Assemble(f, model.left, ModelOf(right))
      modifies this`left, this`repr, this`model
      ensures Valid() && left == l && repr == {this} + ReprOf(l) + ReprOf(right)
      ensures model == old(model).(left := ModelOf(l))
    {
      repr, model := {this} + ReprOf(l) + ReprOf(right), Assemble(f, ModelOf(l), ModelOf(right));
      left := l;
      Whole();
    }

    /** Both sons have changed in place. */
    ghost method Reassemble()
      requires ValidOf(left) && ValidOf(right) && f.radiusSq == T.HalfDiagonalSq(f.range)
      requires this !in ReprOf(left) && this !in ReprOf(right) && ReprOf(left) !! ReprOf(right)
      requires model.Node? && model == Assemble(f, model.left, model.right)
      requires repr == {this} + ReprOf(left) + ReprOf(right)
      modifies this`model
      ensures Valid() && model == old(model).(left := ModelOf(left), right := ModelOf(right))
    {
      model := Assemble(f, ModelOf(left), ModelOf(right));
    }

    /** Store a new right son. */
    method SetRight(r: Node?)
      requires ValidOf(left) && ValidOf(r) && f.radiusSq == T.HalfDiagonalSq(f.range)
      requires this !in ReprOf(left) && this !in ReprOf(r) && ReprOf(left) !! ReprOf(r)
      requires model.Node? && model == Assemble(f, ModelOf(left), model.right)
      modifies this`right, this`repr, this`model
      ensures Valid() && right == r && repr == {this} + ReprOf(left) + ReprOf(r)
      ensures model == old(model).(right := ModelOf(r))
    {
      repr, model := {this} + ReprOf(left) + ReprOf(r), Assemble(f, ModelOf(left), ModelOf(r));
      right := r;
      Whole();
    }

    method CriterionCheck(cfg: T.Config) returns (b: bool)
      requires Valid() && model.size == 1 + T.Size(model.left) + T.Size(model.right)
      ensures b == T.Criterion(model, cfg)
    {
      SonsFit();
      if f.treeSize <= T.MINIMAL_UNBALANCED_TREE_SIZE {
        return false;
      }
      var son := left;
      if son == null { son := right; }
      var deleteEvaluation := (f.invalidPointNum as real) / (f.treeSize as real);
      var balanceEvaluation := (son.f.treeSize as real) / ((f.treeSize - 1) as real);
      if deleteEvaluation > cfg.deleteParam {
        return true;
      }
      if balanceEvaluation > cfg.balanceParam || balanceEvaluation < 1.0 - cfg.balanceParam {
        return true;
      }
      return false;
    }

    method Mark(pointDown: bool)
      requires Valid()
      modifies this`f, this`model
      ensures Valid() && model == T.MarkPoint(old(model), pointDown)
    {
      Set(f.(pointDeleted := true, pointDownsampleDeleted := f.pointDownsampleDeleted || pointDown));
    }

    method MarkAll(downsample: bool)
      requires Valid()
      modifies this`f, this`model
      ensures Valid() && model == T.MarkAll(old(model), downsample)
    {
      Set(f.(treeDeleted := true, pointDeleted := true, needPushDownToLeft := true, needPushDownToRight := true,
             invalidPointNum := f.treeSize));
      if downsample {
        Set(f.(treeDownsampleDeleted := true, pointDownsampleDeleted := true, downDelNum := f.treeSize));
      }
    }

    method MarkOne()
      requires Valid()
      modifies this`f, this`model
      ensures Valid() && model == T.MarkOne(old(model))
    {
      Set(f.(pointDeleted := true, invalidPointNum := f.invalidPointNum + 1));
      if f.invalidPointNum == f.treeSize {
        Set(f.(treeDeleted := true));
      }
    }
  }

  // ----- recursive operations on a node pointer -----

  lemma Regroup(s: seq<Point>, a: seq<Point>, b: seq<Point>, c: seq<Point>)
    ensures s + a + b + c == s + (a + b + c)
  {
  }

  /** Appends the live points to `storage`; the deleted points it meets, unless thinned out, are
      handed back for `Points_deleted` or `Multithread_Points_deleted`. */
  method Flatten(root: Node?, storage: seq<Point>) returns (out: seq<Point>, buried: seq<Point>)
    requires ValidOf(root)
    modifies ReprOf(root)
    ensures ValidOf(root) && ReprOf(root) == old(ReprOf(root))
    ensures ModelOf(root) == T.PushAll(old(ModelOf(root)))
    ensures out == storage + T.Flat(old(ModelOf(root))) && buried == T.Buried(old(ModelOf(root)))
    decreases ReprOf(root), 1
  {
    if root == null {
      return storage, [];
    }
    root.PushDown();
    ghost var u := root.model;
    var own, last := [], [];
    if !root.f.pointDeleted { own := [root.f.point]; }
    if root.f.pointDeleted && !root.f.pointDownsampleDeleted { last := [root.f.point]; }
    out, buried := FlattenSons(root, storage + own);
    Regroup(storage, own, T.Flat(u.left), T.Flat(u.right));
    buried := buried + last;
  }

  method FlattenSons(root: Node, storage: seq<Point>) returns (out: seq<Point>, buried: seq<Point>)
    requires root.Valid()
    modifies root.repr
    ensures root.Valid() && root.repr == old(root.repr)
    ensures var u := old(root.model);
      && root.model == u.(left := T.PushAll(u.left), right := T.PushAll(u.right))
      && out == storage + T.Flat(u.left) + T.Flat(u.right)
      && buried == T.Buried(u.left) + T.Buried(u.right)
    decreases root.repr, 0
  {
    var l, r;
    out, l := Flatten(root.left, storage);
    out, r := Flatten(root.right, out);
    root.Reassemble();
    buried := l + r;
  }

  /** One son is replaced, its sibling stays as it is. */
  method AddBeside(son: Node?, ghost other: Node?, p: Point, allow: bool, fatherAxis: Axis, cfg: T.Config)
    returns (r: Node?, removed: seq<Point>)
    requires ValidOf(son) && ValidOf(other) && ReprOf(son) !! ReprOf(other)
    modifies ReprOf(son)
    ensures ValidOf(r) && fresh(ReprOf(r) - old(ReprOf(son))) && ReprOf(r) !! ReprOf(other)
    ensures ValidOf(other) && ReprOf(other) == old(ReprOf(other)) && ModelOf(other) == old(ModelOf(other))
    ensures T.Outcome(ModelOf(r), 0, removed) == T.AddPoint(old(ModelOf(son)), p, allow, fatherAxis, cfg)
    decreases ReprOf(son), 3
  {
    r, removed := AddByPoint(son, p, allow, fatherAxis, cfg);
  }

  method AddToLeft(root: Node, p: Point, allow: bool, cfg: T.Config) returns (removed: seq<Point>)
    requires root.Valid()
    modifies root.repr
    ensures root.Valid() && fresh(root.repr - old(root.repr))
    ensures var r := T.AddPoint(old(root.model.left), p, allow, old(root.model.axis), cfg);
      root.model == old(root.model).(left := r.tree) && removed == r.removed
    decreases root.repr, 0
  {
    var l;
    l, removed := AddBeside(root.left, root.right, p, allow, root.f.divisionAxis, cfg);
    root.SetLeft(l);
  }

  method AddToRight(root: Node, p: Point, allow: bool, cfg: T.Config) returns (removed: seq<Point>)
    requires root.Valid()
    modifies root.repr
    ensures root.Valid() && fresh(root.repr - old(root.repr))
    ensures var r := T.AddPoint(old(root.model.right), p, allow, old(root.model.axis), cfg);
      root.model == old(root.model).(right := r.tree) && removed == r.removed
    decreases root.repr, 0
  {
    var r;
    r, removed := AddBeside(root.right, root.left, p, allow, root.f.divisionAxis, cfg);
    root.SetRight(r);
  }

  /** Push_Down, then the side the division axis points to. */
  method AddBelow(root: Node, p: Point, allow: bool, cfg: T.Config) returns (removed: seq<Point>)
    requires root.Valid()
    modifies root.repr
    ensures root.Valid() && fresh(root.repr - old(root.repr))
    ensures root.model == KdStep.AddNode(old(root.model), p, allow, cfg)
    ensures removed == KdStep.AddRemoved(old(root.model), p, allow, cfg)
    decreases root.repr, 1
  {
    root.PushDown();
    if p.At(root.f.divisionAxis) < root.f.point.At(root.f.divisionAxis) {
      removed := AddToLeft(root, p, allow, cfg);
    } else {
      removed := AddToRight(root, p, allow, cfg);
    }
  }

  method AddByPoint(root: Node?, p: Point, allow: bool, fatherAxis: Axis, cfg: T.Config)
    returns (r: Node?, removed: seq<Point>)
    requires ValidOf(root)
    modifies ReprOf(root)
    ensures ValidOf(r) && fresh(ReprOf(r) - old(ReprOf(root)))
    ensures T.Outcome(ModelOf(r), 0, removed) == T.AddPoint(old(ModelOf(root)), p, allow, fatherAxis, cfg)
    decreases ReprOf(root), 2
  {
    if root == null {
      var n := new Node(p, (fatherAxis + 1) % 3, null, null);
      n.Update();
      return n, [];
    }
    KdStep.AddUnfold(root.model, p, allow, fatherAxis, cfg);
    removed := AddBelow(root, p, allow, cfg);
    var own;
    r, own := Finish(root, allow, cfg);
    removed := removed + own;
  }

  /** The common tail of the updates: Update, Criterion_Check, Rebuild. */
  method Finish(root: Node, allow: bool, cfg: T.Config) returns (r: Node?, removed: seq<Point>)
    requires root.Valid()
    modifies root.repr
    ensures ValidOf(r) && fresh(ReprOf(r) - old(root.repr))
    ensures T.Outcome(ModelOf(r), 0, removed) == T.Finish(old(root.model), allow, cfg)
  {
    root.Update();
    var need := root.CriterionCheck(cfg);
    if allow && need {
      r, removed := Rebuild(root, cfg);
    } else {
      r, removed := root, [];
    }
  }

  method Rebuild(root: Node, cfg: T.Config) returns (r: Node?, removed: seq<Point>)
    requires root.Valid()
    modifies root.repr
    ensures ValidOf(r) && fresh(ReprOf(r) - old(root.repr))
    ensures T.Outcome(ModelOf(r), 0, removed) == T.Rebuild(old(root.model), cfg)
  {
    if root.f.treeSize >= T.MULTI_THREAD_REBUILD_POINT_NUM {
      return root, [];  // left to the rebuild thread
    }
    var storage;
    storage, removed := Flatten(root, []);
    var a := new Point[|storage|](i requires 0 <= i < |storage| => storage[i]);
    assert a[..][0..a.Length] == storage;
    r := BuildTree(a, 0, a.Length, cfg, storage);
  }

  /** Outside [l, r) the contents are the same. */
  ghost predicate Elsewhere(before: seq<Point>, after: seq<Point>, l: nat, r: nat) {
    |before| == |after| && forall i | 0 <= i < |after| && !(l <= i < r) :: after[i] == before[i]
  }

  lemma ElsewhereTwice(s: seq<Point>, t: seq<Point>, u: seq<Point>, l: nat, r: nat)
    requires Elsewhere(s, t, l, r) && Elsewhere(t, u, l, r)
    ensures Elsewhere(s, u, l, r)
  {
  }

  /** std::nth_element on a[l..r], by its contract. */
  method NthElement(a: array<Point>, l: nat, mid: nat, r: nat, axis: Axis, cfg: T.Config)
    requires l <= mid < r <= a.Length
    modifies a
    ensures a[..][l..r] == cfg.select(old(a[..])[l..r], mid - l, axis)
    ensures Elsewhere(old(a[..]), a[..], l, r)
  {
    ghost var before := a[..];
    var s := cfg.select(a[..][l..r], mid - l, axis);
    assert T.Selected(before[l..r], s, mid - l, axis);
    for i := l to r
      invariant Elsewhere(before, a[..], l, r)
      invariant forall j | l <= j < i :: a[j] == s[j - l]
    {
      a[i] := s[i - l];
    }
  }

  method BoundsOf(a: array<Point>, l: nat, r: nat) returns (box: Box)
    requires l < r <= a.Length
    ensures box == T.Bounds(a[..][l..r])
  {
    box := PointBox(a[l]);
    for i := l + 1 to r
      invariant box == T.Bounds(a[l..i])
    {
      assert a[l..i + 1][..i - l] == a[l..i];
      box := Hull(box, PointBox(a[i]));
    }
    assert a[..][l..r] == a[l..r];
  }

  lemma Halves(s: seq<Point>, l: nat, mid: nat, r: nat)
    requires l <= mid < r <= |s|
    ensures s[l..r][..mid - l] == s[l..mid] && s[l..r][mid - l] == s[mid]
    ensures s[l..r][mid - l + 1..] == s[mid + 1..r]
  {
  }

  lemma BuildUnfold(s: seq<Point>, p: seq<Point>, m: nat, axis: Axis, cfg: T.Config)
    requires s != [] && p == T.Pivoted(s, cfg) && m == (|s| - 1) / 2 && axis == T.LongestAxis(T.Bounds(s))
    ensures T.BuildTree(s, cfg) == T.Joint(p[m], axis, T.BuildTree(p[..m], cfg), T.BuildTree(p[m + 1..], cfg))
  {
  }

  /** Puts the median of the longest axis of a[l..r] in its place. */
  method Pivot(a: array<Point>, l: nat, r: nat, cfg: T.Config, ghost s: seq<Point>)
    returns (mid: nat, axis: Axis, ghost ls: seq<Point>, ghost rs: seq<Point>)
    requires l < r <= a.Length && a[..][l..r] == s
    modifies a
    ensures l <= mid < r && Elsewhere(old(a[..]), a[..], l, r)
    ensures a[..][l..mid] == ls && a[..][mid + 1..r] == rs
    ensures T.BuildTree(s, cfg) == T.Joint(a[mid], axis, T.BuildTree(ls, cfg), T.BuildTree(rs, cfg))
  {
    mid := l + (r - 1 - l) / 2;
    var box := BoundsOf(a, l, r);
    axis := T.LongestAxis(box);
    NthElement(a, l, mid, r, axis, cfg);
    Halves(a[..], l, mid, r);
    ghost var p, m := a[..][l..r], mid - l;
    assert |s| == r - l;
    ls, rs := p[..m], p[m + 1..];
    BuildUnfold(s, p, m, axis, cfg);
  }

  /** Builds the subtree of the points `s` in a[l..r], reordering that part of the array only. */
  method BuildTree(a: array<Point>, l: nat, r: nat, cfg: T.Config, ghost s: seq<Point>) returns (root: Node?)
    requires l <= r <= a.Length && a[..][l..r] == s
    modifies a
    ensures ValidOf(root) && fresh(ReprOf(root)) && ModelOf(root) == T.BuildTree(s, cfg)
    ensures Elsewhere(old(a[..]), a[..], l, r)
    decreases r - l, 2
  {
    if l == r {
      return null;
    }
    var mid, axis, ls, rs := Pivot(a, l, r, cfg, s);
    ghost var before := a[..];
    root := BuildNode(a, l, mid, r, axis, cfg, ls, rs);
    ElsewhereTwice(old(a[..]), before, a[..], l, r);
  }

  method BuildNode(a: array<Point>, l: nat, mid: nat, r: nat, axis: Axis, cfg: T.Config,
                   ghost ls: seq<Point>, ghost rs: seq<Point>) returns (root: Node)
    requires l <= mid < r <= a.Length && a[..][l..mid] == ls && a[..][mid + 1..r] == rs
    modifies a
    ensures root.Valid() && fresh(root.repr)
    ensures root.model == T.Joint(old(a[mid]), axis, T.BuildTree(ls, cfg), T.BuildTree(rs, cfg))
    ensures Elsewhere(old(a[..]), a[..], l, r)
    decreases r - l, 1
  {
    var pivot := a[mid];
    var left, right := BuildSons(a, l, mid, r, cfg, ls, rs);
    root := NewJoint(pivot, axis, left, right);
  }

  method BuildSons(a: array<Point>, l: nat, mid: nat, r: nat, cfg: T.Config, ghost ls: seq<Point>, ghost rs: seq<Point>)
    returns (left: Node?, right: Node?)
    requires l <= mid < r <= a.Length && a[..][l..mid] == ls && a[..][mid + 1..r] == rs
    modifies a
    ensures ValidOf(left) && fresh(ReprOf(left)) && ModelOf(left) == T.BuildTree(ls, cfg)
    ensures ValidOf(right) && fresh(ReprOf(right)) && ModelOf(right) == T.BuildTree(rs, cfg)
    ensures ReprOf(left) !! ReprOf(right)
    ensures Elsewhere(old(a[..]), a[..], l, r)
    decreases r - l, 0
  {
    ghost var before := a[..];
    left := BuildTree(a, l, mid, cfg, ls);
    SliceKept(before, a[..], mid + 1, r);
    right := BuildTree(a, mid + 1, r, cfg, rs);
  }

  lemma SliceKept(s: seq<Point>, t: seq<Point>, lo: nat, hi: nat)
    requires lo <= hi <= |s| == |t| && forall i | lo <= i < hi :: s[i] == t[i]
    ensures s[lo..hi] == t[lo..hi]
  {
  }

  method NewJoint(p: Point, axis: Axis, l: Node?, r: Node?) returns (n: Node)
    requires ValidOf(l) && ValidOf(r) && ReprOf(l) !! ReprOf(r)
    ensures n.Valid() && fresh(n) && n.repr == {n} + ReprOf(l) + ReprOf(r)
    ensures n.model == T.Joint(p, axis, ModelOf(l), ModelOf(r))
  {
    n := new Node(p, axis, l, r);
    n.Update();
  }

  // ----- deleting -----

  /** One son is replaced, its sibling stays as it is. */
  method DeleteBeside(son: Node?, ghost other: Node?, box: Box, allow: bool, downsample: bool, cfg: T.Config)
    returns (r: Node?, count: int, removed: seq<Point>)
    requires ValidOf(son) && ValidOf(other) && ReprOf(son) !! ReprOf(other)
    modifies ReprOf(son)
    ensures ValidOf(r) && fresh(ReprOf(r) - old(ReprOf(son))) && ReprOf(r) !! ReprOf(other)
    ensures ValidOf(other) && ReprOf(other) == old(ReprOf(other)) && ModelOf(other) == old(ModelOf(other))
    ensures T.Outcome(ModelOf(r), count, removed) == T.DeleteRange(old(ModelOf(son)), box, allow, downsample, cfg)
    decreases ReprOf(son), 3
  {
    r, count, removed := DeleteByRange(son, box, allow, downsample, cfg);
  }

  method DeleteInLeftSon(root: Node, box: Box, allow: bool, downsample: bool, cfg: T.Config)
    returns (count: int, removed: seq<Point>)
    requires root.Valid()
    modifies root.repr
    ensures root.Valid() && fresh(root.repr - old(root.repr)) && ReprOf(root.right) == old(ReprOf(root.right))
    ensures var l := T.DeleteRange(old(root.model.left), box, allow, downsample, cfg);
      root.model == old(root.model).(left := l.tree) && count == l.count && removed == l.removed
    decreases root.repr, 0
  {
    var l;
    l, count, removed := DeleteBeside(root.left, root.right, box, allow, downsample, cfg);
    root.SetLeft(l);
  }

  method DeleteInRightSon(root: Node, box: Box, allow: bool, downsample: bool, cfg: T.Config, ghost rank: set<object>)
    returns (count: int, removed: seq<Point>)
    requires root.Valid() && ReprOf(root.right) < rank
    modifies root.repr
    ensures root.Valid() && fresh(root.repr - old(root.repr))
    ensures var r := T.DeleteRange(old(root.model.right), box, allow, downsample, cfg);
      root.model == old(root.model).(right := r.tree) && count == r.count && removed == r.removed
    decreases rank, 0
  {
    var r;
    r, count, removed := DeleteBeside(root.right, root.left, box, allow, downsample, cfg);
    root.SetRight(r);
  }

  method MarkIfHit(root: Node, box: Box, downsample: bool) returns (hit: int)
    requires root.Valid()
    modifies root`f, root`model
    ensures root.Valid() && root.model == KdLive.MarkIf(old(root.model), box, downsample)
    ensures hit == T.Bit(!old(root.model.pointDel) && InBox(box, old(root.model.point)))
  {
    hit := 0;
    if !root.f.pointDeleted && InBox(box, root.f.point) {
      root.Mark(downsample);
      hit := 1;
    }
  }

  method DeleteInSons(root: Node, box: Box, allow: bool, downsample: bool, cfg: T.Config)
    returns (count: int, removed: seq<Point>)
    requires root.Valid()
    modifies root.repr
    ensures root.Valid() && fresh(root.repr - old(root.repr))
    ensures var u := old(root.model);
      var l := T.DeleteRange(u.left, box, allow, downsample, cfg);
      var r := T.DeleteRange(u.right, box, allow, downsample, cfg);
      && root.model == u.(left := l.tree, right := r.tree)
      && count == l.count + r.count && removed == l.removed + r.removed
    decreases root.repr, 1
  {
    ghost var rank := root.repr;
    var lc, lr := DeleteInLeftSon(root, box, allow, downsample, cfg);
    var rc, rr := DeleteInRightSon(root, box, allow, downsample, cfg, rank);
    count, removed := lc + rc, lr + rr;
  }

  method DeleteByRange(root: Node?, box: Box, allow: bool, downsample: bool, cfg: T.Config)
    returns (r: Node?, count: int, removed: seq<Point>)
    requires ValidOf(root)
    modifies ReprOf(root)
    ensures ValidOf(r) && fresh(ReprOf(r) - old(ReprOf(root)))
    ensures T.Outcome(ModelOf(r), count, removed) == T.DeleteRange(old(ModelOf(root)), box, allow, downsample, cfg)
    decreases ReprOf(root), 2
  {
    if root == null || root.f.treeDeleted {
      return root, 0, [];
    }
    ghost var t := root.model;
    root.PushDown();
    if Misses(box, root.f.range) {
      return root, 0, [];
    }
    if Covers(box, root.f.range) {
      count := root.f.treeSize - root.f.invalidPointNum;
      root.MarkAll(downsample);
      return root, count, [];
    }
    var own;
    var hit := MarkIfHit(root, box, downsample);
    count, removed := DeleteInSons(root, box, allow, downsample, cfg);
    KdStep.DeleteUnfold(t, box, allow, downsample, cfg);
    r, own := Finish(root, allow, cfg);
    count, removed := hit + count, removed + own;
  }

  /** One son is replaced, its sibling stays as it is. */
  method DeletePointBeside(son: Node?, ghost other: Node?, p: Point, allow: bool, cfg: T.Config)
    returns (r: Node?, ghost count: int, removed: seq<Point>)
    requires ValidOf(son) && ValidOf(other) && ReprOf(son) !! ReprOf(other)
    modifies ReprOf(son)
    ensures ValidOf(r) && fresh(ReprOf(r) - old(ReprOf(son))) && ReprOf(r) !! ReprOf(other)
    ensures ValidOf(other) && ReprOf(other) == old(ReprOf(other)) && ModelOf(other) == old(ModelOf(other))
    ensures T.Outcome(ModelOf(r), count, removed) == T.DeletePoint(old(ModelOf(son)), p, allow, cfg)
    decreases ReprOf(son), 2
  {
    r, count, removed := DeleteByPoint(son, p, allow, cfg);
  }

  method DeleteInLeft(root: Node, p: Point, allow: bool, cfg: T.Config) returns (ghost count: int, removed: seq<Point>)
    requires root.Valid()
    modifies root.repr
    ensures root.Valid() && fresh(root.repr - old(root.repr))
    ensures var c := T.DeletePoint(old(root.model.left), p, allow, cfg);
      root.model == old(root.model).(left := c.tree) && removed == c.removed && count == c.count
    decreases root.repr, 0
  {
    var l;
    l, count, removed := DeletePointBeside(root.left, root.right, p, allow, cfg);
    root.SetLeft(l);
  }

  method DeleteInRight(root: Node, p: Point, allow: bool, cfg: T.Config) returns (ghost count: int, removed: seq<Point>)
    requires root.Valid()
    modifies root.repr
    ensures root.Valid() && fresh(root.repr - old(root.repr))
    ensures var c := T.DeletePoint(old(root.model.right), p, allow, cfg);
      root.model == old(root.model).(right := c.tree) && removed == c.removed && count == c.count
    decreases root.repr, 0
  {
    var r;
    r, count, removed := DeletePointBeside(root.right, root.left, p, allow, cfg);
    root.SetRight(r);
  }

  method DeleteByPoint(root: Node?, p: Point, allow: bool, cfg: T.Config)
    returns (r: Node?, ghost count: int, removed: seq<Point>)
    requires ValidOf(root)
    modifies ReprOf(root)
    ensures ValidOf(r) && fresh(ReprOf(r) - old(ReprOf(root)))
    ensures T.Outcome(ModelOf(r), count, removed) == T.DeletePoint(old(ModelOf(root)), p, allow, cfg)
    decreases ReprOf(root), 1
  {
    if root == null || root.f.treeDeleted {
      return root, 0, [];
    }
    root.PushDown();
    if T.SamePoint(root.f.point, p) && !root.f.pointDeleted {
      root.MarkOne();
      return root, 1, [];
    }
    if p.At(root.f.divisionAxis) < root.f.point.At(root.f.divisionAxis) {
      count, removed := DeleteInLeft(root, p, allow, cfg);
    } else {
      count, removed := DeleteInRight(root, p, allow, cfg);
    }
    var own;
    r, own := Finish(root, allow, cfg);
    removed := removed + own;
  }

  // ----- searching a box or a ball -----

  method SearchSonsByRange(root: Node, box: Box, storage: seq<Point>) returns (out: seq<Point>)
    requires root.Valid()
    modifies root.repr
    ensures root.Valid() && root.repr == old(root.repr)
    ensures var u := old(root.model);
      var l, r := T.RangeSearch(u.left, box), T.RangeSearch(u.right, box);
      root.model == u.(left := l.tree, right := r.tree) && out == storage + l.points + r.points
    decreases root.repr, 0
  {
    out := SearchByRange(root.left, box, storage);
    out := SearchByRange(root.right, box, out);
    root.Reassemble();
  }

  method SearchByRange(root: Node?, box: Box, storage: seq<Point>) returns (out: seq<Point>)
    requires ValidOf(root)
    modifies ReprOf(root)
    ensures ValidOf(root) && ReprOf(root) == old(ReprOf(root))
    ensures var s := T.RangeSearch(old(ModelOf(root)), box); ModelOf(root) == s.tree && out == storage + s.points
    decreases ReprOf(root), 1
  {
    if root == null {
      return storage;
    }
    root.PushDown();
    ghost var u := root.model;
    if Misses(box, root.f.range) {
      return storage;
    }
    if Covers(box, root.f.range) {
      ghost var ignored;
      out, ignored := Flatten(root, storage);
      return;
    }
    var own := [];
    if InBox(box, root.f.point) && !root.f.pointDeleted { own := [root.f.point]; }
    out := SearchSonsByRange(root, box, storage + own);
    Regroup(storage, own, T.RangeSearch(u.left, box).points, T.RangeSearch(u.right, box).points);
  }

  method SearchSonsByRadius(root: Node, c: Point, radius: real, sqrt: real -> real, storage: seq<Point>)
    returns (out: seq<Point>)
    requires root.Valid()
    modifies root.repr
    ensures root.Valid() && root.repr == old(root.repr)
    ensures var u := old(root.model);
      var l, r := T.RadiusSearch(u.left, c, radius, sqrt), T.RadiusSearch(u.right, c, radius, sqrt);
      root.model == u.(left := l.tree, right := r.tree) && out == storage + l.points + r.points
    decreases root.repr, 0
  {
    out := SearchByRadius(root.left, c, radius, sqrt, storage);
    out := SearchByRadius(root.right, c, radius, sqrt, out);
    root.Reassemble();
  }

  method SearchByRadius(root: Node?, c: Point, radius: real, sqrt: real -> real, storage: seq<Point>)
    returns (out: seq<Point>)
    requires ValidOf(root)
    modifies ReprOf(root)
    ensures ValidOf(root) && ReprOf(root) == old(ReprOf(root))
    ensures var s := T.RadiusSearch(old(ModelOf(root)), c, radius, sqrt);
      ModelOf(root) == s.tree && out == storage + s.points
    decreases ReprOf(root), 1
  {
    if root == null {
      return storage;
    }
    root.PushDown();
    ghost var u := root.model;
    var dist := sqrt(Dist(T.Center(root.f.range), c));
    if dist > radius + sqrt(root.f.radiusSq) {
      return storage;
    }
    if dist <= radius - sqrt(root.f.radiusSq) {
      ghost var ignored;
      out, ignored := Flatten(root, storage);
      return;
    }
    var own := [];
    if !root.f.pointDeleted && Dist(root.f.point, c) <= radius * radius { own := [root.f.point]; }
    out := SearchSonsByRadius(root, c, radius, sqrt, storage + own);
    Regroup(storage, own, T.RadiusSearch(u.left, c, radius, sqrt).points,
            T.RadiusSearch(u.right, c, radius, sqrt).points);
  }
}
