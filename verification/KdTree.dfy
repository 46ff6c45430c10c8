/** The incremental k-d tree as a value: every operation of the C++ tree as a function
    from tree to tree, lazy marks and pending pushes included. */
module KdTree {
  import opened Geometry

  const MINIMAL_UNBALANCED_TREE_SIZE: nat := 10
  const MULTI_THREAD_REBUILD_POINT_NUM: nat := 1500

  /** `treeDel`/`pointDel`: subtree/point marked deleted; `treeDown`/`pointDown`: by downsampling.
      `pushLeft`/`pushRight`: the subtree mark still has to be handed to that child. */
  datatype Tree =
    | Nil
    | Node(point: Point, axis: Axis, size: nat, invalid: nat, down: nat,
           pointDel: bool, treeDel: bool, pointDown: bool, treeDown: bool,
           pushLeft: bool, pushRight: bool, range: Box, left: Tree, right: Tree)

  function Size(t: Tree): nat { if t.Nil? then 0 else t.size }
  function Invalid(t: Tree): nat { if t.Nil? then 0 else t.invalid }
  function Down(t: Tree): nat { if t.Nil? then 0 else t.down }
  predicate Gone(t: Tree) { t.Nil? || t.treeDel }
  predicate Thinned(t: Tree) { t.Nil? || t.treeDown }
  function Bit(b: bool): nat { if b then 1 else 0 }

  /** Number of nodes, the termination measure of functions that push before they recurse. */
  ghost function Nodes(t: Tree): nat {
    if t.Nil? then 0 else 1 + Nodes(t.left) + Nodes(t.right)
  }

  // ----- nth_element -----

  /** What `nth_element` promises: a permutation with the k-th element in its sorted place,
      nothing larger before it and nothing smaller behind it. */
  ghost predicate Selected(s: seq<Point>, r: seq<Point>, k: nat, a: Axis)
    requires k < |s|
  {
    && |r| == |s|
    && multiset(r) == multiset(s)
    && (forall i | 0 <= i < k :: r[i].At(a) <= r[k].At(a))
    && (forall i | k < i < |r| :: r[k].At(a) <= r[i].At(a))
  }

  ghost predicate IsSelector(f: (seq<Point>, nat, Axis) -> seq<Point>) {
    forall s: seq<Point>, k: nat, a: Axis :: k < |s| ==> Selected(s, f(s, k, a), k, a)
  }

  /** Any deterministic `nth_element`: all results below hold for each of them. */
  type Selector = f: (seq<Point>, nat, Axis) -> seq<Point> | IsSelector(f)
    witness (SortingSelects(); SelectBySorting)

  predicate SortedAlong(s: seq<Point>, a: Axis) {
    forall i, j | 0 <= i < j < |s| :: s[i].At(a) <= s[j].At(a)
  }

  function InsertAlong(p: Point, s: seq<Point>, a: Axis): seq<Point> {
    if s == [] || p.At(a) <= s[0].At(a) then [p] + s else [s[0]] + InsertAlong(p, s[1..], a)
  }

  function SelectBySorting(s: seq<Point>, k: nat, a: Axis): seq<Point> {
    if s == [] then [] else InsertAlong(s[0], SelectBySorting(s[1..], k, a), a)
  }

  lemma {:induction false} SortingPermutes(s: seq<Point>, k: nat, a: Axis)
    ensures multiset(SelectBySorting(s, k, a)) == multiset(s)
  {
    if s != [] {
      SortingPermutes(s[1..], k, a);
      InsertAdds(s[0], SelectBySorting(s[1..], k, a), a);
      assert s == [s[0]] + s[1..];
    }
  }

  lemma {:induction false} InsertAdds(p: Point, s: seq<Point>, a: Axis)
    ensures multiset(InsertAlong(p, s, a)) == multiset{p} + multiset(s)
  {
    if s != [] {
      InsertAdds(p, s[1..], a);
      assert s == [s[0]] + s[1..];
    }
  }

  lemma {:induction false} InsertSorts(p: Point, s: seq<Point>, a: Axis)
    requires SortedAlong(s, a)
    ensures SortedAlong(InsertAlong(p, s, a), a)
  {
    if s != [] && !(p.At(a) <= s[0].At(a)) {
      InsertSorts(p, s[1..], a);
      InsertAdds(p, s[1..], a);
      var t := InsertAlong(p, s[1..], a);
      forall i | 0 <= i < |t| ensures s[0].At(a) <= t[i].At(a) {
        assert t[i] in multiset(t);
        assert t[i] == p || t[i] in s[1..];
      }
    }
  }

  lemma {:induction false} SortingSorts(s: seq<Point>, k: nat, a: Axis)
    ensures SortedAlong(SelectBySorting(s, k, a), a)
  {
    if s != [] {
      SortingSorts(s[1..], k, a);
      InsertSorts(s[0], SelectBySorting(s[1..], k, a), a);
    }
  }

  /** The contract of `nth_element` can be met. */
  lemma SortingSelects()
    ensures IsSelector(SelectBySorting)
  {
    forall s: seq<Point>, k: nat, a: Axis | k < |s|
      ensures Selected(s, SelectBySorting(s, k, a), k, a)
    {
      SortingSorts(s, k, a);
      SortingPermutes(s, k, a);
      assert |SelectBySorting(s, k, a)| == |multiset(SelectBySorting(s, k, a))| == |s|;
    }
  }

  datatype Config = Config(deleteParam: real, balanceParam: real, voxel: real, select: Selector)

  // ----- pushing marks down -----

  /** What `Push_Down` writes into one child of a node carrying marks `td` and `tdd`. */
  function PushInto(td: bool, tdd: bool, c: Tree): Tree
    requires c.Node?
  {
    var treeDown := c.treeDown || tdd;
    var pointDown := c.pointDown || tdd;
    var treeDel := td || treeDown;
    var down := if tdd then c.size else c.down;
    c.(treeDown := treeDown, pointDown := pointDown, treeDel := treeDel,
       pointDel := treeDel || pointDown, down := down,
       invalid := if td then c.size else down, pushLeft := true, pushRight := true)
  }

  function PushLeft(t: Tree): (r: Tree)
    requires t.Node?
    ensures r.Node? && Nodes(r.left) == Nodes(t.left)
    ensures r == t.(left := r.left, pushLeft := r.pushLeft)
  {
    if t.pushLeft && t.left.Node? then
      t.(left := PushInto(t.treeDel, t.treeDown, t.left), pushLeft := false)
    else t
  }

  function PushRight(t: Tree): (r: Tree)
    requires t.Node?
    ensures r.Node? && Nodes(r.right) == Nodes(t.right)
    ensures r == t.(right := r.right, pushRight := r.pushRight)
  {
    if t.pushRight && t.right.Node? then
      t.(right := PushInto(t.treeDel, t.treeDown, t.right), pushRight := false)
    else t
  }

  /** A flag is cleared only when its child exists. */
  function PushDown(t: Tree): (r: Tree)
    requires t.Node?
    ensures r.Node? && Nodes(r.left) == Nodes(t.left) && Nodes(r.right) == Nodes(t.right)
    ensures r == t.(left := r.left, right := r.right, pushLeft := r.pushLeft, pushRight := r.pushRight)
  {
    PushRight(PushLeft(t))
  }

  // ----- Update -----

  /** Range of a node: over everything below it if all of that is deleted, else over what is not. */
  function RangeOf(p: Point, pointDel: bool, treeDel: bool, l: Tree, r: Tree): Box {
    var lb := if l.Node? && (treeDel || !l.treeDel) then Some(l.range) else None;
    var rb := if r.Node? && (treeDel || !r.treeDel) then Some(r.range) else None;
    var pb := if treeDel || !pointDel then Some(PointBox(p)) else None;
    match Join(Join(lb, rb), pb)
    case Some(b) => b
    case None => PointBox(p)  // never the case after Update: one of the three is not deleted
  }

  function Update(t: Tree): (r: Tree)
    requires t.Node?
    ensures r.Node?
  {
    var treeDel := Gone(t.left) && Gone(t.right) && t.pointDel;
    t.(size := Size(t.left) + Size(t.right) + 1,
       invalid := Invalid(t.left) + Invalid(t.right) + Bit(t.pointDel),
       down := Down(t.left) + Down(t.right) + Bit(t.pointDown),
       treeDown := Thinned(t.left) && Thinned(t.right) && t.pointDown,
       treeDel := treeDel,
       range := RangeOf(t.point, t.pointDel, treeDel, t.left, t.right))
  }

  /** A new node with its children, before its first `Update`. */
  function Fresh(p: Point, a: Axis, l: Tree, r: Tree): Tree {
    Node(p, a, 0, 0, 0, false, false, false, false, false, false, PointBox(p), l, r)
  }

  function Joint(p: Point, a: Axis, l: Tree, r: Tree): Tree {
    Update(Fresh(p, a, l, r))
  }

  function Leaf(p: Point, a: Axis): Tree { Joint(p, a, Nil, Nil) }

  // ----- building -----

  function Bounds(s: seq<Point>): Box
    requires |s| > 0
  {
    if |s| == 1 then PointBox(s[0]) else Hull(Bounds(s[..|s| - 1]), PointBox(s[|s| - 1]))
  }

  /** The first longest dimension. */
  function LongestAxis(b: Box): Axis {
    var dx, dy, dz := b.hi.x - b.lo.x, b.hi.y - b.lo.y, b.hi.z - b.lo.z;
    var a: Axis := if dy > dx then 1 else 0;
    if dz > (if a == 1 then dy else dx) then 2 else a
  }

  /** Storage after `nth_element` has put the median of the longest dimension in the middle. */
  function Pivoted(s: seq<Point>, cfg: Config): (r: seq<Point>)
    requires s != []
    ensures Selected(s, r, (|s| - 1) / 2, LongestAxis(Bounds(s)))
  {
    cfg.select(s, (|s| - 1) / 2, LongestAxis(Bounds(s)))
  }

  function BuildTree(s: seq<Point>, cfg: Config): Tree
    decreases |s|
  {
    if s == [] then Nil
    else
      var mid := (|s| - 1) / 2;
      var r := Pivoted(s, cfg);
      Joint(r[mid], LongestAxis(Bounds(s)), BuildTree(r[..mid], cfg), BuildTree(r[mid + 1..], cfg))
  }

  // ----- flattening and rebuilding -----

  /** The points `flatten` stores, in its order. */
  function Flat(t: Tree): seq<Point>
    decreases Nodes(t)
  {
    if t.Nil? then []
    else
      var u := PushDown(t);
      (if u.pointDel then [] else [u.point]) + Flat(u.left) + Flat(u.right)
  }

  /** The deleted points `flatten` records: those not deleted by downsampling. */
  function Buried(t: Tree): seq<Point>
    decreases Nodes(t)
  {
    if t.Nil? then []
    else
      var u := PushDown(t);
      Buried(u.left) + Buried(u.right) + (if u.pointDel && !u.pointDown then [u.point] else [])
  }

  /** The tree `flatten` leaves behind. */
  function PushAll(t: Tree): Tree
    decreases Nodes(t)
  {
    if t.Nil? then Nil
    else
      var u := PushDown(t);
      u.(left := PushAll(u.left), right := PushAll(u.right))
  }

  predicate Criterion(t: Tree, cfg: Config)
    requires t.Node? && t.size == 1 + Size(t.left) + Size(t.right)
  {
    t.size > MINIMAL_UNBALANCED_TREE_SIZE &&
    var son := if t.left.Node? then t.left else t.right;
    var share := (Size(son) as real) / ((t.size - 1) as real);
    || (t.invalid as real) / (t.size as real) > cfg.deleteParam
    || share > cfg.balanceParam
    || share < 1.0 - cfg.balanceParam
  }

  /** Result of an update: new subtree, number of points newly deleted, and the points
      appended to `Points_deleted`. */
  datatype Outcome = Outcome(tree: Tree, count: int, removed: seq<Point>)

  /** A subtree of 1500 points or more is left to the rebuild thread. */
  function Rebuild(t: Tree, cfg: Config): Outcome
    requires t.Node?
  {
    if t.size >= MULTI_THREAD_REBUILD_POINT_NUM then Outcome(t, 0, [])
    else Outcome(BuildTree(Flat(t), cfg), 0, Buried(t))
  }

  /** The common tail of all recursive updates. */
  function Finish(t: Tree, allow: bool, cfg: Config): Outcome
    requires t.Node?
  {
    var u := Update(t);
    if allow && Criterion(u, cfg) then Rebuild(u, cfg) else Outcome(u, 0, [])
  }

  // ----- updates -----

  function AddPoint(t: Tree, p: Point, allow: bool, fatherAxis: Axis, cfg: Config): Outcome
    decreases Nodes(t)
  {
    if t.Nil? then Outcome(Leaf(p, (fatherAxis + 1) % 3), 0, [])
    else
      var u := PushDown(t);
      if p.At(u.axis) < u.point.At(u.axis) then
        var l := AddPoint(u.left, p, allow, u.axis, cfg);
        var f := Finish(u.(left := l.tree), allow, cfg);
        Outcome(f.tree, 0, l.removed + f.removed)
      else
        var r := AddPoint(u.right, p, allow, u.axis, cfg);
        var f := Finish(u.(right := r.tree), allow, cfg);
        Outcome(f.tree, 0, r.removed + f.removed)
  }

  /** The full-cover marking of `Delete_by_range`. */
  function MarkAll(t: Tree, downsample: bool): Tree
    requires t.Node?
  {
    var u := t.(treeDel := true, pointDel := true, pushLeft := true, pushRight := true, invalid := t.size);
    if downsample then u.(treeDown := true, pointDown := true, down := t.size) else u
  }

  function MarkPoint(t: Tree, downsample: bool): Tree
    requires t.Node?
  {
    t.(pointDel := true, pointDown := t.pointDown || downsample)
  }

  function DeleteRange(t: Tree, box: Box, allow: bool, downsample: bool, cfg: Config): Outcome
    decreases Nodes(t)
  {
    if Gone(t) then Outcome(t, 0, [])
    else
      var u := PushDown(t);
      if Misses(box, u.range) then Outcome(u, 0, [])
      else if Covers(box, u.range) then
        Outcome(MarkAll(u, downsample), u.size - u.invalid, [])
      else
        var hit := !u.pointDel && InBox(box, u.point);
        var v := if hit then MarkPoint(u, downsample) else u;
        var l := DeleteRange(v.left, box, allow, downsample, cfg);
        var r := DeleteRange(v.right, box, allow, downsample, cfg);
        var f := Finish(v.(left := l.tree, right := r.tree), allow, cfg);
        Outcome(f.tree, Bit(hit) + l.count + r.count, l.removed + r.removed + f.removed)
  }

  const EPSS: real := 0.000001

  function Abs(v: real): real { if v < 0.0 then -v else v }

  predicate SamePoint(a: Point, b: Point) {
    Abs(a.x - b.x) < EPSS && Abs(a.y - b.y) < EPSS && Abs(a.z - b.z) < EPSS
  }

  /** The marking of `Delete_by_point`; the caller's ranges are left alone. */
  function MarkOne(t: Tree): Tree
    requires t.Node?
  {
    var u := t.(pointDel := true, invalid := t.invalid + 1);
    if u.invalid == u.size then u.(treeDel := true) else u
  }

  function DeletePoint(t: Tree, p: Point, allow: bool, cfg: Config): Outcome
    decreases Nodes(t)
  {
    if Gone(t) then Outcome(t, 0, [])
    else
      var u := PushDown(t);
      if SamePoint(u.point, p) && !u.pointDel then Outcome(MarkOne(u), 1, [])
      else if p.At(u.axis) < u.point.At(u.axis) then
        var l := DeletePoint(u.left, p, allow, cfg);
        var f := Finish(u.(left := l.tree), allow, cfg);
        Outcome(f.tree, l.count, l.removed + f.removed)
      else
        var r := DeletePoint(u.right, p, allow, cfg);
        var f := Finish(u.(right := r.tree), allow, cfg);
        Outcome(f.tree, r.count, r.removed + f.removed)
  }

  // ----- queries that push -----

  datatype Found = Found(tree: Tree, points: seq<Point>)

  /** Search_by_range: the hits in its order, and the tree it leaves behind. */
  function RangeSearch(t: Tree, box: Box): Found
    decreases Nodes(t)
  {
    if t.Nil? then Found(Nil, [])
    else
      var u := PushDown(t);
      if Misses(box, u.range) then Found(u, [])
      else if Covers(box, u.range) then Found(PushAll(u), Flat(u))
      else
        var l, r := RangeSearch(u.left, box), RangeSearch(u.right, box);
        var own := if InBox(box, u.point) && !u.pointDel then [u.point] else [];
        Found(u.(left := l.tree, right := r.tree), own + l.points + r.points)
  }

  function Center(r: Box): Point {
    Point((r.lo.x + r.hi.x) * 0.5, (r.lo.y + r.hi.y) * 0.5, (r.lo.z + r.hi.z) * 0.5)
  }

  function HalfDiagonalSq(r: Box): real {
    var x, y, z := (r.hi.x - r.lo.x) * 0.5, (r.hi.y - r.lo.y) * 0.5, (r.hi.z - r.lo.z) * 0.5;
    x * x + y * y + z * z
  }

  /** Search_by_radius, with the library's square root as a parameter. */
  function RadiusSearch(t: Tree, c: Point, radius: real, sqrt: real -> real): Found
    decreases Nodes(t)
  {
    if t.Nil? then Found(Nil, [])
    else
      var u := PushDown(t);
      var dist, half := sqrt(Dist(Center(u.range), c)), sqrt(HalfDiagonalSq(u.range));
      if dist > radius + half then Found(u, [])
      else if dist <= radius - half then Found(PushAll(u), Flat(u))
      else
        var l, r := RadiusSearch(u.left, c, radius, sqrt), RadiusSearch(u.right, c, radius, sqrt);
        var own := if !u.pointDel && Dist(u.point, c) <= radius * radius then [u.point] else [];
        Found(u.(left := l.tree, right := r.tree), own + l.points + r.points)
  }
}
