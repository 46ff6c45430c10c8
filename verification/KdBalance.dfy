/** Scapegoat balance: what BuildTree settles and what every update with rebuilding keeps. */
module KdBalance {
  import opened Geometry
  import opened KdTree
  import opened KdInvariant
  import opened KdLive
  import opened KdStep

  predicate BalanceParam(b: real) { 6.0 / 11.0 <= b < 1.0 }

  // ----- BuildTree -----

  lemma ScaleBound(b: real, c: real, m: real)
    requires c <= b && m >= 0.0
    ensures c * m <= b * m && (1.0 - b) * m <= m - c * m
  {
    assert (b - c) * m >= 0.0;
    assert (1.0 - b) * m == m - b * m;
  }

  lemma Halves(n: nat)
    requires n > 10
    ensures var h, m := ((n - 1) / 2) as real, n as real - 1.0;
      5.0 / 11.0 * m <= h <= 6.0 / 11.0 * m
  {
    var h := (n - 1) / 2;
    assert 5 * (n - 1) <= 11 * h <= 6 * (n - 1);
    assert 5.0 * (n as real - 1.0) <= 11.0 * (h as real) <= 6.0 * (n as real - 1.0);
  }

  lemma Sandwich(h: real, m: real, b: real)
    requires BalanceParam(b) && m >= 0.0 && 5.0 / 11.0 * m <= h <= 6.0 / 11.0 * m
    ensures (1.0 - b) * m <= h <= b * m
  {
    ScaleBound(b, 6.0 / 11.0, m);
  }

  lemma HalvesShared(n: nat, b: real)
    requires n > 10 && BalanceParam(b)
    ensures ShareWithin(b)((n - 1) / 2, n)
  {
    Halves(n);
    Sandwich(((n - 1) / 2) as real, n as real - 1.0, b);
  }

  /** The sizes of a built node: floor and ceiling of (n-1)/2. */
  lemma BuildSizes(s: seq<Point>, cfg: Config)
    requires s != []
    ensures var t := BuildTree(s, cfg);
      && t.Node? && t.size == |s| && t.invalid == 0
      && Size(t.left) == (|s| - 1) / 2 && Size(t.right) == |s| - 1 - (|s| - 1) / 2
  {
    var mid := (|s| - 1) / 2;
    var r := Pivoted(s, cfg);
    BuildSize(r[..mid], cfg);
    BuildSize(r[mid + 1..], cfg);
    var l, u := BuildTree(r[..mid], cfg), BuildTree(r[mid + 1..], cfg);
    assert BuildTree(s, cfg) == Joint(r[mid], LongestAxis(Bounds(s)), l, u);
  }

  lemma BuildSize(s: seq<Point>, cfg: Config)
    ensures Size(BuildTree(s, cfg)) == |s| && Invalid(BuildTree(s, cfg)) == 0
  {
    BuildOk(s, cfg);
  }

  lemma {:induction false} BuildBalanced(s: seq<Point>, cfg: Config, b: real)
    requires BalanceParam(b)
    ensures Balanced(BuildTree(s, cfg), ShareWithin(b))
    decreases |s|
  {
    if s != [] {
      var mid := (|s| - 1) / 2;
      var r := Pivoted(s, cfg);
      BuildBalanced(r[..mid], cfg, b);
      BuildBalanced(r[mid + 1..], cfg, b);
      BuildSizes(s, cfg);
      JointBalanced(r[mid], LongestAxis(Bounds(s)), BuildTree(r[..mid], cfg), BuildTree(r[mid + 1..], cfg), b);
    }
  }

  lemma JointBalanced(p: Point, a: Axis, l: Tree, r: Tree, b: real)
    requires BalanceParam(b) && Balanced(l, ShareWithin(b)) && Balanced(r, ShareWithin(b))
    requires Size(l) == (Size(l) + Size(r)) / 2
    ensures Balanced(Joint(p, a, l, r), ShareWithin(b))
  {
    var n := Size(l) + Size(r) + 1;
    if n > 10 { HalvesShared(n, b); }
  }

  /** No node asks for a rebuild. */
  ghost predicate Calm(t: Tree, cfg: Config) {
    t.Node? ==>
      && Calm(t.left, cfg) && Calm(t.right, cfg)
      && t.size == 1 + Size(t.left) + Size(t.right) && !Criterion(t, cfg)
  }

  lemma ShareBound(x: nat, n: nat, b: real)
    requires n > 0
    ensures (x as real) / (n as real) <= b <==> x as real <= b * (n as real)
    ensures (x as real) / (n as real) >= b <==> x as real >= b * (n as real)
  {
    var d := (x as real) / (n as real);
    assert d * (n as real) == x as real;
    if d <= b { assert (b - d) * (n as real) >= 0.0; } else { assert (d - b) * (n as real) > 0.0; }
    if d >= b { assert (d - b) * (n as real) >= 0.0; } else { assert (b - d) * (n as real) > 0.0; }
  }

  lemma ShareIsShare(left: nat, size: nat, b: real)
    requires size > 1
    ensures ShareWithin(b)(left, size) <==>
      1.0 - b <= (left as real) / ((size - 1) as real) <= b
  {
    ShareBound(left, size - 1, b);
    ShareBound(left, size - 1, 1.0 - b);
  }

  lemma SharedIsCalm(t: Tree, cfg: Config)
    requires t.Node? && t.size == 1 + Size(t.left) + Size(t.right) && t.invalid == 0
    requires t.size > 10 ==> t.left.Node? && ShareWithin(cfg.balanceParam)(Size(t.left), t.size)
    requires cfg.deleteParam >= 0.0
    ensures !Criterion(t, cfg)
  {
    if t.size > 10 {
      ShareIsShare(Size(t.left), t.size, cfg.balanceParam);
    }
  }

  lemma JointCalm(p: Point, a: Axis, l: Tree, r: Tree, cfg: Config)
    requires BalanceParam(cfg.balanceParam) && cfg.deleteParam >= 0.0
    requires Calm(l, cfg) && Calm(r, cfg) && Invalid(l) == Invalid(r) == 0
    requires Size(l) == (Size(l) + Size(r)) / 2
    ensures Calm(Joint(p, a, l, r), cfg)
  {
    var t := Joint(p, a, l, r);
    if t.size > 10 { HalvesShared(t.size, cfg.balanceParam); }
    SharedIsCalm(t, cfg);
  }

  /** A freshly built tree satisfies the rebuild criterion nowhere. */
  lemma {:induction false} BuildCalm(s: seq<Point>, cfg: Config)
    requires BalanceParam(cfg.balanceParam) && cfg.deleteParam >= 0.0
    ensures Calm(BuildTree(s, cfg), cfg)
    decreases |s|
  {
    if s != [] {
      var mid := (|s| - 1) / 2;
      var r := Pivoted(s, cfg);
      BuildCalm(r[..mid], cfg);
      BuildCalm(r[mid + 1..], cfg);
      BuildSizes(s, cfg);
      BuildOk(r[..mid], cfg);
      BuildOk(r[mid + 1..], cfg);
      JointCalm(r[mid], LongestAxis(Bounds(s)), BuildTree(r[..mid], cfg), BuildTree(r[mid + 1..], cfg), cfg);
    }
  }

  function Height(t: Tree): nat {
    if t.Nil? then 0
    else 1 + if Height(t.left) > Height(t.right) then Height(t.left) else Height(t.right)
  }

  function Pow2(n: nat): nat { if n == 0 then 1 else 2 * Pow2(n - 1) }

  lemma {:induction false} Pow2Monotone(m: nat, n: nat)
    requires m <= n
    ensures Pow2(m) <= Pow2(n)
  {
    if m < n { Pow2Monotone(m, n - 1); }
  }

  ghost predicate Low(h: nat, n: nat) {
    n < Pow2(h) && (if n == 0 then h == 0 else h > 0 && Pow2(h - 1) <= n)
  }

  lemma LowJoint(hl: nat, hr: nat, nl: nat, nr: nat)
    requires Low(hl, nl) && Low(hr, nr) && nl <= nr <= nl + 1
    ensures Low(1 + if hl > hr then hl else hr, nl + nr + 1)
  {
    if hl > hr {
      Pow2Monotone(hr, hl - 1);
    } else if hr > hl + 1 {
      Pow2Monotone(hl + 1, hr - 1);
    } else if hr == hl + 1 {
      assert Pow2(hr) == 2 * Pow2(hl) && nr == Pow2(hl);
    } else if hl > 0 {
      assert Pow2(hl) == 2 * Pow2(hl - 1);
    }
  }

  lemma JointLow(p: Point, a: Axis, l: Tree, r: Tree, nl: nat, nr: nat)
    requires Low(Height(l), nl) && Low(Height(r), nr) && nl <= nr <= nl + 1
    ensures Low(Height(Joint(p, a, l, r)), nl + nr + 1)
  {
    LowJoint(Height(l), Height(r), nl, nr);
  }

  /** A built tree of n points is as low as any binary tree: 2^(h-1) <= n < 2^h. */
  lemma {:induction false} BuildHeight(s: seq<Point>, cfg: Config)
    ensures Low(Height(BuildTree(s, cfg)), |s|)
    decreases |s|
  {
    if s != [] {
      var mid := (|s| - 1) / 2;
      var r := Pivoted(s, cfg);
      var front, back := r[..mid], r[mid + 1..];
      BuildHeight(front, cfg);
      BuildHeight(back, cfg);
      JointLow(r[mid], LongestAxis(Bounds(s)), BuildTree(front, cfg), BuildTree(back, cfg), |front|, |back|);
    }
  }

  // ----- updates -----

  lemma PushBalanced(t: Tree, ok: Share)
    requires t.Node? && Balanced(t, ok)
    ensures Balanced(PushDown(t), ok)
  {
  }

  lemma SelfShare(n: nat)
    requires n > 0
    ensures (n as real) / (n as real) == 1.0
  {
  }

  lemma NotCriterion(u: Tree, cfg: Config)
    requires u.Node? && u.size == 1 + Size(u.left) + Size(u.right)
    requires cfg.balanceParam < 1.0 && !Criterion(u, cfg) && u.size > MINIMAL_UNBALANCED_TREE_SIZE
    ensures ShareWithin(cfg.balanceParam)(Size(u.left), u.size)
  {
    var son := if u.left.Node? then u.left else u.right;
    ShareIsShare(Size(son), u.size, cfg.balanceParam);
    if u.left.Nil? { SelfShare(u.size - 1); }
  }

  /** After the rebuild check a node of in-place size is balanced, rebuilt or not. */
  lemma FinishBalanced(v: Tree, cfg: Config)
    requires Ready(v) && BalanceParam(cfg.balanceParam)
    requires Balanced(v.left, ShareWithin(cfg.balanceParam)) && Balanced(v.right, ShareWithin(cfg.balanceParam))
    ensures Balanced(Finish(v, true, cfg).tree, ShareWithin(cfg.balanceParam))
  {
    var u := Update(v);
    if Criterion(u, cfg) {
      BuildBalanced(Flat(u), cfg, cfg.balanceParam);
    } else if u.size > MINIMAL_UNBALANCED_TREE_SIZE {
      NotCriterion(u, cfg);
    }
  }

  lemma AddBalancedSide(t: Tree, p: Point, a: Axis, cfg: Config)
    requires t.Node? && WF(t) && BalanceParam(cfg.balanceParam) && Balanced(t, ShareWithin(cfg.balanceParam))
    requires var c := if GoesLeft(t, p) then PushDown(t).left else PushDown(t).right;
      Balanced(AddPoint(c, p, true, t.axis, cfg).tree, ShareWithin(cfg.balanceParam))
    ensures Balanced(AddPoint(t, p, true, a, cfg).tree, ShareWithin(cfg.balanceParam))
  {
    PushBalanced(t, ShareWithin(cfg.balanceParam));
    AddNodeReady(t, p, true, cfg);
    AddUnfold(t, p, true, a, cfg);
    FinishBalanced(AddNode(t, p, true, cfg), cfg);
  }

  lemma {:induction false} AddBalanced(t: Tree, p: Point, a: Axis, cfg: Config)
    requires WF(t) && BalanceParam(cfg.balanceParam) && Balanced(t, ShareWithin(cfg.balanceParam))
    ensures Balanced(AddPoint(t, p, true, a, cfg).tree, ShareWithin(cfg.balanceParam))
    decreases Nodes(t)
  {
    if t.Node? {
      PushDownOk(t);
      PushBalanced(t, ShareWithin(cfg.balanceParam));
      if GoesLeft(t, p) {
        AddBalanced(PushDown(t).left, p, t.axis, cfg);
      } else {
        AddBalanced(PushDown(t).right, p, t.axis, cfg);
      }
      AddBalancedSide(t, p, a, cfg);
    }
  }

  lemma DeleteBalancedStop(t: Tree, box: Box, downsample: bool, cfg: Config, ok: Share)
    requires WF(t) && Balanced(t, ok) && !Splits(t, box)
    ensures Balanced(DeleteRange(t, box, true, downsample, cfg).tree, ok)
  {
    DeleteStops(t, box, true, downsample, cfg);
    if t.Node? { PushBalanced(t, ok); }
  }

  lemma {:induction false} DeleteBalanced(t: Tree, box: Box, downsample: bool, cfg: Config)
    requires WF(t) && BalanceParam(cfg.balanceParam) && Balanced(t, ShareWithin(cfg.balanceParam))
    ensures Balanced(DeleteRange(t, box, true, downsample, cfg).tree, ShareWithin(cfg.balanceParam))
    decreases Nodes(t)
  {
    if Splits(t, box) {
      PushDownOk(t);
      PushBalanced(t, ShareWithin(cfg.balanceParam));
      DeleteBalanced(PushDown(t).left, box, downsample, cfg);
      DeleteBalanced(PushDown(t).right, box, downsample, cfg);
      DeleteNodeReady(t, box, true, downsample, cfg);
      DeleteUnfold(t, box, true, downsample, cfg);
      FinishBalanced(DeleteNode(t, box, true, downsample, cfg), cfg);
    } else {
      DeleteBalancedStop(t, box, downsample, cfg, ShareWithin(cfg.balanceParam));
    }
  }

  lemma DeletePointBalancedStop(t: Tree, p: Point, cfg: Config, ok: Share)
    requires WF(t) && Balanced(t, ok) && (Gone(t) || Takes(t, p))
    ensures Balanced(DeletePoint(t, p, true, cfg).tree, ok)
  {
    DeletePointStops(t, p, true, cfg);
    if t.Node? { PushBalanced(t, ok); }
  }

  lemma DeletePointBalancedSide(t: Tree, p: Point, cfg: Config)
    requires t.Node? && WF(t) && !Gone(t) && !Takes(t, p) && BalanceParam(cfg.balanceParam)
    requires Balanced(t, ShareWithin(cfg.balanceParam))
    requires Balanced(DeletePoint(if GoesLeft(t, p) then PushDown(t).left else PushDown(t).right, p, true, cfg).tree,
                      ShareWithin(cfg.balanceParam))
    ensures Balanced(DeletePoint(t, p, true, cfg).tree, ShareWithin(cfg.balanceParam))
  {
    PushBalanced(t, ShareWithin(cfg.balanceParam));
    DeletePointNodeReady(t, p, true, cfg);
    DeletePointUnfold(t, p, true, cfg);
    FinishBalanced(DeletePointNode(t, p, true, cfg), cfg);
  }

  lemma {:induction false} DeletePointBalanced(t: Tree, p: Point, cfg: Config)
    requires WF(t) && BalanceParam(cfg.balanceParam) && Balanced(t, ShareWithin(cfg.balanceParam))
    ensures Balanced(DeletePoint(t, p, true, cfg).tree, ShareWithin(cfg.balanceParam))
    decreases Nodes(t)
  {
    if Gone(t) || Takes(t, p) {
      DeletePointBalancedStop(t, p, cfg, ShareWithin(cfg.balanceParam));
    } else {
      PushDownOk(t);
      PushBalanced(t, ShareWithin(cfg.balanceParam));
      if GoesLeft(t, p) {
        DeletePointBalanced(PushDown(t).left, p, cfg);
      } else {
        DeletePointBalanced(PushDown(t).right, p, cfg);
      }
      DeletePointBalancedSide(t, p, cfg);
    }
  }

  // ----- depth -----

  function Power(b: real, n: nat): real { if n == 0 then 1.0 else b * Power(b, n - 1) }

  lemma {:induction false} PowerPositive(b: real, n: nat)
    requires b > 0.0
    ensures Power(b, n) > 0.0
  {
    if n > 0 { PowerPositive(b, n - 1); }
  }

  lemma {:induction false} HeightAtMostSize(t: Tree)
    requires WF(t)
    ensures Height(t) <= Size(t)
  {
    if t.Node? {
      HeightAtMostSize(t.left);
      HeightAtMostSize(t.right);
    }
  }

  lemma ShrinksBy(g: nat, n: nat, c: nat, b: real)
    requires g >= 11 && n > 1 && b > 0.0 && c as real <= b * (n as real - 1.0)
    requires 11.0 <= Power(b, g - 11) * (c as real)
    ensures 11.0 <= Power(b, g - 10) * (n as real)
  {
    var w, m := Power(b, g - 11), n as real - 1.0;
    PowerPositive(b, g - 11);
    assert w * (c as real) <= w * (b * m) by { assert w * (b * m - c as real) >= 0.0; }
    assert Power(b, g - 10) == b * w;
    assert w * (b * m) == (b * w) * m;
    assert (b * w) * m <= (b * w) * (n as real) by { assert (b * w) * (n as real - m) >= 0.0; }
  }

  lemma OtherShare(l: nat, r: nat, b: real)
    requires ShareWithin(b)(l, 1 + l + r)
    ensures l as real <= b * ((1 + l + r) as real - 1.0) && r as real <= b * ((1 + l + r) as real - 1.0)
  {
    var m := (1 + l + r) as real - 1.0;
    assert (1.0 - b) * m == m - b * m;
  }

  /** n points are enough for height h: beyond height 10 they grow by 1/b per level. */
  predicate Room(b: real, h: nat, n: nat) { h > 10 ==> 11.0 <= Power(b, h - 11) * (n as real) }

  function RoomFor(b: real): (nat, nat) -> bool { (h: nat, n: nat) => Room(b, h, n) }

  lemma RoomGrows(g: nat, n: nat, c: nat, b: real)
    requires g >= 11 && n > 1 && b > 0.0 && c as real <= b * (n as real - 1.0) && RoomFor(b)(g, c)
    ensures RoomFor(b)(g + 1, n)
  {
    ShrinksBy(g, n, c, b);
  }

  lemma ShallowStep(l: nat, r: nat, g: nat, c: nat, b: real)
    requires BalanceParam(b) && ShareWithin(b)(l, 1 + l + r) && g >= 11 && (c == l || c == r) && l + r > 0
    requires RoomFor(b)(g, c)
    ensures RoomFor(b)(g + 1, 1 + l + r)
  {
    OtherShare(l, r, b);
    RoomGrows(g, 1 + l + r, c, b);
  }

  lemma ShallowLeaf(h: nat, n: nat, b: real)
    requires h <= n && h <= 11
    ensures RoomFor(b)(h, n)
  {
  }

  /** A balanced tree of in-place size is of logarithmic depth: a height of 11 + k needs at
      least 11 / b^k points. */
  lemma {:induction false} BalancedIsShallow(t: Tree, b: real)
    requires WF(t) && BalanceParam(b) && Balanced(t, ShareWithin(b)) && Size(t) < MULTI_THREAD_REBUILD_POINT_NUM
    ensures RoomFor(b)(Height(t), Size(t))
  {
    HeightAtMostSize(t);
    if Height(t) <= 11 {
      ShallowLeaf(Height(t), Size(t), b);
    } else if Height(t.left) > Height(t.right) {
      BalancedIsShallow(t.left, b);
      ShallowStep(Size(t.left), Size(t.right), Height(t.left), Size(t.left), b);
    } else {
      BalancedIsShallow(t.right, b);
      ShallowStep(Size(t.left), Size(t.right), Height(t.right), Size(t.right), b);
    }
  }

  /** Every subtree of in-place size, wherever it hangs, is logarithmically deep. */
  ghost predicate Shallow(t: Tree, b: real) {
    t.Node? ==>
      && Shallow(t.left, b) && Shallow(t.right, b)
      && (t.size < MULTI_THREAD_REBUILD_POINT_NUM ==> RoomFor(b)(Height(t), t.size))
  }

  lemma {:induction false} BalancedIsShallowBelow(t: Tree, b: real)
    requires WF(t) && BalanceParam(b) && Balanced(t, ShareWithin(b))
    ensures Shallow(t, b)
  {
    if t.Node? {
      BalancedIsShallowBelow(t.left, b);
      BalancedIsShallowBelow(t.right, b);
      if t.size < MULTI_THREAD_REBUILD_POINT_NUM { BalancedIsShallow(t, b); }
    }
  }
}
