/** Exactly which point Delete_by_point removes, and when it is the one asked for. */
module KdErase {
  import opened Geometry
  import opened KdTree
  import opened KdInvariant
  import opened KdLive
  import opened KdStep
  import opened KdExact
  import R = KdRun

  /** The first live point on the way down that `same_point` takes for `p`. */
  function Met(t: Tree, p: Point): Option<Point>
    decreases Nodes(t)
  {
    if Gone(t) then None
    else
      var u := PushDown(t);
      if Takes(t, p) then Some(t.point)
      else if GoesLeft(t, p) then Met(u.left, p)
      else Met(u.right, p)
  }

  function Without(m: Bag, o: Option<Point>): Bag {
    match o case None => m case Some(q) => m - multiset{q}
  }

  ghost predicate Erased(t: Tree, r: Tree, o: Option<Point>) {
    Live(r) == Without(Live(t), o) && (o.Some? ==> o.value in Live(t))
  }

  lemma TakenFrom(x: Bag, m: Bag, y: Bag, o: Option<Point>)
    requires o.Some? ==> o.value in m
    ensures x + Without(m, o) + y == Without(x + m + y, o) && (o.Some? ==> o.value in x + m + y)
  {
  }

  lemma ErasedHere(t: Tree, p: Point, allow: bool, cfg: Config)
    requires WF(t) && !Gone(t) && Takes(t, p)
    ensures Erased(t, DeletePoint(t, p, allow, cfg).tree, Some(t.point))
  {
    var u := PushDown(t);
    PushDownOk(t);
    MarkOneOk(u);
    OwnTaken(t.point, Live(u.left), Live(u.right));
    assert Live(t) == multiset{t.point} + Live(u.left) + Live(u.right);
  }

  lemma OwnTaken(q: Point, l: Bag, r: Bag)
    ensures q in multiset{q} + l + r && multiset{q} + l + r - multiset{q} == l + r
  {
  }

  lemma ErasedLeft(t: Tree, p: Point, allow: bool, cfg: Config, o: Option<Point>)
    requires WF(t) && !Gone(t) && !Takes(t, p) && GoesLeft(t, p)
    requires Erased(PushDown(t).left, DeletePoint(PushDown(t).left, p, allow, cfg).tree, o)
    ensures Erased(t, DeletePoint(t, p, allow, cfg).tree, o)
  {
    var u := PushDown(t);
    Opened(t);
    DeletePointNodeReady(t, p, allow, cfg);
    DeletePointUnfold(t, p, allow, cfg);
    FinishOk(DeletePointNode(t, p, allow, cfg), allow, cfg);
    TakenFrom(OwnLive(u), Live(u.left), Live(u.right), o);
  }

  lemma ErasedRight(t: Tree, p: Point, allow: bool, cfg: Config, o: Option<Point>)
    requires WF(t) && !Gone(t) && !Takes(t, p) && !GoesLeft(t, p)
    requires Erased(PushDown(t).right, DeletePoint(PushDown(t).right, p, allow, cfg).tree, o)
    ensures Erased(t, DeletePoint(t, p, allow, cfg).tree, o)
  {
    var u := PushDown(t);
    Opened(t);
    DeletePointNodeReady(t, p, allow, cfg);
    DeletePointUnfold(t, p, allow, cfg);
    FinishOk(DeletePointNode(t, p, allow, cfg), allow, cfg);
    TakenFrom(OwnLive(u) + Live(u.left), Live(u.right), multiset{}, o);
    assert OwnLive(u) + Live(u.left) + Live(u.right) == OwnLive(u) + Live(u.left) + Live(u.right) + multiset{};
  }

  /** Delete_by_point removes exactly the point it meets, and nothing if it meets none. */
  lemma {:induction false} ErasesWhatItMeets(t: Tree, p: Point, allow: bool, cfg: Config)
    requires WF(t)
    ensures Erased(t, DeletePoint(t, p, allow, cfg).tree, Met(t, p))
    ensures Met(t, p).Some? ==> SamePoint(Met(t, p).value, p)
    decreases Nodes(t)
  {
    if !Gone(t) {
      PushDownOk(t);
      if Takes(t, p) {
        ErasedHere(t, p, allow, cfg);
      } else if GoesLeft(t, p) {
        ErasesWhatItMeets(PushDown(t).left, p, allow, cfg);
        ErasedLeft(t, p, allow, cfg, Met(PushDown(t).left, p));
      } else {
        ErasesWhatItMeets(PushDown(t).right, p, allow, cfg);
        ErasedRight(t, p, allow, cfg, Met(PushDown(t).right, p));
      }
    }
  }

  lemma OneLess(m: Bag, p: Point, o: Option<Point>)
    requires p in m && (o.Some? ==> o.value in m)
    ensures Without(m, o) == m - multiset{p} <==> o == Some(p)
  {
    assert Without(m, o)[p] == if o == Some(p) then m[p] - 1 else m[p];
    assert (m - multiset{p})[p] == m[p] - 1;
  }

  // ----- in terms of the tree before the call -----

  /** The subtree at the end of a path; `true` goes left. */
  function Sub(t: Tree, path: seq<bool>): Tree {
    if path == [] || t.Nil? then t else Sub(if path[0] then t.left else t.right, path[1..])
  }

  /** A live occurrence of `p` at the end of the path: no mark above or at it. */
  predicate LiveAt(t: Tree, path: seq<bool>, p: Point) {
    && (forall k | 0 <= k <= |path| :: !Gone(Sub(t, path[..k])))
    && Sub(t, path).Node? && Sub(t, path).point == p && !Sub(t, path).pointDel
  }

  /** Another live point within EPSS of `p` is taken for it. */
  predicate Mistaken(v: Tree, p: Point)
    requires v.Node?
  {
    !v.pointDel && SamePoint(v.point, p) && v.point != p
  }

  predicate Ties(v: Tree, p: Point)
    requires v.Node?
  {
    v.point.At(v.axis) == p.At(v.axis)
  }

  /** No node above the end is taken for `p`, and none that has the end on its left ties with it. */
  predicate InSight(t: Tree, path: seq<bool>, p: Point)
    requires LiveAt(t, path, p)
  {
    forall k | 0 <= k < |path| :: var v := Sub(t, path[..k]); !Mistaken(v, p) && (path[k] ==> !Ties(v, p))
  }

  /** Some live occurrence of `p` can be reached. */
  ghost predicate Exposed(t: Tree, p: Point) {
    exists path :: LiveAt(t, path, p) && InSight(t, path, p)
  }

  lemma SubStep(t: Tree, left: bool, path: seq<bool>, k: nat)
    requires t.Node? && k <= |path|
    ensures Sub(t, ([left] + path)[..k + 1]) == Sub(if left then t.left else t.right, path[..k])
  {
    assert ([left] + path)[..k + 1] == [left] + path[..k];
    assert ([left] + path)[..k + 1][1..] == path[..k];
  }

  lemma LiveAtStep(t: Tree, left: bool, path: seq<bool>, p: Point)
    requires !Gone(t)
    ensures LiveAt(t, [left] + path, p) <==> LiveAt(if left then t.left else t.right, path, p)
  {
    var c, whole := if left then t.left else t.right, [left] + path;
    assert Sub(t, whole[..0]) == t;
    forall k | 0 <= k <= |path| ensures Sub(t, whole[..k + 1]) == Sub(c, path[..k]) {
      SubStep(t, left, path, k);
    }
    assert whole[..|whole|] == whole && path[..|path|] == path;
    if LiveAt(t, whole, p) {
      forall k | 0 <= k <= |path| ensures !Gone(Sub(c, path[..k])) {
        assert !Gone(Sub(t, whole[..k + 1]));
      }
    }
    if LiveAt(c, path, p) {
      forall k | 0 <= k <= |whole| ensures !Gone(Sub(t, whole[..k])) {
        if k > 0 { assert !Gone(Sub(c, path[..k - 1])); }
      }
    }
  }

  lemma InSightStep(t: Tree, left: bool, path: seq<bool>, p: Point)
    requires !Gone(t) && LiveAt(t, [left] + path, p) && LiveAt(if left then t.left else t.right, path, p)
    ensures InSight(t, [left] + path, p) <==>
      !Mistaken(t, p) && (left ==> !Ties(t, p)) && InSight(if left then t.left else t.right, path, p)
  {
    var c, whole := if left then t.left else t.right, [left] + path;
    assert whole[..0] == [] && Sub(t, whole[..0]) == t;
    forall k | 0 <= k < |path| ensures Sub(t, whole[..k + 1]) == Sub(c, path[..k]) && whole[k + 1] == path[k] {
      SubStep(t, left, path, k);
    }
    if InSight(t, whole, p) {
      forall k | 0 <= k < |path|
        ensures !Mistaken(Sub(c, path[..k]), p) && (path[k] ==> !Ties(Sub(c, path[..k]), p))
      {
        assert !Mistaken(Sub(t, whole[..k + 1]), p);
      }
    }
    if !Mistaken(t, p) && (left ==> !Ties(t, p)) && InSight(c, path, p) {
      forall k | 0 <= k < |whole|
        ensures !Mistaken(Sub(t, whole[..k]), p) && (whole[k] ==> !Ties(Sub(t, whole[..k]), p))
      {
        if k > 0 { assert !Mistaken(Sub(c, path[..k - 1]), p); }
      }
    }
  }

  /** On the way down the pushes change nothing for a live subtree. */
  lemma MetBelow(t: Tree, p: Point)
    requires WF(t) && !Gone(t) && !Takes(t, p)
    ensures Met(t, p) == Met(if GoesLeft(t, p) then t.left else t.right, p)
  {
  }

  lemma {:induction false} LiveAtStored(t: Tree, path: seq<bool>, p: Point)
    requires LiveAt(t, path, p)
    ensures p in Stored(t)
    decreases path
  {
    assert Sub(t, path[..0]) == t;
    if path != [] {
      assert path == [path[0]] + path[1..];
      LiveAtStep(t, path[0], path[1..], p);
      LiveAtStored(if path[0] then t.left else t.right, path[1..], p);
    }
  }

  /** A point in sight is met. */
  lemma {:induction false} SeenIsMet(t: Tree, path: seq<bool>, p: Point)
    requires WF(t) && Ordered(t) && LiveAt(t, path, p) && InSight(t, path, p)
    ensures Met(t, p) == Some(p)
    decreases path
  {
    assert Sub(t, path[..0]) == t;
    if path != [] {
      assert path == [path[0]] + path[1..];
      LiveAtStep(t, path[0], path[1..], p);
      InSightStep(t, path[0], path[1..], p);
      LiveAtStored(if path[0] then t.left else t.right, path[1..], p);
      if !Takes(t, p) {
        MetBelow(t, p);
        SeenIsMet(if path[0] then t.left else t.right, path[1..], p);
      }
    }
  }

  /** A point that is met is in sight. */
  lemma {:induction false} MetIsSeen(t: Tree, p: Point) returns (path: seq<bool>)
    requires WF(t) && Met(t, p) == Some(p)
    ensures LiveAt(t, path, p) && InSight(t, path, p)
  {
    if Takes(t, p) {
      path := [];
    } else {
      MetBelow(t, p);
      var rest := MetIsSeen(if GoesLeft(t, p) then t.left else t.right, p);
      path := [GoesLeft(t, p)] + rest;
      LiveAtStep(t, GoesLeft(t, p), rest, p);
      InSightStep(t, GoesLeft(t, p), rest, p);
    }
  }

  /** Delete_by_point removes a live point alone if and only if, on the path to some live occurrence
      of it, no live node above is taken for it and no node that has it on its left ties with it. */
  lemma DeletePointIff(t: Tree, p: Point, allow: bool, cfg: Config)
    requires WF(t) && Ordered(t) && p in Live(t)
    ensures Live(DeletePoint(t, p, allow, cfg).tree) == Live(t) - multiset{p} <==> Exposed(t, p)
  {
    ErasesWhatItMeets(t, p, allow, cfg);
    OneLess(Live(t), p, Met(t, p));
    if Met(t, p) == Some(p) {
      var path := MetIsSeen(t, p);
    }
    if Exposed(t, p) {
      var path :| LiveAt(t, path, p) && InSight(t, path, p);
      SeenIsMet(t, path, p);
    }
  }

  // ----- a case in which it is always in sight -----

  /** No other stored point can be confused with `p`, on any axis or within EPSS. */
  ghost predicate Distinct(m: Bag, p: Point) {
    && m[p] == 1
    && forall q | q in m && q != p :: q.x != p.x && q.y != p.y && q.z != p.z && !SamePoint(q, p)
  }

  lemma {:induction false} LiveHasPath(t: Tree, p: Point) returns (path: seq<bool>)
    requires p in Live(t)
    ensures LiveAt(t, path, p)
  {
    if t.point == p && !t.pointDel {
      path := [];
    } else {
      var left := p in Live(t.left);
      var rest := LiveHasPath(if left then t.left else t.right, p);
      path := [left] + rest;
      LiveAtStep(t, left, rest, p);
    }
  }

  lemma DistinctPart(m: Bag, v: Point, n: Bag, o: Bag, p: Point)
    requires Distinct(m, p) && m == multiset{v} + n + o && (p in n || p in o)
    ensures v in m && v != p && (p in n ==> Distinct(n, p)) && (p in o ==> Distinct(o, p))
  {
    assert m[p] == multiset{v}[p] + n[p] + o[p];
  }

  lemma DistinctBelow(t: Tree, left: bool, p: Point)
    requires t.Node? && Distinct(Stored(t), p) && p in Stored(if left then t.left else t.right)
    ensures Distinct(Stored(if left then t.left else t.right), p)
    ensures !Mistaken(t, p) && !Ties(t, p)
  {
    DistinctPart(Stored(t), t.point, Stored(t.left), Stored(t.right), p);
  }

  lemma {:induction false} DistinctInSight(t: Tree, path: seq<bool>, p: Point)
    requires LiveAt(t, path, p) && Distinct(Stored(t), p)
    ensures InSight(t, path, p)
    decreases path
  {
    assert Sub(t, path[..0]) == t;
    if path != [] {
      var left, rest := path[0], path[1..];
      assert path == [left] + rest;
      LiveAtStep(t, left, rest, p);
      LiveAtStored(if left then t.left else t.right, rest, p);
      DistinctBelow(t, left, p);
      DistinctInSight(if left then t.left else t.right, rest, p);
      InSightStep(t, left, rest, p);
    }
  }

  /** Delete_by_point removes exactly a live point that nothing stored can be confused with. */
  lemma DeletePointExact(t: Tree, p: Point, allow: bool, cfg: Config)
    requires WF(t) && Ordered(t) && p in Live(t) && Distinct(Stored(t), p)
    ensures Live(DeletePoint(t, p, allow, cfg).tree) == Live(t) - multiset{p}
  {
    var path := LiveHasPath(t, p);
    DistinctInSight(t, path, p);
    DeletePointIff(t, p, allow, cfg);
  }

  // ----- deleting what was just added -----

  /** No live point within EPSS of `p` but `p` itself. */
  ghost predicate Clear(m: Bag, p: Point) { forall q | q in m && SamePoint(q, p) :: q == p }

  lemma AddedSide(t: Tree, p: Point, a: Axis, cfg: Config)
    requires t.Node? && WF(t) && Clear(Live(t), p)
    requires var son := if GoesLeft(t, p) then PushDown(t).left else PushDown(t).right;
      Met(AddPoint(son, p, false, t.axis, cfg).tree, p) == Some(p)
    ensures Met(AddPoint(t, p, false, a, cfg).tree, p) == Some(p)
  {
    var r := AddPoint(t, p, false, a, cfg).tree;
    AddOk(t, p, false, a, cfg);
    AddUnfold(t, p, false, a, cfg);
    assert p in Live(r);
    if Takes(r, p) {
      assert r.point in Live(r);
    } else {
      MetBelow(r, p);
    }
  }

  lemma ClearSons(t: Tree, p: Point)
    requires t.Node? && WF(t) && Clear(Live(t), p)
    ensures var u := PushDown(t); Clear(Live(u.left), p) && Clear(Live(u.right), p)
  {
    Opened(t);
  }

  /** A point that was added without a rebuild on the way is met. */
  lemma {:induction false} AddedIsMet(t: Tree, p: Point, a: Axis, cfg: Config)
    requires WF(t) && Clear(Live(t), p)
    ensures Met(AddPoint(t, p, false, a, cfg).tree, p) == Some(p)
    decreases Nodes(t)
  {
    if t.Nil? {
      LeafOk(p, (a + 1) % 3);
    } else {
      PushDownOk(t);
      ClearSons(t, p);
      AddedIsMet(if GoesLeft(t, p) then PushDown(t).left else PushDown(t).right, p, t.axis, cfg);
      AddedSide(t, p, a, cfg);
    }
  }

  /** Delete_by_point undoes Add_by_point, if that rebuilt nothing and no live point is within EPSS of `p`. */
  lemma AddThenDelete(t: Tree, p: Point, a: Axis, allow: bool, cfg: Config)
    requires WF(t) && Clear(Live(t), p)
    ensures Live(DeletePoint(AddPoint(t, p, false, a, cfg).tree, p, allow, cfg).tree) == Live(t)
  {
    AddOk(t, p, false, a, cfg);
    AddedIsMet(t, p, a, cfg);
    ErasesWhatItMeets(AddPoint(t, p, false, a, cfg).tree, p, allow, cfg);
    assert Live(t) + multiset{p} - multiset{p} == Live(t);
  }

  // ----- a tie after Build -----

  lemma Median(a: Point, b: Point, c: Point, r: seq<Point>)
    requires a.x == b.x < c.x && |r| == 3 && multiset(r) == multiset{a, b, c}
    requires r[0].x <= r[1].x <= r[2].x
    ensures r == [a, b, c] || r == [b, a, c]
  {
    assert r == [r[0], r[1], r[2]];
    assert multiset{r[0], r[1], r[2]} == multiset{a, b, c};
    assert multiset{r[0], r[1], r[2]}[c] == 1;
    assert r[2] == c;
    assert multiset{r[0], r[1]} == multiset{a, b};
  }

  lemma BuildOne(p: Point, cfg: Config)
    ensures var t := BuildTree([p], cfg);
      t.Node? && t.point == p && t.left.Nil? && t.right.Nil? && !t.pointDel && !t.treeDel
  {
    var r := Pivoted([p], cfg);
    assert r == [r[0]];
    assert multiset(r)[r[0]] == 1;
    assert r[..0] == [] && r[1..] == [];
  }

  /** Two points tied on the longest axis, and a third one beyond them. */
  ghost predicate TiedCloud(s: seq<Point>) {
    |s| == 3 && s[0].x == s[1].x && s[0].x + EPSS <= s[2].x && !SamePoint(s[0], s[1]) && LongestAxis(Bounds(s)) == 0
  }

  lemma BuildTie(s: seq<Point>, cfg: Config) returns (root: Point, hidden: Point)
    requires TiedCloud(s)
    ensures (root == s[0] && hidden == s[1]) || (root == s[1] && hidden == s[0])
    ensures var t := BuildTree(s, cfg);
      t.Node? && t.point == root && t.axis == 0 && t.right == BuildTree([s[2]], cfg)
  {
    var r := Pivoted(s, cfg);
    assert s == [s[0], s[1], s[2]];
    assert r[0].At(0) <= r[1].At(0) <= r[2].At(0);
    Median(s[0], s[1], s[2], r);
    assert r[2..] == [s[2]];
    root, hidden := r[1], r[0];
  }

  lemma MissesBehindTie(t: Tree, c: Point, p: Point, cfg: Config)
    requires WF(t) && !Gone(t) && t.axis == 0 && t.point.x == p.x && !SamePoint(t.point, p)
    requires t.right == BuildTree([c], cfg) && !SamePoint(c, p)
    ensures Met(t, p) == None
  {
    MetBelow(t, p);
    BuildOne(c, cfg);
    MetBelow(t.right, p);
  }

  lemma RunOne(s: R.Session, op: R.Op, cfg: Config)
    ensures R.Run(s, [op], cfg).tree == R.Apply(s.tree, op, true, cfg).tree
  {
    assert [op][..0] == [];
    assert R.Run(s, [], cfg) == s;
  }

  lemma HiddenStays(t: Tree, c: Point, p: Point, cfg: Config)
    requires WF(t) && !Gone(t) && t.axis == 0 && t.point.x == p.x && !SamePoint(t.point, p)
    requires t.right == BuildTree([c], cfg) && !SamePoint(c, p)
    ensures Live(DeletePoint(t, p, true, cfg).tree) == Live(t)
  {
    MissesBehindTie(t, c, p, cfg);
    ErasesWhatItMeets(t, p, true, cfg);
  }

  lemma BuildIsLive(s: seq<Point>, cfg: Config)
    requires s != []
    ensures var t := BuildTree(s, cfg); WF(t) && !Gone(t) && Live(t) == multiset(s)
  {
    BuildOk(s, cfg);
    LiveCount(BuildTree(s, cfg));
  }

  lemma TieAfterBuild(cloud: seq<Point>, cfg: Config) returns (hidden: Point)
    requires TiedCloud(cloud)
    ensures hidden == cloud[0] || hidden == cloud[1]
    ensures Live(DeletePoint(BuildTree(cloud, cfg), hidden, true, cfg).tree) == multiset(cloud)
  {
    var root;
    root, hidden := BuildTie(cloud, cfg);
    BuildIsLive(cloud, cfg);
    HiddenStays(BuildTree(cloud, cfg), cloud[2], hidden, cfg);
  }

  /** Right after Build: of two points tied on the longest axis one is on the left of the other,
      where Delete_by_point never looks. */
  lemma TieHidesPoint(cloud: seq<Point>, cfg: Config) returns (hidden: Point)
    requires TiedCloud(cloud)
    ensures hidden == cloud[0] || hidden == cloud[1]
    ensures Live(R.Run(R.Start(cloud, cfg), [R.DeleteOne(hidden)], cfg).tree) == multiset(cloud)
  {
    hidden := TieAfterBuild(cloud, cfg);
    RunOne(R.Start(cloud, cfg), R.DeleteOne(hidden), cfg);
  }

  lemma TiedCloudExists() returns (s: seq<Point>)
    ensures TiedCloud(s)
  {
    s := [Point(0.0, 0.0, 0.0), Point(0.0, 1.0, 0.0), Point(5.0, 0.0, 0.0)];
    assert s[..2] == [s[0], s[1]] && s[..2][..1] == [s[0]];
    assert Bounds(s[..2][..1]) == PointBox(s[0]);
    assert Bounds(s[..2]) == Box(s[0], s[1]);
  }

  // ----- whether ranges stay exact -----

  /** The node whose point is taken, as it then stands; none if none is. */
  function Taken(t: Tree, p: Point): Tree
    decreases Nodes(t)
  {
    if Gone(t) then Nil
    else
      var u := PushDown(t);
      if Takes(t, p) then u
      else if GoesLeft(t, p) then Taken(u.left, p)
      else Taken(u.right, p)
  }

  /** The range is the bounding box of the other live points below as well, or there are none. */
  ghost predicate Spared(u: Tree)
    requires u.Node?
  {
    var rest := Live(u.left) + Live(u.right);
    rest == multiset{} || Tight(u.range, rest)
  }

  lemma TightUnique(a: Box, b: Box, m: Bag)
    requires Tight(a, m) && Tight(b, m)
    ensures a == b
  {
  }

  lemma RestTight(u: Tree)
    requires Ready(u) && u.pointDel && Exact(u.left) && Exact(u.right) && Live(u.left) + Live(u.right) != multiset{}
    ensures Tight(RangeOf(u.point, true, false, u.left, u.right), Live(u.left) + Live(u.right))
  {
    var v := Update(u);
    UpdateOk(u);
    LiveCount(v);
    ExactIsTight(v);
  }

  lemma MarkedNode(u: Tree)
    requires WF(u) && Exact(u) && !Gone(u) && !u.pointDel
    ensures var rest := Live(u.left) + Live(u.right);
      Exact(MarkOne(u)) <==> rest == multiset{} || u.range == RangeOf(u.point, true, false, u.left, u.right)
  {
    LiveCount(u.left);
    LiveCount(u.right);
  }

  lemma MarkOneExactIff(u: Tree)
    requires WF(u) && Exact(u) && !Gone(u) && !u.pointDel
    ensures Exact(MarkOne(u)) <==> Spared(u)
  {
    var rest := Live(u.left) + Live(u.right);
    MarkedNode(u);
    if rest != multiset{} {
      RestTight(u.(pointDel := true));
      if Spared(u) { TightUnique(u.range, RangeOf(u.point, true, false, u.left, u.right), rest); }
    }
  }

  lemma ExactBySon(t: Tree, p: Point, allow: bool, cfg: Config)
    requires WF(t) && Exact(t) && !Gone(t) && !Takes(t, p)
    ensures var u := PushDown(t);
      var c := DeletePoint(if GoesLeft(t, p) then u.left else u.right, p, allow, cfg).tree;
      && (Exact(c) ==> Exact(DeletePoint(t, p, allow, cfg).tree))
      && (!allow && Exact(DeletePoint(t, p, allow, cfg).tree) ==> Exact(c))
  {
    PushExact(t);
    DeletePointUnfold(t, p, allow, cfg);
    var v := DeletePointNode(t, p, allow, cfg);
    if Exact(v.left) && Exact(v.right) { FinishExact(v, allow, cfg); }
  }

  /** Delete_by_point leaves every range exact if it takes no point, or one that the range of its node
      does not need; without rebuilding, which may put a range right again, only then. */
  lemma {:induction false} StaysExactIff(t: Tree, p: Point, allow: bool, cfg: Config)
    requires WF(t) && Exact(t)
    ensures var u := Taken(t, p); var exact := Exact(DeletePoint(t, p, allow, cfg).tree);
      && (u.Nil? || Spared(u) ==> exact)
      && (!allow && exact ==> u.Nil? || Spared(u))
    decreases Nodes(t)
  {
    if !Gone(t) {
      PushDownOk(t);
      PushExact(t);
      if Takes(t, p) {
        MarkOneExactIff(PushDown(t));
      } else {
        StaysExactIff(if GoesLeft(t, p) then PushDown(t).left else PushDown(t).right, p, allow, cfg);
        ExactBySon(t, p, allow, cfg);
      }
    }
  }

  lemma TakesRoot(t: Tree, cfg: Config)
    requires WF(t) && !Gone(t) && !t.pointDel && !t.pushLeft && !t.pushRight
    ensures DeletePoint(t, t.point, true, cfg).tree == MarkOne(t)
  {
    assert PushDown(t) == t && SamePoint(t.point, t.point);
  }

  lemma BuildAsksNothing(cloud: seq<Point>, cfg: Config)
    requires cloud != []
    ensures var t := BuildTree(cloud, cfg); t.Node? && !t.pointDel && !t.pushLeft && !t.pushRight
  {
  }

  /** A range that is too large: right after Build of a ridge, without its peak. */
  lemma RidgeGoesStale(cloud: seq<Point>, cfg: Config)
    requires R.Ridge(cloud)
    ensures !Exact(R.Run(R.Start(cloud, cfg), [R.DeleteOne(R.PEAK)], cfg).tree)
  {
    var t := BuildTree(cloud, cfg);
    R.RidgeRoot(cloud, cfg);
    BuildIsLive(cloud, cfg);
    BuildExact(cloud, cfg);
    BuildAsksNothing(cloud, cfg);
    PeakNeeded(cloud, t);
    MarkOneExactIff(t);
    TakesRoot(t, cfg);
    RunOne(R.Start(cloud, cfg), R.DeleteOne(R.PEAK), cfg);
  }

  lemma OthersLow(cloud: seq<Point>, rest: Bag)
    requires R.Ridge(cloud) && multiset(cloud) == multiset{R.PEAK} + rest
    ensures R.LOW in rest && forall q | q in rest :: q.y == 0.0
  {
    assert multiset(cloud)[R.LOW] == 5 && multiset(cloud)[R.PEAK] == 1;
    assert forall q :: multiset(cloud)[q] == multiset{R.PEAK}[q] + rest[q];
    forall q | q in rest ensures q.y == 0.0 {
      assert q in multiset(cloud) && q != R.PEAK;
    }
  }

  lemma PeakNeeded(cloud: seq<Point>, t: Tree)
    requires R.Ridge(cloud) && WF(t) && !Gone(t) && t.point == R.PEAK && !t.pointDel && Live(t) == multiset(cloud)
    ensures !Spared(t)
  {
    var rest := Live(t.left) + Live(t.right);
    assert Live(t) == multiset{R.PEAK} + rest;
    OthersLow(cloud, rest);
    assert R.PEAK in Live(t);
    Encloses(t);
  }
}
