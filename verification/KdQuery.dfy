/** Box and radius queries return exactly what a scan of the live points would, and leave a tree
    that differs only in marks pushed further down. */
module KdQuery {
  import opened Geometry
  import opened Norm
  import opened KdTree
  import opened KdInvariant
  import opened KdLive
  import opened KdOrder
  import opened KdExact
  import opened KdBalance

  // ----- pushing down on the way -----

  /** `u` is `t` after Push_Down on some of its nodes, ancestors first. */
  ghost predicate Pushed(t: Tree, u: Tree)
    decreases Nodes(t)
  {
    || t == u
    || (t.Node? && u.Node? &&
        var v := PushDown(t);
        u == v.(left := u.left, right := u.right) && Pushed(v.left, u.left) && Pushed(v.right, u.right))
  }

  /** All that the fields of a parent say about a child. */
  predicate SameSurface(t: Tree, u: Tree) {
    && Size(t) == Size(u) && Invalid(t) == Invalid(u) && Down(t) == Down(u)
    && Gone(t) == Gone(u) && Thinned(t) == Thinned(u) && t.Nil? == u.Nil?
    && (t.Node? ==> t.range == u.range && t.treeDel == u.treeDel)
  }

  lemma PushedSurface(t: Tree, u: Tree)
    requires Pushed(t, u)
    ensures SameSurface(t, u)
  {
  }

  ghost predicate Refreshed(t: Tree, u: Tree) {
    && WF(u) && Live(u) == Live(t) && Stored(u) == Stored(t)
  }

  ghost predicate SonsRefreshed(v: Tree, l: Tree, r: Tree)
    requires v.Node?
  {
    SameSurface(v.left, l) && SameSurface(v.right, r) && Refreshed(v.left, l) && Refreshed(v.right, r)
  }

  lemma SonsSound(v: Tree, l: Tree, r: Tree)
    requires v.Node? && WF(v) && (v.pushLeft ==> v.left.Nil?) && (v.pushRight ==> v.right.Nil?)
    requires SonsRefreshed(v, l, r)
    ensures WF(v.(left := l, right := r))
  {
    var u := v.(left := l, right := r);
    assert Counted(u);
    assert Enclosed(u);
  }

  lemma SonsBags(v: Tree, l: Tree, r: Tree)
    requires v.Node? && SonsRefreshed(v, l, r)
    ensures var u := v.(left := l, right := r); Live(u) == Live(v) && Stored(u) == Stored(v)
  {
  }

  /** Pushing marks down anywhere keeps the invariant and both bags. */
  lemma {:induction false} PushedOk(t: Tree, u: Tree)
    requires WF(t) && Pushed(t, u)
    ensures Refreshed(t, u)
    decreases Nodes(t)
  {
    if t != u {
      var v := PushDown(t);
      PushDownOk(t);
      PushedOk(v.left, u.left);
      PushedOk(v.right, u.right);
      PushedSurface(v.left, u.left);
      PushedSurface(v.right, u.right);
      SonsSound(v, u.left, u.right);
      SonsBags(v, u.left, u.right);
    }
  }

  lemma {:induction false} PushedExact(t: Tree, u: Tree)
    requires WF(t) && Exact(t) && Pushed(t, u)
    ensures Exact(u)
    decreases Nodes(t)
  {
    if t != u {
      var v := PushDown(t);
      PushDownOk(t);
      PushExact(t);
      PushedExact(v.left, u.left);
      PushedExact(v.right, u.right);
      PushedSurface(v.left, u.left);
      PushedSurface(v.right, u.right);
    }
  }

  lemma {:induction false} PushedOrdered(t: Tree, u: Tree)
    requires WF(t) && Ordered(t) && Pushed(t, u)
    ensures Ordered(u)
    decreases Nodes(t)
  {
    if t != u {
      var v := PushDown(t);
      PushDownOk(t);
      PushOrdered(t);
      PushedOrdered(v.left, u.left);
      PushedOrdered(v.right, u.right);
      PushedOk(v.left, u.left);
      PushedOk(v.right, u.right);
    }
  }

  lemma {:induction false} PushedBalanced(t: Tree, u: Tree, ok: Share)
    requires Balanced(t, ok) && Pushed(t, u)
    ensures Balanced(u, ok)
    decreases Nodes(t)
  {
    if t != u {
      var v := PushDown(t);
      PushBalanced(t, ok);
      PushedBalanced(v.left, u.left, ok);
      PushedBalanced(v.right, u.right, ok);
      PushedSurface(v.left, u.left);
      PushedSurface(v.right, u.right);
    }
  }

  lemma PushTwice(t: Tree)
    requires t.Node?
    ensures PushDown(PushDown(t)) == PushDown(t)
  {
  }

  lemma PushedOnce(t: Tree)
    requires t.Node?
    ensures Pushed(t, PushDown(t))
  {
    PushedSelf(PushDown(t).left);
    PushedSelf(PushDown(t).right);
  }

  lemma PushedSelf(t: Tree)
    ensures Pushed(t, t)
  {
  }

  lemma {:induction false} PushAllPushed(t: Tree)
    ensures Pushed(t, PushAll(t))
    decreases Nodes(t)
  {
    if t.Node? {
      PushAllPushed(PushDown(t).left);
      PushAllPushed(PushDown(t).right);
    }
  }

  lemma PushAllAgain(t: Tree)
    requires t.Node?
    ensures PushAll(PushDown(t)) == PushAll(t) && Pushed(t, PushAll(PushDown(t)))
  {
    PushTwice(t);
    PushAllPushed(t);
  }

  // ----- box search -----

  /** The query found exactly the live points that satisfy `want` and only pushed marks. */
  ghost predicate Finds(t: Tree, r: Found, want: Point -> bool) {
    Pushed(t, r.tree) && multiset(r.points) == Select(Live(t), want)
  }

  lemma FindsNone(t: Tree, want: Point -> bool)
    requires t.Node? && WF(t) && (!Gone(t) ==> forall q | InRange(t.range, q) :: !want(q))
    ensures Finds(t, Found(PushDown(t), []), want)
  {
    PushedOnce(t);
    if !Gone(t) { Encloses(t); }
    SelectNone(Live(t), want);
  }

  lemma FindsAll(t: Tree, want: Point -> bool)
    requires t.Node? && WF(t) && (!Gone(t) ==> forall q | InRange(t.range, q) :: want(q))
    ensures Finds(t, Found(PushAll(PushDown(t)), Flat(PushDown(t))), want)
  {
    PushDownOk(t);
    PushAllAgain(t);
    FlatOk(PushDown(t));
    if !Gone(t) { Encloses(t); }
    SelectAll(Live(t), want);
  }

  lemma PointsSplit(u: Tree, l: Found, r: Found, own: seq<Point>, want: Point -> bool)
    requires u.Node? && own == if !u.pointDel && want(u.point) then [u.point] else []
    requires multiset(l.points) == Select(Live(u.left), want) && multiset(r.points) == Select(Live(u.right), want)
    ensures multiset(own + l.points + r.points) == Select(OwnLive(u) + Live(u.left) + Live(u.right), want)
  {
    SelectThree(OwnLive(u), Live(u.left), Live(u.right), want);
    assert multiset(own) == Select(OwnLive(u), want);
  }

  lemma FindsSplit(t: Tree, l: Found, r: Found, own: seq<Point>, want: Point -> bool)
    requires t.Node? && WF(t) && Finds(PushDown(t).left, l, want) && Finds(PushDown(t).right, r, want)
    requires own == if !t.pointDel && want(t.point) then [t.point] else []
    ensures Finds(t, Found(PushDown(t).(left := l.tree, right := r.tree), own + l.points + r.points), want)
  {
    Opened(t);
    PointsSplit(PushDown(t), l, r, own, want);
  }

  /** Search_by_range returns exactly the live points of the half-open box. */
  lemma {:induction false} RangeSearchOk(t: Tree, box: Box)
    requires WF(t)
    ensures Finds(t, RangeSearch(t, box), Inside(box))
    decreases Nodes(t)
  {
    if t.Node? {
      var u := PushDown(t);
      PushDownOk(t);
      if Misses(box, u.range) {
        FindsNone(t, Inside(box));
      } else if Covers(box, u.range) {
        FindsAll(t, Inside(box));
      } else {
        RangeSearchOk(u.left, box);
        RangeSearchOk(u.right, box);
        var own := if InBox(box, u.point) && !u.pointDel then [u.point] else [];
        FindsSplit(t, RangeSearch(u.left, box), RangeSearch(u.right, box), own, Inside(box));
      }
    }
  }

  // ----- radius search -----

  function Near(c: Point, radius: real): Point -> bool { p => Dist(p, c) <= radius * radius }

  lemma HalfSide(lo: real, hi: real, v: real)
    requires lo <= v <= hi
    ensures (v - (lo + hi) * 0.5) * (v - (lo + hi) * 0.5) <= ((hi - lo) * 0.5) * ((hi - lo) * 0.5)
  {
    var d, h := v - (lo + hi) * 0.5, (hi - lo) * 0.5;
    assert -h <= d <= h;
    if d >= 0.0 { SquareMonotone(d, h); } else { SquareMonotone(-d, h); }
  }

  /** Every point of a range is within the half diagonal of its centre. */
  lemma CenterNear(r: Box, q: Point)
    requires InRange(r, q)
    ensures Dist(q, Center(r)) <= HalfDiagonalSq(r)
  {
    HalfSide(r.lo.x, r.hi.x, q.x);
    HalfSide(r.lo.y, r.hi.y, q.y);
    HalfSide(r.lo.z, r.hi.z, q.z);
  }

  lemma HalfNonNegative(r: Box)
    ensures HalfDiagonalSq(r) >= 0.0
  {
    var x, y, z := (r.hi.x - r.lo.x) * 0.5, (r.hi.y - r.lo.y) * 0.5, (r.hi.z - r.lo.z) * 0.5;
    assert x * x >= 0.0 && y * y >= 0.0 && z * z >= 0.0;
  }

  /** Distance of a point of the range from `c`, against the distance of the centre. */
  lemma BallBounds(r: Box, q: Point, c: Point, sqrt: real -> real)
    requires IsSqrt(sqrt) && InRange(r, q)
    ensures var d, dist, half := sqrt(Dist(q, c)), sqrt(Dist(Center(r), c)), sqrt(HalfDiagonalSq(r));
      d >= 0.0 && half >= 0.0 && d * d == Dist(q, c) && dist - half <= d <= dist + half
  {
    var m := Center(r);
    DistNonNegative(q, c);
    Triangle(q, m, c, sqrt);
    Triangle(m, q, c, sqrt);
    DistSymmetric(m, q);
    CenterRoot(r, q, sqrt);
  }

  lemma CenterRoot(r: Box, q: Point, sqrt: real -> real)
    requires IsSqrt(sqrt) && InRange(r, q)
    ensures 0.0 <= sqrt(Dist(q, Center(r))) <= sqrt(HalfDiagonalSq(r))
  {
    DistNonNegative(q, Center(r));
    HalfNonNegative(r);
    CenterNear(r, q);
    RootOrder(sqrt(Dist(q, Center(r))), sqrt(HalfDiagonalSq(r)));
  }

  lemma NearIff(q: Point, c: Point, radius: real, sqrt: real -> real)
    requires IsSqrt(sqrt) && radius >= 0.0
    ensures Near(c, radius)(q) <==> sqrt(Dist(q, c)) <= radius
  {
    DistNonNegative(q, c);
    RootOrder(sqrt(Dist(q, c)), radius);
  }

  /** The pruning test is safe: past radius + half diagonal no point of the range is near. */
  lemma FarOut(r: Box, q: Point, c: Point, radius: real, sqrt: real -> real)
    requires IsSqrt(sqrt) && radius >= 0.0 && InRange(r, q)
    requires sqrt(Dist(Center(r), c)) > radius + sqrt(HalfDiagonalSq(r))
    ensures !Near(c, radius)(q)
  {
    BallBounds(r, q, c, sqrt);
    NearIff(q, c, radius, sqrt);
  }

  /** The take-all test is safe: within radius - half diagonal all of the range is near. */
  lemma CloseIn(r: Box, q: Point, c: Point, radius: real, sqrt: real -> real)
    requires IsSqrt(sqrt) && radius >= 0.0 && InRange(r, q)
    requires sqrt(Dist(Center(r), c)) <= radius - sqrt(HalfDiagonalSq(r))
    ensures Near(c, radius)(q)
  {
    BallBounds(r, q, c, sqrt);
    NearIff(q, c, radius, sqrt);
  }

  lemma RadiusStop(t: Tree, c: Point, radius: real, sqrt: real -> real)
    requires t.Node? && WF(t) && IsSqrt(sqrt) && radius >= 0.0 && !Straddles(t.range, c, radius, sqrt)
    ensures Finds(t, RadiusSearch(t, c, radius, sqrt), Near(c, radius))
  {
    if sqrt(Dist(Center(t.range), c)) > radius + sqrt(HalfDiagonalSq(t.range)) {
      forall q | InRange(t.range, q) ensures !Near(c, radius)(q) { FarOut(t.range, q, c, radius, sqrt); }
      FindsNone(t, Near(c, radius));
    } else {
      forall q | InRange(t.range, q) ensures Near(c, radius)(q) { CloseIn(t.range, q, c, radius, sqrt); }
      FindsAll(t, Near(c, radius));
    }
  }

  /** Neither pruned nor taken whole. */
  predicate Straddles(r: Box, c: Point, radius: real, sqrt: real -> real) {
    var dist, half := sqrt(Dist(Center(r), c)), sqrt(HalfDiagonalSq(r));
    !(dist > radius + half) && !(dist <= radius - half)
  }

  lemma RadiusUnfold(t: Tree, c: Point, radius: real, sqrt: real -> real)
    requires t.Node? && Straddles(t.range, c, radius, sqrt)
    ensures var u := PushDown(t);
      var l, r := RadiusSearch(u.left, c, radius, sqrt), RadiusSearch(u.right, c, radius, sqrt);
      var own := if !t.pointDel && Near(c, radius)(t.point) then [t.point] else [];
      RadiusSearch(t, c, radius, sqrt) == Found(u.(left := l.tree, right := r.tree), own + l.points + r.points)
  {
  }

  lemma RadiusSplit(t: Tree, c: Point, radius: real, sqrt: real -> real)
    requires t.Node? && WF(t) && Straddles(t.range, c, radius, sqrt)
    requires Finds(PushDown(t).left, RadiusSearch(PushDown(t).left, c, radius, sqrt), Near(c, radius))
    requires Finds(PushDown(t).right, RadiusSearch(PushDown(t).right, c, radius, sqrt), Near(c, radius))
    ensures Finds(t, RadiusSearch(t, c, radius, sqrt), Near(c, radius))
  {
    var u := PushDown(t);
    var own := if !t.pointDel && Near(c, radius)(t.point) then [t.point] else [];
    RadiusUnfold(t, c, radius, sqrt);
    FindsSplit(t, RadiusSearch(u.left, c, radius, sqrt), RadiusSearch(u.right, c, radius, sqrt), own, Near(c, radius));
  }

  lemma {:induction false} BallSearchOk(t: Tree, c: Point, radius: real, sqrt: real -> real)
    requires WF(t) && IsSqrt(sqrt) && radius >= 0.0
    ensures Finds(t, RadiusSearch(t, c, radius, sqrt), Near(c, radius))
    decreases Nodes(t)
  {
    if t.Node? {
      PushDownOk(t);
      if !Straddles(t.range, c, radius, sqrt) {
        RadiusStop(t, c, radius, sqrt);
      } else {
        BallSearchOk(PushDown(t).left, c, radius, sqrt);
        BallSearchOk(PushDown(t).right, c, radius, sqrt);
        RadiusSplit(t, c, radius, sqrt);
      }
    }
  }

  /** The query found no more than the live points that satisfy `want` and only pushed marks. */
  ghost predicate FindsSome(t: Tree, r: Found, want: Point -> bool) {
    Pushed(t, r.tree) && multiset(r.points) <= Select(Live(t), want)
  }

  lemma NegativeStop(t: Tree, c: Point, radius: real, sqrt: real -> real)
    requires t.Node? && WF(t) && IsSqrt(sqrt) && radius < 0.0 && !Straddles(t.range, c, radius, sqrt)
    ensures FindsSome(t, RadiusSearch(t, c, radius, sqrt), Near(c, radius))
  {
    DistNonNegative(Center(t.range), c);
    HalfNonNegative(t.range);
    PushedOnce(t);
  }

  lemma SomeSplit(u: Tree, l: Found, r: Found, own: seq<Point>, want: Point -> bool)
    requires u.Node? && own == if !u.pointDel && want(u.point) then [u.point] else []
    requires multiset(l.points) <= Select(Live(u.left), want) && multiset(r.points) <= Select(Live(u.right), want)
    ensures multiset(own + l.points + r.points) <= Select(OwnLive(u) + Live(u.left) + Live(u.right), want)
  {
    SelectThree(OwnLive(u), Live(u.left), Live(u.right), want);
    assert multiset(own) == Select(OwnLive(u), want);
  }

  lemma NegativeSplit(t: Tree, c: Point, radius: real, sqrt: real -> real)
    requires t.Node? && WF(t) && Straddles(t.range, c, radius, sqrt)
    requires FindsSome(PushDown(t).left, RadiusSearch(PushDown(t).left, c, radius, sqrt), Near(c, radius))
    requires FindsSome(PushDown(t).right, RadiusSearch(PushDown(t).right, c, radius, sqrt), Near(c, radius))
    ensures FindsSome(t, RadiusSearch(t, c, radius, sqrt), Near(c, radius))
  {
    var u := PushDown(t);
    var own := if !t.pointDel && Near(c, radius)(t.point) then [t.point] else [];
    Opened(t);
    RadiusUnfold(t, c, radius, sqrt);
    SomeSplit(u, RadiusSearch(u.left, c, radius, sqrt), RadiusSearch(u.right, c, radius, sqrt), own, Near(c, radius));
  }

  lemma {:induction false} NegativeSearchOk(t: Tree, c: Point, radius: real, sqrt: real -> real)
    requires WF(t) && IsSqrt(sqrt) && radius < 0.0
    ensures FindsSome(t, RadiusSearch(t, c, radius, sqrt), Near(c, radius))
    decreases Nodes(t)
  {
    if t.Node? {
      PushDownOk(t);
      if !Straddles(t.range, c, radius, sqrt) {
        NegativeStop(t, c, radius, sqrt);
      } else {
        NegativeSearchOk(PushDown(t).left, c, radius, sqrt);
        NegativeSearchOk(PushDown(t).right, c, radius, sqrt);
        NegativeSplit(t, c, radius, sqrt);
      }
    }
  }

  /** Search_by_radius only pushes marks and returns live points at squared distance <= radius squared:
      each exactly as often as it is live, unless the radius is negative. */
  lemma RadiusSearchOk(t: Tree, c: Point, radius: real, sqrt: real -> real)
    requires WF(t) && IsSqrt(sqrt)
    ensures FindsSome(t, RadiusSearch(t, c, radius, sqrt), Near(c, radius))
    ensures radius >= 0.0 ==> Finds(t, RadiusSearch(t, c, radius, sqrt), Near(c, radius))
  {
    if radius >= 0.0 { BallSearchOk(t, c, radius, sqrt); } else { NegativeSearchOk(t, c, radius, sqrt); }
  }
}
