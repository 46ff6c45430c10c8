/** Nearest_Search against brute force. */
module Nearest {
  import opened Geometry
  import opened ManualHeap
  import opened KdNode
  import T = KdTree
  import I = KdInvariant
  import L = KdLive
  import Q = KdQuery

  /** Within the squared distance limit; `None` is INFINITY. */
  predicate Reach(d: real, limit: Option<real>) { limit.Some? ==> d <= limit.value }

  /** The points of a bag as candidates: each with its squared distance, those out of reach dropped. */
  ghost function Candidates(m: Bag, p: Point, limit: Option<real>): (r: Cands)
    ensures forall c :: r[c] == if c.dist == Dist(p, c.point) && Reach(c.dist, limit) then m[c.point] else 0
  {
    if |m| == 0 then multiset{}
    else
      var x :| x in m;
      var rest, d := Candidates(m[x := 0], p, limit), Dist(p, x);
      if Reach(d, limit) then rest[Cand(x, d) := m[x]] else rest
  }

  lemma CandidatesPlus(a: Bag, b: Bag, p: Point, limit: Option<real>)
    ensures Candidates(a + b, p, limit) == Candidates(a, p, limit) + Candidates(b, p, limit)
  {
  }

  lemma CandidatesOne(x: Point, p: Point, limit: Option<real>)
    ensures Candidates(multiset{x}, p, limit)
         == if Reach(Dist(p, x), limit) then multiset{Cand(x, Dist(p, x))} else multiset{}
  {
  }

  lemma NoCandidates(p: Point, limit: Option<real>)
    ensures Candidates(multiset{}, p, limit) == multiset{}
  {
  }

  /** `q` holds k nearest of the candidates `s`, or all of them if there are fewer. */
  ghost predicate BestK(q: Cands, s: Cands, k: nat) {
    && q <= s
    && |q| == (if |s| < k then |s| else k)
    && forall a, b | a in q && b in s - q :: a.dist <= b.dist
  }

  lemma SubsetFull(q: Cands, s: Cands)
    requires q <= s && |q| == |s|
    ensures q == s
  {
    assert s == q + (s - q);
  }

  /** A candidate arrives while there is room. */
  lemma RoomLeft(q: Cands, s: Cands, k: nat, c: Cand)
    requires BestK(q, s, k) && |q| < k
    ensures BestK(q + multiset{c}, s + multiset{c}, k) && q == s
  {
    SubsetFull(q, s);
  }

  /** A nearer candidate replaces the farthest. */
  lemma Replace(q: Cands, s: Cands, k: nat, c: Cand, top: Cand)
    requires BestK(q, s, k) && |q| == k && top in q && c.dist <= top.dist
    requires forall a | a in q :: a.dist <= top.dist
    ensures BestK(q - multiset{top} + multiset{c}, s + multiset{c}, k)
  {
    var r, t := q - multiset{top} + multiset{c}, s + multiset{c};
    assert t - r == (s - q) + multiset{top};
    forall a, b | a in r && b in t - r ensures a.dist <= b.dist {
      assert b in s - q || b == top;
      assert a in q || a == c;
    }
  }

  /** Candidates no nearer than the farthest of a full queue may be skipped. */
  lemma Skip(q: Cands, s: Cands, k: nat, far: Cands)
    requires BestK(q, s, k) && |q| == k
    requires forall a, b | a in q && b in far :: a.dist <= b.dist
    ensures BestK(q, s + far, k)
  {
    forall a, b | a in q && b in s + far - q ensures a.dist <= b.dist {
      assert b in s - q || b in far;
    }
  }

  /** No live point of a subtree is nearer than its range. */
  lemma RangeBounds(t: T.Tree, p: Point, limit: Option<real>)
    requires I.WF(t) && t.Node?
    ensures forall c | c in Candidates(I.Live(t), p, limit) :: BoxDist(t.range, p) <= c.dist
  {
    if !T.Gone(t) { I.Encloses(t); }
    forall c | c in Candidates(I.Live(t), p, limit) ensures BoxDist(t.range, p) <= c.dist {
      assert c.point in I.Live(t);
      BoxDistBelow(t.range, p, c.point);
    }
  }

  /** The candidates of a node: its own point and those of its sons. */
  lemma CandidatesSplit(t: T.Tree, p: Point, limit: Option<real>)
    requires t.Node? && I.WF(t)
    ensures var u := T.PushDown(t);
      Candidates(I.Live(t), p, limit)
        == Candidates(L.OwnLive(u), p, limit) + Candidates(I.Live(u.left), p, limit)
           + Candidates(I.Live(u.right), p, limit)
  {
    var u := T.PushDown(t);
    L.Opened(t);
    CandidatesPlus(L.OwnLive(u), I.Live(u.left), p, limit);
    CandidatesPlus(L.OwnLive(u) + I.Live(u.left), I.Live(u.right), p, limit);
  }

  // ----- the search -----

  ghost predicate Ready(q: Heap, k: nat, seen: Cands, rest: Cands)
    reads q, q.heap
  {
    k >= 1 && q.Valid() && q.cap == 2 * k && BestK(q.Bag(), seen, k) && AllApart(seen + rest)
  }

  lemma Fewer(seen: Cands, a: Cands, b: Cands)
    requires AllApart(seen + a + b)
    ensures AllApart(seen + a) && AllApart(seen + b) && AllApart(seen + b + a)
  {
    assert forall c | c in seen + a :: c in seen + a + b;
    assert forall c | c in seen + b :: c in seen + a + b;
    assert forall c | c in seen + b + a :: c in seen + a + b;
  }

  /** The candidate `c` against the queue: taken if there is room or it is nearer than the top. */
  method Offer(q: Heap, k: nat, c: Cand, ghost seen: Cands)
    requires Ready(q, k, seen, multiset{c})
    modifies q, q.heap
    ensures q.Valid() && BestK(q.Bag(), seen + multiset{c}, k)
  {
    ghost var before := q.Bag();
    assert c in seen + multiset{c};
    if q.heapSize < k {
      RoomLeft(before, seen, k, c);
      q.Push(c);
    } else if c.dist < q.Top().dist {
      ghost var top := q.Top();
      Replace(before, seen, k, c, top);
      Within(before, before - multiset{top} + multiset{c}, seen, c);
      q.Pop();
      q.Push(c);
    } else {
      Skip(before, seen, k, multiset{c});
    }
  }

  lemma Within(q: Cands, r: Cands, s: Cands, c: Cand)
    requires q <= s && AllApart(s + multiset{c}) && r <= q + multiset{c}
    ensures AllApart(q) && AllApart(r)
  {
    assert forall a | a in q :: a in s + multiset{c};
    assert forall a | a in r :: a in s + multiset{c};
  }

  lemma OwnCandidate(u: T.Tree, p: Point, limit: Option<real>)
    requires u.Node?
    ensures Candidates(L.OwnLive(u), p, limit)
         == if !u.pointDel && Reach(Dist(p, u.point), limit) then multiset{Cand(u.point, Dist(p, u.point))}
            else multiset{}
  {
    CandidatesOne(u.point, p, limit);
    NoCandidates(p, limit);
  }

  method OfferOwn(root: Node, k: nat, p: Point, q: Heap, limit: Option<real>, ghost seen: Cands)
    requires root.Valid() && Ready(q, k, seen, Candidates(L.OwnLive(root.model), p, limit))
    modifies q, q.heap
    ensures q.Valid() && BestK(q.Bag(), seen + Candidates(L.OwnLive(old(root.model)), p, limit), k)
  {
    OwnCandidate(root.model, p, limit);
    root.Fits();
    if !root.f.pointDeleted && (limit == None || Dist(p, root.f.point) <= limit.value) {
      Offer(q, k, Cand(root.f.point, Dist(p, root.f.point)), seen);
    } else {
      assert seen + multiset{} == seen;
    }
  }

  /** The queue changes, the tree does not. */
  method OfferBeside(root: Node, k: nat, p: Point, q: Heap, limit: Option<real>, ghost seen: Cands)
    requires root.Valid() && Apartment(root, q) && Ready(q, k, seen, Candidates(L.OwnLive(root.model), p, limit))
    modifies q, q.heap
    ensures q.Valid() && BestK(q.Bag(), seen + Candidates(L.OwnLive(root.model), p, limit), k)
    ensures root.Valid() && root.repr == old(root.repr) && root.model == old(root.model)
  {
    OfferOwn(root, k, p, q, limit, seen);
  }

  /** What a search of one subtree promises: the queue absorbs its candidates, marks get pushed. */
  ghost predicate Absorbed(q: Heap, k: nat, seen: Cands, rest: Cands)
    reads q, q.heap
  {
    q.Valid() && BestK(q.Bag(), seen + rest, k)
  }

  ghost function Of(t: T.Tree, p: Point, limit: Option<real>): Cands { Candidates(I.Live(t), p, limit) }

  ghost predicate Apartment(root: Node?, q: Heap)
    reads root
  {
    q !in ReprOf(root) && q.heap !in ReprOf(root)
  }

  lemma OutOfReach(t: T.Tree, p: Point, limit: Option<real>)
    requires I.WF(t) && (T.Gone(t) || (limit.Some? && BoxDist(t.range, p) > limit.value))
    ensures Of(t, p, limit) == multiset{}
  {
    if T.Gone(t) {
      NoCandidates(p, limit);
    } else {
      RangeBounds(t, p, limit);
      assert forall c :: c !in Of(t, p, limit);
    }
  }

  /** The pruning test of Search, with INFINITY for a missing son. */
  method Closer(son: Node?, p: Point, q: Heap) returns (b: bool)
    requires ValidOf(son) && q.Valid() && q.heapSize > 0
    ensures b <==> ModelOf(son).Node? && BoxDist(ModelOf(son).range, p) < q.Top().dist
  {
    if son == null {
      return false;
    }
    son.Fits();
    return BoxDist(son.f.range, p) < q.Top().dist;
  }

  /** Whether to visit a son. */
  method Worth(son: Node?, always: bool, k: nat, p: Point, q: Heap) returns (visit: bool)
    requires ValidOf(son) && q.Valid() && k >= 1
    ensures visit <==> always || q.heapSize < k || (ModelOf(son).Node? && BoxDist(ModelOf(son).range, p) < q.Top().dist)
  {
    visit := always || q.heapSize < k;
    if !visit {
      visit := Closer(son, p, q);
    }
  }

  lemma SkipSon(t: T.Tree, p: Point, q: Cands, seen: Cands, k: nat, limit: Option<real>, top: Cand)
    requires I.WF(t) && BestK(q, seen, k) && |q| == k && top in q && forall a | a in q :: a.dist <= top.dist
    requires t.Node? ==> BoxDist(t.range, p) >= top.dist
    ensures BestK(q, seen + Of(t, p, limit), k)
  {
    if t.Node? { RangeBounds(t, p, limit); } else { NoCandidates(p, limit); }
    Skip(q, seen, k, Of(t, p, limit));
  }

  lemma Skipped(t: T.Tree, k: nat, p: Point, q: Heap, limit: Option<real>, seen: Cands)
    requires I.WF(t) && Ready(q, k, seen, Of(t, p, limit)) && q.heapSize >= k
    requires t.Node? ==> BoxDist(t.range, p) >= q.Top().dist
    ensures Absorbed(q, k, seen, Of(t, p, limit)) && Q.Pushed(t, t)
  {
    SkipSon(t, p, q.Bag(), seen, k, limit, q.Top());
    Q.PushedSelf(t);
  }

  /** A son is searched if the caller says so, if there is room, or if its range is nearer than the top. */
  method VisitSon(son: Node?, always: bool, k: nat, p: Point, q: Heap, limit: Option<real>, ghost seen: Cands)
    requires ValidOf(son) && I.WF(ModelOf(son)) && Apartment(son, q)
    requires Ready(q, k, seen, Of(ModelOf(son), p, limit))
    modifies ReprOf(son), q, q.heap
    ensures ValidOf(son) && ReprOf(son) == old(ReprOf(son)) && Q.Pushed(old(ModelOf(son)), ModelOf(son))
    ensures Absorbed(q, k, seen, Of(old(ModelOf(son)), p, limit))
    decreases ReprOf(son), 6
  {
    var visit := Worth(son, always, k, p, q);
    if !visit {
      Skipped(ModelOf(son), k, p, q, limit, seen);
      return;
    }
    Search(son, k, p, q, limit, seen);
  }

  method Search(root: Node?, k: nat, p: Point, q: Heap, limit: Option<real>, ghost seen: Cands)
    requires ValidOf(root) && I.WF(ModelOf(root)) && Apartment(root, q)
    requires Ready(q, k, seen, Of(ModelOf(root), p, limit))
    modifies ReprOf(root), q, q.heap
    ensures ValidOf(root) && ReprOf(root) == old(ReprOf(root)) && Q.Pushed(old(ModelOf(root)), ModelOf(root))
    ensures Absorbed(q, k, seen, Of(old(ModelOf(root)), p, limit))
    decreases ReprOf(root), 5
  {
    Q.PushedSelf(ModelOf(root));
    if root == null || root.f.treeDeleted {
      OutOfReach(ModelOf(root), p, limit);
      return;
    }
    root.Fits();
    if limit.Some? && BoxDist(root.f.range, p) > limit.value {
      OutOfReach(root.model, p, limit);
      return;
    }
    ghost var t := root.model;
    if root.f.needPushDownToLeft || root.f.needPushDownToRight {
      root.PushDown();
    }
    assert root.model == T.PushDown(t);
    SearchBelow(root, t, k, p, q, limit, seen);
  }

  lemma Regroup(s: Cands, a: Cands, b: Cands, c: Cands)
    requires AllApart(s + (a + b + c))
    ensures AllApart(s + a) && AllApart(s + a + b + c)
    ensures s + a + (b + c) == s + (a + b + c)
  {
    assert s + (a + b + c) == s + a + b + c;
    assert forall x | x in s + a :: x in s + a + b + c;
  }

  lemma PushedJoin(t: T.Tree, u: T.Tree)
    requires t.Node? && SonsPushed(T.PushDown(t), u)
    ensures Q.Pushed(t, u)
  {
  }

  /** The point of a pushed node, then its sons. */
  method SearchBelow(root: Node, ghost t: T.Tree, k: nat, p: Point, q: Heap, limit: Option<real>, ghost seen: Cands)
    requires root.Valid() && t.Node? && I.WF(t) && root.model == T.PushDown(t) && Apartment(root, q)
    requires Ready(q, k, seen, Of(t, p, limit))
    modifies root.repr, q, q.heap
    ensures root.Valid() && root.repr == old(root.repr) && Q.Pushed(t, root.model)
    ensures Absorbed(q, k, seen, Of(t, p, limit))
    decreases root.repr, 4
  {
    ghost var u := root.model;
    ghost var own, l, r := Candidates(L.OwnLive(u), p, limit), Of(u.left, p, limit), Of(u.right, p, limit);
    CandidatesSplit(t, p, limit);
    L.Opened(t);
    Regroup(seen, own, l, r);
    OfferBeside(root, k, p, q, limit, seen);
    SearchSons(root, k, p, q, limit, seen + own);
    PushedJoin(t, root.model);
  }

  /** A node whose sons may have changed in place since its model was written. */
  ghost predicate Stale(root: Node, q: Heap)
    reads root, root.left, root.right, ReprOf(root.left), ReprOf(root.right)
  {
    && ValidOf(root.left) && ValidOf(root.right) && root.f.radiusSq == T.HalfDiagonalSq(root.f.range)
    && root !in ReprOf(root.left) && root !in ReprOf(root.right) && ReprOf(root.left) !! ReprOf(root.right)
    && root.model.Node? && root.model == Assemble(root.f, root.model.left, root.model.right)
    && root.repr == {root} + ReprOf(root.left) + ReprOf(root.right)
    && Apartment(root, q)
  }

  /** The left son has changed, the right one not. */
  ghost method RegatherLeft(root: Node, q: Heap)
    requires Stale(root, q) && q.Valid() && ModelOf(root.right) == root.model.right
    modifies root`model
    ensures root.Valid() && root.repr == old(root.repr)
    ensures root.model == old(root.model).(left := old(ModelOf(root.left)))
    ensures q.Valid() && q.Bag() == old(q.Bag())
  {
    root.Reassemble();
  }

  ghost method RegatherRight(root: Node, q: Heap)
    requires Stale(root, q) && q.Valid() && ModelOf(root.left) == root.model.left
    modifies root`model
    ensures root.Valid() && root.repr == old(root.repr)
    ensures root.model == old(root.model).(right := old(ModelOf(root.right)))
    ensures q.Valid() && q.Bag() == old(q.Bag())
  {
    root.Reassemble();
  }

  lemma SonsApart(root: Node, q: Heap)
    requires root.Valid() && Apartment(root, q)
    ensures Stale(root, q) && Apartment(root.left, q) && Apartment(root.right, q)
    ensures ModelOf(root.left) == root.model.left && ModelOf(root.right) == root.model.right
  {
  }

  /** One son changes in place, its sibling does not. */
  method VisitBeside(son: Node?, other: Node?, always: bool, k: nat, p: Point, q: Heap, limit: Option<real>,
                     ghost seen: Cands)
    requires ValidOf(son) && I.WF(ModelOf(son)) && Apartment(son, q)
    requires ValidOf(other) && Apartment(other, q) && ReprOf(son) !! ReprOf(other)
    requires Ready(q, k, seen, Of(ModelOf(son), p, limit))
    modifies ReprOf(son), q, q.heap
    ensures ValidOf(son) && ReprOf(son) == old(ReprOf(son)) && Q.Pushed(old(ModelOf(son)), ModelOf(son))
    ensures ValidOf(other) && ReprOf(other) == old(ReprOf(other)) && ModelOf(other) == old(ModelOf(other))
    ensures Absorbed(q, k, seen, Of(old(ModelOf(son)), p, limit))
    decreases ReprOf(son), 7
  {
    VisitSon(son, always, k, p, q, limit, seen);
  }

  method VisitLeft(root: Node, always: bool, k: nat, p: Point, q: Heap, limit: Option<real>, ghost seen: Cands)
    requires root.Valid() && I.WF(root.model.left) && Apartment(root, q)
    requires Ready(q, k, seen, Of(root.model.left, p, limit))
    modifies ReprOf(root.left), q, q.heap
    ensures Stale(root, q) && root.repr == old(root.repr) && root.model == old(root.model)
    ensures ModelOf(root.right) == root.model.right && Q.Pushed(root.model.left, ModelOf(root.left))
    ensures Absorbed(q, k, seen, Of(root.model.left, p, limit))
    decreases root.repr, 0
  {
    SonsApart(root, q);
    VisitBeside(root.left, root.right, always, k, p, q, limit, seen);
  }

  method VisitRight(root: Node, always: bool, k: nat, p: Point, q: Heap, limit: Option<real>, ghost seen: Cands)
    requires root.Valid() && I.WF(root.model.right) && Apartment(root, q)
    requires Ready(q, k, seen, Of(root.model.right, p, limit))
    modifies ReprOf(root.right), q, q.heap
    ensures Stale(root, q) && root.repr == old(root.repr) && root.model == old(root.model)
    ensures ModelOf(root.left) == root.model.left && Q.Pushed(root.model.right, ModelOf(root.right))
    ensures Absorbed(q, k, seen, Of(root.model.right, p, limit))
    decreases root.repr, 0
  {
    SonsApart(root, q);
    VisitBeside(root.right, root.left, always, k, p, q, limit, seen);
  }

  /** Search the left son, or visit it if that is still worth it. */
  method SearchLeft(root: Node, always: bool, k: nat, p: Point, q: Heap, limit: Option<real>, ghost seen: Cands)
    requires root.Valid() && I.WF(root.model.left) && Apartment(root, q)
    requires Ready(q, k, seen, Of(root.model.left, p, limit))
    modifies root.repr, q, q.heap
    ensures root.Valid() && root.repr == old(root.repr)
    ensures root.model == old(root.model).(left := root.model.left) && Q.Pushed(old(root.model.left), root.model.left)
    ensures Absorbed(q, k, seen, Of(old(root.model.left), p, limit))
    decreases root.repr, 1
  {
    VisitLeft(root, always, k, p, q, limit, seen);
    RegatherLeft(root, q);
  }

  /** The same for the right son. */
  method SearchRight(root: Node, always: bool, k: nat, p: Point, q: Heap, limit: Option<real>, ghost seen: Cands)
    requires root.Valid() && I.WF(root.model.right) && Apartment(root, q)
    requires Ready(q, k, seen, Of(root.model.right, p, limit))
    modifies root.repr, q, q.heap
    ensures root.Valid() && root.repr == old(root.repr)
    ensures root.model == old(root.model).(right := root.model.right)
      && Q.Pushed(old(root.model.right), root.model.right)
    ensures Absorbed(q, k, seen, Of(old(root.model.right), p, limit))
    decreases root.repr, 1
  {
    VisitRight(root, always, k, p, q, limit, seen);
    RegatherRight(root, q);
  }

  /** Which son first, and whether without a further test. */
  method Order(root: Node, k: nat, p: Point, q: Heap) returns (always: bool, leftFirst: bool)
    requires root.Valid() && q.Valid() && k >= 1
    ensures !leftFirst ==> always
  {
    always := q.heapSize < k;
    if !always {
      var cl := Closer(root.left, p, q);
      var cr := Closer(root.right, p, q);
      always := cl && cr;
    }
    leftFirst := !always || root.right == null
      || (root.left != null && BoxDist(root.left.f.range, p) <= BoxDist(root.right.f.range, p));
  }

  method SearchLeftFirst(root: Node, always: bool, k: nat, p: Point, q: Heap, limit: Option<real>, ghost seen: Cands)
    requires root.Valid() && I.WF(root.model.left) && I.WF(root.model.right) && Apartment(root, q)
    requires k >= 1 && q.Valid() && q.cap == 2 * k && BestK(q.Bag(), seen, k)
    requires AllApart(seen + Of(root.model.left, p, limit) + Of(root.model.right, p, limit))
    modifies root.repr, q, q.heap
    ensures root.Valid() && root.repr == old(root.repr)
    ensures SonsPushed(old(root.model), root.model)
    ensures Absorbed(q, k, seen, Of(old(root.model.left), p, limit) + Of(old(root.model.right), p, limit))
    decreases root.repr, 2
  {
    ghost var l, r := Of(root.model.left, p, limit), Of(root.model.right, p, limit);
    Fewer(seen, l, r);
    Orders(seen, l, r);
    SearchLeft(root, always, k, p, q, limit, seen);
    SearchRight(root, false, k, p, q, limit, seen + l);
  }

  method SearchRightFirst(root: Node, k: nat, p: Point, q: Heap, limit: Option<real>, ghost seen: Cands)
    requires root.Valid() && I.WF(root.model.left) && I.WF(root.model.right) && Apartment(root, q)
    requires k >= 1 && q.Valid() && q.cap == 2 * k && BestK(q.Bag(), seen, k)
    requires AllApart(seen + Of(root.model.left, p, limit) + Of(root.model.right, p, limit))
    modifies root.repr, q, q.heap
    ensures root.Valid() && root.repr == old(root.repr)
    ensures SonsPushed(old(root.model), root.model)
    ensures Absorbed(q, k, seen, Of(old(root.model.left), p, limit) + Of(old(root.model.right), p, limit))
    decreases root.repr, 2
  {
    ghost var l, r := Of(root.model.left, p, limit), Of(root.model.right, p, limit);
    Fewer(seen, l, r);
    Orders(seen, l, r);
    SearchRight(root, true, k, p, q, limit, seen);
    SearchLeft(root, false, k, p, q, limit, seen + r);
  }

  method SearchSons(root: Node, k: nat, p: Point, q: Heap, limit: Option<real>, ghost seen: Cands)
    requires root.Valid() && I.WF(root.model.left) && I.WF(root.model.right) && Apartment(root, q)
    requires k >= 1 && q.Valid() && q.cap == 2 * k && BestK(q.Bag(), seen, k)
    requires AllApart(seen + Of(root.model.left, p, limit) + Of(root.model.right, p, limit))
    modifies root.repr, q, q.heap
    ensures root.Valid() && root.repr == old(root.repr)
    ensures SonsPushed(old(root.model), root.model)
    ensures Absorbed(q, k, seen, Of(old(root.model.left), p, limit) + Of(old(root.model.right), p, limit))
    decreases root.repr, 3
  {
    var always, leftFirst := Order(root, k, p, q);
    if leftFirst {
      SearchLeftFirst(root, always, k, p, q, limit, seen);
    } else {
      SearchRightFirst(root, k, p, q, limit, seen);
    }
  }

  /** Only the sons changed, and only by pushing. */
  ghost predicate SonsPushed(t: T.Tree, u: T.Tree) {
    && t.Node? && u.Node? && u == t.(left := u.left, right := u.right)
    && Q.Pushed(t.left, u.left) && Q.Pushed(t.right, u.right)
  }

  lemma Orders(s: Cands, l: Cands, r: Cands)
    ensures s + (l + r) == s + l + r == s + r + l
  {
  }
}
