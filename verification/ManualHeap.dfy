/** MANUAL_HEAP: a bounded max-heap of search candidates in an array, sifted with a hole. */
module ManualHeap {
  import opened Geometry

  datatype Cand = Cand(point: Point, dist: real)

  type Cands = multiset<Cand>

  const TIE: real := 0.0000000001

  function AbsDiff(a: real, b: real): real { if a < b then b - a else a - b }

  /** `operator <`: distances closer than 1e-10 count as equal and are ordered by x. */
  predicate Less(a: Cand, b: Cand) {
    if AbsDiff(a.dist, b.dist) < TIE then a.point.x < b.point.x else a.dist < b.dist
  }

  /** The tolerance does not confuse the two: equal distances, or 1e-10 apart, or in the order of x. */
  predicate Apart(a: Cand, b: Cand) {
    || a.dist == b.dist || AbsDiff(a.dist, b.dist) >= TIE
    || if a.dist < b.dist then a.point.x < b.point.x else b.point.x < a.point.x
  }

  ghost predicate AllApart(m: Cands) { forall a, b | a in m && b in m :: Apart(a, b) }

  /** The outcome of `a < b` tells how the distances lie. */
  predicate Tells(a: Cand, b: Cand) { if Less(a, b) then a.dist <= b.dist else b.dist <= a.dist }

  /** That is exactly when `operator <` does not contradict the distances, either way round. */
  lemma LessMeans(a: Cand, b: Cand)
    ensures Apart(a, b) <==> Tells(a, b) && Tells(b, a)
  {
  }

  /** Within the tolerance the order follows x: the "larger" of two candidates may be nearer. */
  lemma ToleranceMisorders(near: Cand, far: Cand)
    requires near.dist < far.dist
    ensures Less(far, near) <==> far.dist - near.dist < TIE && far.point.x < near.point.x
  {
  }

  /** `operator <` is no order: three candidates in a circle. */
  lemma LessCycles() returns (a: Cand, b: Cand, c: Cand)
    ensures Less(a, b) && Less(b, c) && Less(c, a)
  {
    a := Cand(Point(0.0, 0.0, 0.0), 0.00000000012);
    b := Cand(Point(1.0, 0.0, 0.0), 0.00000000006);
    c := Cand(Point(2.0, 0.0, 0.0), 0.0);
  }

  function Parent(i: nat): nat
    requires i > 0
  {
    (i - 1) / 2
  }

  /** No child in s[..n] is farther than its parent, children of `hole` excepted. */
  ghost predicate DownOrdered(s: seq<Cand>, n: nat, hole: nat)
    requires n <= |s|
  {
    forall i | 0 < i < n :: Parent(i) != hole ==> s[i].dist <= s[Parent(i)].dist
  }

  /** ... `hole` itself excepted. */
  ghost predicate UpOrdered(s: seq<Cand>, n: nat, hole: nat)
    requires n <= |s|
  {
    forall i | 0 < i < n :: i != hole ==> s[i].dist <= s[Parent(i)].dist
  }

  /** The children of `hole` are no farther than its parent. */
  ghost predicate Bridged(s: seq<Cand>, n: nat, hole: nat)
    requires n <= |s|
  {
    0 < hole < n ==> forall i | 0 < i < n && Parent(i) == hole :: s[i].dist <= s[Parent(hole)].dist
  }

  ghost predicate HeapOrdered(s: seq<Cand>) {
    forall i | 0 < i < |s| :: s[i].dist <= s[Parent(i)].dist
  }

  /** The top of a heap is a farthest element. */
  lemma {:induction false} TopIsFarthest(s: seq<Cand>, i: nat)
    requires HeapOrdered(s) && i < |s|
    ensures s[i].dist <= s[0].dist
  {
    if i > 0 { TopIsFarthest(s, Parent(i)); }
  }

  function Swap(s: seq<Cand>, i: nat, j: nat): (r: seq<Cand>)
    requires i < |s| && j < |s|
  {
    s[i := s[j]][j := s[i]]
  }

  lemma SwapPermutes(s: seq<Cand>, i: nat, j: nat, n: nat)
    requires i < n && j < n && n <= |s|
    ensures multiset(Swap(s, i, j)[..n]) == multiset(s[..n])
  {
    var t := s[..n];
    assert Swap(s, i, j)[..n] == t[i := t[j]][j := t[i]];
  }

  /** Pulling the farther child `c` up into the hole moves the hole to `c`. */
  lemma SiftDown(s: seq<Cand>, n: nat, hole: nat, c: nat)
    requires n <= |s| && hole < n && 0 < c < n && Parent(c) == hole
    requires DownOrdered(s, n, hole) && Bridged(s, n, hole)
    requires s[hole].dist <= s[c].dist
    requires forall i | 0 < i < n && Parent(i) == hole :: s[i].dist <= s[c].dist
    ensures var t := Swap(s, hole, c); DownOrdered(t, n, c) && Bridged(t, n, c)
  {
  }

  lemma SiftUpOrdered(s: seq<Cand>, n: nat, hole: nat)
    requires n <= |s| && 0 < hole < n && UpOrdered(s, n, hole) && Bridged(s, n, hole)
    requires s[Parent(hole)].dist <= s[hole].dist
    ensures UpOrdered(Swap(s, hole, Parent(hole)), n, Parent(hole))
  {
  }

  lemma SiftUpBridged(s: seq<Cand>, n: nat, hole: nat)
    requires n <= |s| && 0 < hole < n && UpOrdered(s, n, hole)
    requires s[Parent(hole)].dist <= s[hole].dist
    ensures Bridged(Swap(s, hole, Parent(hole)), n, Parent(hole))
  {
  }

  /** Pulling the parent down into the hole moves the hole to the parent. */
  lemma SiftUp(s: seq<Cand>, n: nat, hole: nat)
    requires n <= |s| && 0 < hole < n
    requires UpOrdered(s, n, hole) && Bridged(s, n, hole)
    requires s[Parent(hole)].dist <= s[hole].dist
    ensures var t := Swap(s, hole, Parent(hole)); UpOrdered(t, n, Parent(hole)) && Bridged(t, n, Parent(hole))
  {
    SiftUpOrdered(s, n, hole);
    SiftUpBridged(s, n, hole);
  }

  /** The hole is filled for good once no child of it is farther. */
  lemma SiftDone(s: seq<Cand>, n: nat, hole: nat)
    requires n <= |s| && hole < |s| && DownOrdered(s, n, hole)
    requires forall i | 0 < i < n && Parent(i) == hole :: s[i].dist <= s[hole].dist
    ensures HeapOrdered(s[..n])
  {
  }

  lemma ApartAt(s: seq<Cand>, n: nat, i: nat, j: nat)
    requires n <= |s| && AllApart(multiset(s[..n])) && i < n && j < n
    ensures Apart(s[i], s[j])
  {
    assert s[..n][i] in multiset(s[..n]) && s[..n][j] in multiset(s[..n]);
  }

  /** Apart outside the hole. */
  ghost predicate AllApartIn(s: seq<Cand>, n: nat, hole: nat)
    requires n <= |s|
  {
    forall i, j | 0 <= i < n && 0 <= j < n && i != hole && j != hole :: Apart(s[i], s[j])
  }

  lemma ApartInside(v: seq<Cand>, s: seq<Cand>, n: nat, hole: nat)
    requires n <= |v| == |s| && (forall i | 0 <= i < |v| && i != hole :: s[i] == v[i]) && AllApart(multiset(v[..n]))
    ensures AllApartIn(s, n, hole)
  {
    forall i, j | 0 <= i < n && 0 <= j < n && i != hole && j != hole ensures Apart(s[i], s[j]) {
      ApartAt(v, n, i, j);
    }
  }

  /** Halfway through a sift: the array `s` is `v` but for the hole, and `v` holds the bag `m`. */
  ghost predicate Sifting(v: seq<Cand>, s: seq<Cand>, n: nat, hole: nat, m: Cands) {
    && n <= |v| == |s| && hole < |v|
    && (forall i | 0 <= i < |v| && i != hole :: s[i] == v[i])
    && Bridged(v, n, hole) && multiset(v[..n]) == m
  }

  lemma StepDown(v: seq<Cand>, s: seq<Cand>, n: nat, hole: nat, c: nat, m: Cands)
    requires Sifting(v, s, n, hole, m) && DownOrdered(v, n, hole) && hole < n && 0 < c < n && Parent(c) == hole
    requires v[hole].dist <= s[c].dist
    requires forall i | 0 < i < n && Parent(i) == hole :: s[i].dist <= s[c].dist
    ensures var t := Swap(v, hole, c);
      t[c] == v[hole] && DownOrdered(t, n, c) && Sifting(t, s[hole := s[c]], n, c, m)
  {
    SiftDown(v, n, hole, c);
    SwapPermutes(v, hole, c, n);
  }

  lemma StepUp(v: seq<Cand>, s: seq<Cand>, n: nat, hole: nat, m: Cands)
    requires Sifting(v, s, n, hole, m) && UpOrdered(v, n, hole) && 0 < hole < n
    requires s[Parent(hole)].dist <= v[hole].dist
    ensures var t := Swap(v, hole, Parent(hole));
      t[Parent(hole)] == v[hole] && UpOrdered(t, n, Parent(hole))
      && Sifting(t, s[hole := s[Parent(hole)]], n, Parent(hole), m)
  {
    SiftUp(v, n, hole);
    SwapPermutes(v, hole, Parent(hole), n);
  }

  lemma Filled(v: seq<Cand>, s: seq<Cand>, n: nat, hole: nat, m: Cands)
    requires Sifting(v, s, n, hole, m)
    ensures s[hole := v[hole]] == v
  {
  }

  lemma Appended(t: seq<Cand>, s: seq<Cand>, c: Cand)
    requires |s| < |t| && t[..|s|] == s && t[|s|] == c && HeapOrdered(s)
    ensures UpOrdered(t, |s| + 1, |s|) && multiset(t[..|s| + 1]) == multiset(s) + multiset{c}
  {
    assert t[..|s| + 1] == s + [c];
    assert forall i | 0 <= i < |s| :: t[i] == s[i];
  }

  class Heap {
    var heapSize: nat
    const cap: nat
    const heap: array<Cand>

    ghost predicate Valid()
      reads this, heap
    {
      heap.Length == cap && heapSize <= cap && HeapOrdered(heap[..heapSize])
    }

    ghost function Bag(): Cands
      reads this, heap
      requires heapSize <= heap.Length
    {
      multiset(heap[..heapSize])
    }

    constructor (maxCapacity: nat)
      ensures Valid() && cap == maxCapacity && heapSize == 0 && Bag() == multiset{}
      ensures fresh(heap)
    {
      cap := maxCapacity;
      heap := new Cand[maxCapacity](_ => Cand(Point(0.0, 0.0, 0.0), 0.0));
      heapSize := 0;
    }

    function Top(): (c: Cand)
      requires Valid() && heapSize > 0
      reads this, heap
      ensures c in Bag() && forall b | b in Bag() :: b.dist <= c.dist
    {
      assert heap[0] == heap[..heapSize][0];
      assert forall b | b in Bag() :: b.dist <= heap[0].dist by {
        forall b | b in Bag() ensures b.dist <= heap[0].dist {
          var i :| 0 <= i < heapSize && heap[..heapSize][i] == b;
          TopIsFarthest(heap[..heapSize], i);
        }
      }
      heap[0]
    }

    /** The child of `hole` to compare with: the right one if the left is less. */
    method FartherChild(hole: nat) returns (c: nat)
      requires heap.Length == cap && hole * 2 + 1 < heapSize <= cap && AllApartIn(heap[..], heapSize, hole)
      ensures hole < c < heapSize && Parent(c) == hole
      ensures forall i | 0 < i < heapSize && Parent(i) == hole :: heap[i].dist <= heap[c].dist
    {
      c := hole * 2 + 1;
      if c + 1 < heapSize {
        LessMeans(heap[c], heap[c + 1]);
        if Less(heap[c], heap[c + 1]) { c := c + 1; }
      }
    }

    method MoveDown(index: nat)
      requires heap.Length == cap && heapSize <= cap && index < cap
      requires DownOrdered(heap[..], heapSize, index) && Bridged(heap[..], heapSize, index)
      requires AllApart(Bag())
      modifies heap
      ensures Valid() && Bag() == old(Bag())
    {
      var heapIndex := index;
      var tmp := heap[heapIndex];
      ghost var v, m, done := heap[..], Bag(), false;
      while heapIndex * 2 + 1 < heapSize
        invariant Sifting(v, heap[..], heapSize, heapIndex, m) && v[heapIndex] == tmp
        invariant DownOrdered(v, heapSize, heapIndex)
        decreases heapSize - heapIndex
      {
        ApartInside(v, heap[..], heapSize, heapIndex);
        var l := FartherChild(heapIndex);
        ApartAt(v, heapSize, heapIndex, l);
        LessMeans(tmp, heap[l]);
        if Less(tmp, heap[l]) {
          StepDown(v, heap[..], heapSize, heapIndex, l, m);
          v := Swap(v, heapIndex, l);
          heap[heapIndex] := heap[l];
          heapIndex := l;
        } else {
          SiftDone(v, heapSize, heapIndex);
          done := true;
          break;
        }
      }
      if !done { SiftDone(v, heapSize, heapIndex); }
      Filled(v, heap[..], heapSize, heapIndex, m);
      heap[heapIndex] := tmp;
      assert heap[..] == v;
    }

    method FloatUp(index: nat)
      requires heap.Length == cap && index < cap
      requires UpOrdered(heap[..], index + 1, index)
      requires AllApart(multiset(heap[..index + 1]))
      modifies heap
      ensures HeapOrdered(heap[..index + 1]) && multiset(heap[..index + 1]) == old(multiset(heap[..index + 1]))
    {
      var heapIndex := index;
      var tmp := heap[heapIndex];
      ghost var n, v, m := index + 1, heap[..], multiset(heap[..index + 1]);
      while heapIndex > 0
        invariant Sifting(v, heap[..], n, heapIndex, m) && v[heapIndex] == tmp && heapIndex < n
        invariant UpOrdered(v, n, heapIndex)
      {
        var ancestor := (heapIndex - 1) / 2;
        ApartAt(v, n, ancestor, heapIndex);
        LessMeans(heap[ancestor], tmp);
        if Less(heap[ancestor], tmp) {
          StepUp(v, heap[..], n, heapIndex, m);
          v := Swap(v, heapIndex, ancestor);
          heap[heapIndex] := heap[ancestor];
          heapIndex := ancestor;
        } else {
          break;
        }
      }
      Filled(v, heap[..], n, heapIndex, m);
      heap[heapIndex] := tmp;
      assert heap[..] == v;
    }

    method Pop()
      requires Valid() && AllApart(Bag())
      modifies this, heap
      ensures Valid()
      ensures if old(heapSize) == 0 then heapSize == 0 && Bag() == old(Bag())
              else heapSize == old(heapSize) - 1 && Bag() == old(Bag()) - multiset{old(heap[0])}
    {
      if heapSize == 0 {
        return;
      }
      ghost var s := heap[..heapSize];
      heap[0] := heap[heapSize - 1];
      heapSize := heapSize - 1;
      PopBag(s, heap[..heapSize]);
      MoveDown(0);
    }

    method Push(c: Cand)
      requires Valid() && AllApart(Bag() + multiset{c})
      modifies this, heap
      ensures Valid()
      ensures if old(heapSize) >= cap then heapSize == old(heapSize) && Bag() == old(Bag())
              else heapSize == old(heapSize) + 1 && Bag() == old(Bag()) + multiset{c}
    {
      if heapSize >= cap {
        return;
      }
      ghost var s := heap[..heapSize];
      heap[heapSize] := c;
      Appended(heap[..], s, c);
      assert heap[..heapSize + 1] == heap[..][..heapSize + 1];
      FloatUp(heapSize);
      heapSize := heapSize + 1;
    }
  }

  lemma PopBag(s: seq<Cand>, t: seq<Cand>)
    requires |s| > 0 && |t| == |s| - 1
    requires forall i | 0 < i < |t| :: t[i] == s[i]
    requires |t| > 0 ==> t[0] == s[|s| - 1]
    ensures multiset(t) == multiset(s) - multiset{s[0]}
  {
    if |s| == 1 {
      assert s == [s[0]] && t == [];
    } else {
      var mid, last := s[1..|s| - 1], [s[|s| - 1]];
      assert s == [s[0]] + mid + last;
      assert t == last + mid;
      assert multiset(s) == multiset{s[0]} + multiset(mid) + multiset(last);
    }
  }
}
