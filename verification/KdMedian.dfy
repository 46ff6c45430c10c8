/** BuildTree of a cloud with one point in the middle of its longest axis: what is left and right of
    it, whatever nth_element does. */
module KdMedian {
  import opened Geometry
  import opened KdTree
  import opened KdInvariant
  import opened KdLive
  import opened KdExact

  /** `p` is the middle along x: `lo` before it, `hi` behind it. */
  ghost predicate Around(m: Bag, lo: Bag, p: Point, hi: Bag) {
    && m == lo + multiset{p} + hi
    && (forall q | q in lo :: q.x < p.x) && (forall q | q in hi :: p.x < q.x)
    && |lo| <= |hi| <= |lo| + 1
  }

  function Copies(p: Point, n: nat): Bag { multiset{}[p := n] }

  function Row(p: Point, n: nat): seq<Point> { if n == 0 then [] else Row(p, n - 1) + [p] }

  lemma {:induction false} RowBag(p: Point, n: nat)
    ensures multiset(Row(p, n)) == Copies(p, n)
  {
    if n > 0 { RowBag(p, n - 1); }
  }

  lemma Fills(part: Bag, whole: Bag)
    requires part <= whole && |part| == |whole|
    ensures part == whole
  {
    assert whole == part + (whole - part);
  }

  lemma Before(m: Bag, lo: Bag, p: Point, hi: Bag, s: seq<Point>)
    requires Around(m, lo, p, hi) && multiset(s) <= m && forall q | q in s :: q.x < p.x
    ensures multiset(s) <= lo && |s| <= |lo|
  {
    forall q ensures multiset(s)[q] <= lo[q] { if q in multiset(s) { assert q !in hi && q != p; } }
    assert lo == multiset(s) + (lo - multiset(s));
  }

  lemma Behind(m: Bag, lo: Bag, p: Point, hi: Bag, s: seq<Point>)
    requires Around(m, lo, p, hi) && multiset(s) <= m && forall q | q in s :: p.x < q.x
    ensures multiset(s) <= hi && |s| <= |hi|
  {
    forall q ensures multiset(s)[q] <= hi[q] { if q in multiset(s) { assert q !in lo && q != p; } }
    assert hi == multiset(s) + (hi - multiset(s));
  }

  ghost predicate SplitAt(r: seq<Point>, k: nat) {
    && k < |r|
    && (forall i | 0 <= i < k :: r[i].x <= r[k].x) && (forall i | k < i < |r| :: r[k].x <= r[i].x)
  }

  lemma Slices(r: seq<Point>, k: nat)
    requires k < |r|
    ensures multiset(r) == multiset(r[..k]) + multiset{r[k]} + multiset(r[k + 1..])
    ensures multiset(r[..k + 1]) <= multiset(r) && multiset(r[k..]) <= multiset(r)
  {
    assert r == r[..k] + [r[k]] + r[k + 1..];
    assert r[..k + 1] == r[..k] + [r[k]] && r[k..] == [r[k]] + r[k + 1..];
  }

  lemma Count(r: seq<Point>, lo: Bag, p: Point, hi: Bag)
    requires Around(multiset(r), lo, p, hi)
    ensures |r| == |lo| + 1 + |hi|
  {
    assert |r| == |multiset(r)|;
  }

  lemma NotBefore(r: seq<Point>, lo: Bag, p: Point, hi: Bag)
    requires Around(multiset(r), lo, p, hi) && SplitAt(r, |lo|)
    ensures p.x <= r[|lo|].x
  {
    var front := r[..|lo| + 1];
    Slices(r, |lo|);
    if r[|lo|].x < p.x {
      assert forall q | q in front :: q.x < p.x;
      Before(multiset(r), lo, p, hi, front);
    }
  }

  lemma NotAfter(r: seq<Point>, lo: Bag, p: Point, hi: Bag)
    requires Around(multiset(r), lo, p, hi) && SplitAt(r, |lo|)
    ensures r[|lo|].x <= p.x
  {
    var back := r[|lo|..];
    Slices(r, |lo|);
    Count(r, lo, p, hi);
    if p.x < r[|lo|].x {
      assert forall q | q in back :: p.x < q.x;
      Behind(multiset(r), lo, p, hi, back);
    }
  }

  lemma Unlike(m: Bag, lo: Bag, p: Point, hi: Bag, q: Point)
    requires Around(m, lo, p, hi) && q in m && q.x == p.x
    ensures q == p && m[p] == 1
  {
  }

  lemma MiddleIs(r: seq<Point>, lo: Bag, p: Point, hi: Bag)
    requires Around(multiset(r), lo, p, hi) && SplitAt(r, |lo|)
    ensures r[|lo|] == p
  {
    NotBefore(r, lo, p, hi);
    NotAfter(r, lo, p, hi);
    assert r[|lo|] in multiset(r);
    Unlike(multiset(r), lo, p, hi, r[|lo|]);
  }

  lemma FrontIs(r: seq<Point>, lo: Bag, p: Point, hi: Bag)
    requires Around(multiset(r), lo, p, hi) && SplitAt(r, |lo|) && r[|lo|] == p
    ensures multiset(r[..|lo|]) == lo
  {
    var a := r[..|lo|];
    Slices(r, |lo|);
    Unlike(multiset(r), lo, p, hi, p);
    forall q | q in a ensures q.x < p.x {
      assert q in multiset(a) && multiset(a)[p] == 0;
      if q.x == p.x { Unlike(multiset(r), lo, p, hi, q); }
    }
    Before(multiset(r), lo, p, hi, a);
    Fills(multiset(a), lo);
  }

  lemma BackIs(r: seq<Point>, lo: Bag, p: Point, hi: Bag)
    requires Around(multiset(r), lo, p, hi) && SplitAt(r, |lo|) && r[|lo|] == p
    ensures multiset(r[|lo| + 1..]) == hi
  {
    var b := r[|lo| + 1..];
    Slices(r, |lo|);
    Count(r, lo, p, hi);
    Unlike(multiset(r), lo, p, hi, p);
    forall q | q in b ensures p.x < q.x {
      assert q in multiset(b) && multiset(b)[p] == 0;
      if q.x == p.x { Unlike(multiset(r), lo, p, hi, q); }
    }
    Behind(multiset(r), lo, p, hi, b);
    Fills(multiset(b), hi);
  }

  /** The built tree: nothing pending, nothing marked, the two sides as told. */
  ghost predicate Halved(t: Tree, lo: Bag, p: Point, hi: Bag) {
    && t.Node? && WF(t) && Exact(t) && t.point == p && t.axis == 0
    && Live(t.left) == lo && Live(t.right) == hi && Size(t.left) == |lo| && Size(t.right) == |hi|
    && !t.pointDel && !t.treeDel && !t.pushLeft && !t.pushRight
  }

  lemma PivotedSplits(s: seq<Point>, cfg: Config)
    requires s != [] && LongestAxis(Bounds(s)) == 0
    ensures var r := Pivoted(s, cfg); multiset(r) == multiset(s) && |r| == |s| && SplitAt(r, (|s| - 1) / 2)
  {
    var mid, r := (|s| - 1) / 2, Pivoted(s, cfg);
    assert forall i | 0 <= i < mid :: r[i].At(0) <= r[mid].At(0);
    assert forall i | mid < i < |r| :: r[mid].At(0) <= r[i].At(0);
  }

  /** The middle element and what is on its sides. */
  ghost predicate Parted(r: seq<Point>, mid: nat, lo: Bag, p: Point, hi: Bag) {
    mid < |r| && r[mid] == p && multiset(r[..mid]) == lo && multiset(r[mid + 1..]) == hi
  }

  lemma BuildHalves(s: seq<Point>, lo: Bag, p: Point, hi: Bag, cfg: Config)
    requires s != [] && LongestAxis(Bounds(s)) == 0
    requires Parted(Pivoted(s, cfg), (|s| - 1) / 2, lo, p, hi)
    ensures Halved(BuildTree(s, cfg), lo, p, hi)
  {
    var r, mid := Pivoted(s, cfg), (|s| - 1) / 2;
    BuildOk(r[..mid], cfg);
    BuildOk(r[mid + 1..], cfg);
    BuildOk(s, cfg);
    BuildExact(s, cfg);
  }

  lemma SidesAre(r: seq<Point>, lo: Bag, p: Point, hi: Bag, mid: nat)
    requires Around(multiset(r), lo, p, hi) && SplitAt(r, mid) && mid == |lo|
    ensures Parted(r, mid, lo, p, hi)
  {
    MiddleIs(r, lo, p, hi);
    FrontIs(r, lo, p, hi);
    BackIs(r, lo, p, hi);
  }

  lemma BuildAround(s: seq<Point>, lo: Bag, p: Point, hi: Bag, cfg: Config)
    requires Around(multiset(s), lo, p, hi) && LongestAxis(Bounds(s)) == 0
    ensures Halved(BuildTree(s, cfg), lo, p, hi)
  {
    Count(s, lo, p, hi);
    PivotedSplits(s, cfg);
    SidesAre(Pivoted(s, cfg), lo, p, hi, (|s| - 1) / 2);
    BuildHalves(s, lo, p, hi, cfg);
  }

  lemma {:induction false} BoundsWithin(s: seq<Point>, b: Box)
    requires s != [] && forall i | 0 <= i < |s| :: InRange(b, s[i])
    ensures Within(Bounds(s), b) && forall i | 0 <= i < |s| :: InRange(Bounds(s), s[i])
  {
    if |s| > 1 { BoundsWithin(s[..|s| - 1], b); }
  }
}
