/** From the candidate queue to the answer: popping it yields the k nearest in ascending order. */
module Ranking {
  import opened Geometry
  import opened ManualHeap
  import opened Nearest

  function Pair(points: seq<Point>, dists: seq<real>): (r: seq<Cand>)
    requires |points| == |dists|
    ensures |r| == |points|
  {
    seq(|points|, i requires 0 <= i < |points| => Cand(points[i], dists[i]))
  }

  ghost predicate Ascending(s: seq<Cand>) { forall i, j | 0 <= i <= j < |s| :: s[i].dist <= s[j].dist }

  lemma AscendingFront(c: Cand, s: seq<Cand>)
    requires Ascending(s) && (s != [] ==> c.dist <= s[0].dist)
    ensures Ascending([c] + s)
  {
  }

  lemma OnePopped(s: seq<Cand>, q: Cands, c: Cand, all: Cands)
    requires c in q && multiset(s) + q == all && forall b | b in q :: b.dist <= c.dist
    ensures multiset([c] + s) + (q - multiset{c}) == all
    ensures forall b | b in q - multiset{c} :: b.dist <= c.dist
  {
    assert multiset([c] + s) == multiset{c} + multiset(s);
    assert q == multiset{c} + (q - multiset{c});
  }

  lemma PairFront(p: Point, d: real, points: seq<Point>, dists: seq<real>)
    requires |points| == |dists|
    ensures Pair([p] + points, [d] + dists) == [Cand(p, d)] + Pair(points, dists)
  {
  }

  /** The final loop of Nearest_Search: each top goes to the front of the answer. */
  method Drain(q: Heap, k: nat) returns (points: seq<Point>, dists: seq<real>)
    requires q.Valid() && AllApart(q.Bag()) && q.heapSize <= k
    modifies q, q.heap
    ensures |points| == |dists| && Ascending(Pair(points, dists)) && multiset(Pair(points, dists)) == old(q.Bag())
  {
    var found := if k < q.heapSize then k else q.heapSize;
    ghost var all := q.Bag();
    points, dists := [], [];
    assert multiset(Pair(points, dists)) + q.Bag() == all;
    for i := 0 to found
      invariant q.Valid() && q.heapSize == found - i && |points| == |dists|
      invariant multiset(Pair(points, dists)) + q.Bag() == all && Ascending(Pair(points, dists))
      invariant points != [] ==> forall b | b in q.Bag() :: b.dist <= dists[0]
    {
      var top := q.Top();
      OnePopped(Pair(points, dists), q.Bag(), top, all);
      AscendingFront(top, Pair(points, dists));
      PairFront(top.point, top.dist, points, dists);
      PartApart(q.Bag(), all);
      points, dists := [top.point] + points, [top.dist] + dists;
      q.Pop();
    }
    assert q.Bag() == multiset{};
  }

  lemma PartApart(q: Cands, all: Cands)
    requires q <= all && AllApart(all)
    ensures AllApart(q)
  {
  }

  /** The answer to a query over the candidates `all`: k nearest (all if fewer), nearest first. */
  ghost predicate Answers(points: seq<Point>, dists: seq<real>, all: Cands, k: nat) {
    |points| == |dists| && Ascending(Pair(points, dists)) && BestK(multiset(Pair(points, dists)), all, k)
  }

  lemma NothingSeen(q: Cands, all: Cands, k: nat)
    requires q == multiset{} && AllApart(all)
    ensures BestK(q, multiset{}, k) && AllApart(multiset{} + all)
  {
    assert multiset{} + all == all;
  }

  lemma AllSeen(q: Cands, all: Cands, k: nat)
    requires BestK(q, multiset{} + all, k) && AllApart(all)
    ensures BestK(q, all, k) && AllApart(q) && |q| <= k
  {
    assert multiset{} + all == all;
  }

  // ----- against brute force -----

  /** `s` without s[j], the first element in its place. */
  function Without(s: seq<Cand>, j: nat): (r: seq<Cand>)
    requires j < |s|
    ensures |r| == |s| - 1
  {
    if j == 0 then s[1..] else s[1..j] + [s[0]] + s[j + 1..]
  }

  /** Where s[j] is as near as the first element, the distances only move up. */
  lemma WithoutDists(s: seq<Cand>, j: nat)
    requires Ascending(s) && j < |s| && s[j].dist == s[0].dist
    ensures Ascending(Without(s, j))
    ensures forall i | 0 <= i < |s| - 1 :: Without(s, j)[i].dist == s[i + 1].dist
  {
  }

  lemma WithoutBag(s: seq<Cand>, j: nat)
    requires j < |s|
    ensures multiset(Without(s, j)) == multiset(s) - multiset{s[j]}
  {
    if j == 0 {
      assert s == [s[0]] + s[1..];
    } else {
      assert s == [s[0]] + s[1..j] + [s[j]] + s[j + 1..];
    }
  }

  lemma InBag(s: seq<Cand>, i: nat)
    requires i < |s|
    ensures s[i] in multiset(s)
  {
  }

  /** The nearest of the k nearest is a nearest of all. */
  lemma FirstInAll(best: seq<Cand>, scan: seq<Cand>, k: nat)
    requires BestK(multiset(best), multiset(scan), k) && Ascending(best) && Ascending(scan) && best != []
    ensures best[0] in scan && scan != [] && best[0].dist == scan[0].dist
  {
    var q, all := multiset(best), multiset(scan);
    InBag(best, 0);
    assert best[0] in all;
    InBag(scan, 0);
    if scan[0] in q {
      assert scan[0] in best;
    } else {
      assert scan[0] in all - q;
    }
  }

  lemma RestIsBest(q: Cands, all: Cands, k: nat, c: Cand)
    requires BestK(q, all, k) && c in q && k >= 1
    ensures BestK(q - multiset{c}, all - multiset{c}, k - 1)
  {
    assert (all - multiset{c}) - (q - multiset{c}) == all - q;
  }

  /** What brute force means for `best`: the distances of the first k of the scan. */
  ghost predicate FirstOf(best: seq<Cand>, scan: seq<Cand>, k: nat) {
    && |best| == (if |scan| < k then |scan| else k)
    && forall i | 0 <= i < |best| :: best[i].dist == scan[i].dist
  }

  lemma OneMore(best: seq<Cand>, scan: seq<Cand>, j: nat, k: nat)
    requires Ascending(scan) && best != [] && j < |scan| && scan[j] == best[0] && scan[j].dist == scan[0].dist && k >= 1
    requires FirstOf(best[1..], Without(scan, j), k - 1)
    ensures FirstOf(best, scan, k)
  {
    WithoutDists(scan, j);
    forall i | 0 <= i < |best| ensures best[i].dist == scan[i].dist {
      if i > 0 { assert best[1..][i - 1] == best[i]; }
    }
  }

  lemma NothingFound(scan: seq<Cand>, k: nat)
    requires BestK(multiset{}, multiset(scan), k)
    ensures FirstOf([], scan, k)
  {
    assert |multiset(scan)| == |scan|;
  }

  /** Both listings without the nearest candidate. */
  lemma Smaller(best: seq<Cand>, scan: seq<Cand>, k: nat, j: nat)
    requires BestK(multiset(best), multiset(scan), k) && best != [] && j < |scan| && scan[j] == best[0]
    ensures k >= 1 && BestK(multiset(best[1..]), multiset(Without(scan, j)), k - 1)
  {
    WithoutBag(scan, j);
    WithoutBag(best, 0);
    InBag(best, 0);
    assert |multiset(best)| == |best|;
    RestIsBest(multiset(best), multiset(scan), k, best[0]);
  }

  lemma Spot(best: seq<Cand>, scan: seq<Cand>, k: nat) returns (j: nat)
    requires BestK(multiset(best), multiset(scan), k) && Ascending(best) && Ascending(scan) && best != []
    ensures j < |scan| && scan[j] == best[0] && scan[j].dist == scan[0].dist
  {
    FirstInAll(best, scan, k);
    j :| 0 <= j < |scan| && scan[j] == best[0];
  }

  lemma Peel(best: seq<Cand>, scan: seq<Cand>, k: nat) returns (j: nat)
    requires BestK(multiset(best), multiset(scan), k) && Ascending(best) && Ascending(scan) && best != []
    ensures j < |scan| && scan[j] == best[0] && scan[j].dist == scan[0].dist && k >= 1
    ensures BestK(multiset(best[1..]), multiset(Without(scan, j)), k - 1)
    ensures Ascending(best[1..]) && Ascending(Without(scan, j))
  {
    j := Spot(best, scan, k);
    Smaller(best, scan, k, j);
    WithoutDists(scan, j);
  }

  /** An ascending listing of k nearest has the distances of the first k of any ascending listing
      of all candidates. */
  lemma {:induction false} BruteForce(best: seq<Cand>, scan: seq<Cand>, k: nat)
    requires BestK(multiset(best), multiset(scan), k) && Ascending(best) && Ascending(scan)
    ensures FirstOf(best, scan, k)
    decreases |best|
  {
    if best == [] {
      NothingFound(scan, k);
    } else {
      var j := Peel(best, scan, k);
      BruteForce(best[1..], Without(scan, j), k - 1);
      OneMore(best, scan, j, k);
    }
  }

  /** The distances returned are, in order, the first k of any brute-force scan of the candidates. */
  lemma AnswersBruteForce(points: seq<Point>, dists: seq<real>, scan: seq<Cand>, k: nat)
    requires Answers(points, dists, multiset(scan), k) && Ascending(scan)
    ensures |dists| == (if |scan| < k then |scan| else k)
    ensures forall i | 0 <= i < |dists| :: dists[i] == scan[i].dist
  {
    BruteForce(Pair(points, dists), scan, k);
  }
}
