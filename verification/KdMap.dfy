/** KD_TREE as its users see it: the root pointer, the lists of removed points and the log. */
module KdMap {
  import opened Geometry
  import opened KdNode
  import opened KdVoxel
  import opened KdBatch
  import T = KdTree
  import I = KdInvariant
  import E = Norm
  import Q = KdQuery
  import H = ManualHeap
  import N = Nearest
  import K = Ranking
  import R = KdRun
  import C = KdCalls

  lemma PerformedNone(g: Progress, allow: bool, cfg: T.Config)
    ensures Performed(g, [], allow, cfg) == g
  {
    assert g.removed + [] == g.removed;
  }

  lemma PerformMore(t: T.Tree, ops: seq<R.Op>, op: R.Op, allow: bool, cfg: T.Config)
    ensures var f := Perform(t, ops, allow, cfg);
      var r := R.Apply(f.tree, op, allow, cfg);
      Perform(t, ops + [op], allow, cfg) == T.Outcome(r.tree, f.count + r.count, f.removed + r.removed)
  {
    var all := ops + [op];
    assert all[..|all| - 1] == ops && all[|all| - 1] == op;
  }

  lemma Associates(a: seq<Point>, b: seq<Point>, c: seq<Point>)
    ensures a + (b + c) == a + b + c
  {
  }

  lemma PerformedMore(g: Progress, ops: seq<R.Op>, op: R.Op, allow: bool, cfg: T.Config)
    ensures Performed(g, ops + [op], allow, cfg) == Applied(Performed(g, ops, allow, cfg), op, allow, cfg)
  {
    var f := Perform(g.tree, ops, allow, cfg);
    PerformMore(g.tree, ops, op, allow, cfg);
    Associates(g.removed, f.removed, R.Apply(f.tree, op, allow, cfg).removed);
  }

  lemma PerformedOne(g: Progress, op: R.Op, allow: bool, cfg: T.Config)
    ensures Performed(g, [op], allow, cfg) == Applied(g, op, allow, cfg)
  {
    PerformedNone(g, allow, cfg);
    PerformedMore(g, [], op, allow, cfg);
    assert [] + [op] == [op];
  }

  lemma PerformedTwo(g: Progress, a: R.Op, b: R.Op, allow: bool, cfg: T.Config)
    ensures Performed(g, [a] + [b], allow, cfg) == Applied(Applied(g, a, allow, cfg), b, allow, cfg)
  {
    PerformedOne(g, a, allow, cfg);
    PerformedMore(g, [a], b, allow, cfg);
  }

  lemma InsertUsesClosest(g: Progress, p: Point, v: Box, seen: Glance, cfg: T.Config)
    ensures var q := InVoxel(g.tree, v, true);
      InsertIn(g, p, v, true, seen, cfg)
        == Carry(g, q.tree, OpsFor(p, q.points, v, Closest(p, q.points, FromMiddle(v))), true, seen, cfg)
  {
  }

  lemma CarryNothing(g: Progress, t: T.Tree, thin: bool, seen: Glance, cfg: T.Config)
    ensures Carry(g, t, [], thin, seen, cfg) == g.(tree := t)
  {
    PerformedNone(g.(tree := t), !seen.wholeTree, cfg);
    assert g.log + [] == g.log;
  }

  const DOWNSAMPLE_SWITCH := true

  lemma InsertAllMore(g: Progress, points: seq<Point>, i: nat, thin: bool, seen: nat -> Glance, cfg: T.Config)
    requires cfg.voxel > 0.0 && i < |points|
    ensures InsertAll(g, points[..i + 1], thin, seen, cfg)
         == Insert(InsertAll(g, points[..i], thin, seen, cfg), points[i], thin, seen(i), cfg)
  {
    assert points[..i + 1][..i] == points[..i];
  }

  lemma DeleteBoxesMore(g: Progress, boxes: seq<Box>, i: nat, seen: nat -> Glance, cfg: T.Config)
    requires i < |boxes|
    ensures DeleteBoxes(g, boxes[..i + 1], seen, cfg)
         == DeleteOneBox(DeleteBoxes(g, boxes[..i], seen, cfg), boxes[i], seen(i), cfg)
  {
    assert boxes[..i + 1][..i] == boxes[..i];
  }

  /** The limit on squared distances; `None` is INFINITY. */
  function SquareLimit(maxDist: Option<real>): Option<real> {
    match maxDist case None => None case Some(d) => Some(d * d)
  }

  /** Within that limit is exactly what is no farther than `d`. */
  lemma LimitIsRadius(p: Point, q: Point, d: real, sqrt: real -> real)
    requires E.IsSqrt(sqrt) && d >= 0.0
    ensures N.Reach(Dist(p, q), SquareLimit(Some(d))) <==> sqrt(Dist(p, q)) <= d
  {
    var r := E.RootOf(p, q, sqrt);
    E.RootOrder(r, d);
  }

  /** A queue holding k nearest candidates. */
  method Collect(root: Node?, p: Point, k: nat, limit: Option<real>) returns (q: H.Heap)
    requires ValidOf(root) && I.WF(ModelOf(root)) && k >= 1
    requires H.AllApart(N.Of(ModelOf(root), p, limit))
    modifies ReprOf(root)
    ensures ValidOf(root) && ReprOf(root) == old(ReprOf(root)) && Q.Pushed(old(ModelOf(root)), ModelOf(root))
    ensures fresh(q) && fresh(q.heap) && q !in ReprOf(root) && q.heap !in ReprOf(root)
    ensures q.Valid() && N.BestK(q.Bag(), N.Of(old(ModelOf(root)), p, limit), k)
    ensures H.AllApart(q.Bag()) && q.heapSize <= k
  {
    ghost var all := N.Of(ModelOf(root), p, limit);
    q := new H.Heap(2 * k);
    K.NothingSeen(q.Bag(), all, k);
    N.Search(root, k, p, q, limit, multiset{});
    K.AllSeen(q.Bag(), all, k);
    assert q.heapSize == |q.Bag()|;
  }

  method Nearest(root: Node?, p: Point, k: nat, limit: Option<real>) returns (points: seq<Point>, dists: seq<real>)
    requires ValidOf(root) && I.WF(ModelOf(root)) && k >= 1
    requires H.AllApart(N.Of(ModelOf(root), p, limit))
    modifies ReprOf(root)
    ensures ValidOf(root) && ReprOf(root) == old(ReprOf(root)) && Q.Pushed(old(ModelOf(root)), ModelOf(root))
    ensures K.Answers(points, dists, N.Of(old(ModelOf(root)), p, limit), k)
  {
    var q := Collect(root, p, k, limit);
    points, dists := K.Drain(q, k);
  }

  class Map {
    var root: Node?
    var pointsDeleted: seq<Point>
    var multithreadPointsDeleted: seq<Point>
    var rebuildLogger: seq<R.Op>
    const cfg: T.Config

    ghost predicate Valid()
      reads this, root, ReprOf(root)
    {
      ValidOf(root) && this !in ReprOf(root)
    }

    /** The tree, the record of removed points and the log, with a counter beside them. */
    ghost function Now(count: int): Progress
      reads this, root
    {
      Progress(ModelOf(root), pointsDeleted, rebuildLogger, count)
    }

    constructor (deleteParam: real, balanceParam: real, boxLength: real, select: T.Selector)
      ensures Valid() && root == null && pointsDeleted == [] && multithreadPointsDeleted == [] && rebuildLogger == []
      ensures cfg == T.Config(deleteParam, balanceParam, boxLength, select)
    {
      root, pointsDeleted, multithreadPointsDeleted, rebuildLogger := null, [], [], [];
      cfg := T.Config(deleteParam, balanceParam, boxLength, select);
    }

    method Build(cloud: seq<Point>)
      modifies this
      ensures Valid() && fresh(ReprOf(root))
      ensures Now(0) == old(Now(0)).(tree := T.BuildTree(cloud, cfg))
      ensures multithreadPointsDeleted == old(multithreadPointsDeleted)
    {
      if |cloud| == 0 {
        root := null;
        return;
      }
      var a := new Point[|cloud|](i requires 0 <= i < |cloud| => cloud[i]);
      assert a[..][0..a.Length] == cloud;
      root := BuildTree(a, 0, a.Length, cfg, cloud);
    }

    // ----- single operations -----

    method AddPoint(p: Point, allow: bool)
      requires Valid() && root != null
      modifies this, ReprOf(root)
      ensures Valid() && fresh(ReprOf(root) - old(ReprOf(root)))
      ensures Now(0) == Applied(old(Now(0)), R.Add(p), allow, cfg)
      ensures multithreadPointsDeleted == old(multithreadPointsDeleted)
    {
      root.Fits();
      var removed;
      root, removed := AddByPoint(root, p, allow, root.f.divisionAxis, cfg);
      pointsDeleted := pointsDeleted + removed;
    }

    method DeleteBox(box: Box, allow: bool, downsample: bool) returns (count: int)
      requires Valid()
      modifies this, ReprOf(root)
      ensures Valid() && fresh(ReprOf(root) - old(ReprOf(root)))
      ensures Now(0) == Applied(old(Now(0)), R.DeleteBox(box, downsample), allow, cfg)
      ensures count == T.DeleteRange(old(ModelOf(root)), box, allow, downsample, cfg).count
      ensures multithreadPointsDeleted == old(multithreadPointsDeleted)
    {
      var removed;
      root, count, removed := DeleteByRange(root, box, allow, downsample, cfg);
      pointsDeleted := pointsDeleted + removed;
    }

    method DeletePoint(p: Point, allow: bool)
      requires Valid()
      modifies this, ReprOf(root)
      ensures Valid() && fresh(ReprOf(root) - old(ReprOf(root)))
      ensures Now(0) == Applied(old(Now(0)), R.DeleteOne(p), allow, cfg)
      ensures multithreadPointsDeleted == old(multithreadPointsDeleted)
    {
      var removed;
      ghost var count;
      root, count, removed := DeleteByPoint(root, p, allow, cfg);
      pointsDeleted := pointsDeleted + removed;
    }

    method Log(ops: seq<R.Op>)
      requires Valid()
      modifies this`rebuildLogger
      ensures Valid() && Now(0) == old(Now(0)).(log := old(rebuildLogger) + ops)
    {
      rebuildLogger := rebuildLogger + ops;
    }

    // ----- Add_Points -----

    method FindInVoxel(v: Box) returns (found: seq<Point>)
      requires Valid()
      modifies ReprOf(root)
      ensures Valid() && root == old(root) && ReprOf(root) == old(ReprOf(root))
      ensures var q := InVoxel(old(ModelOf(root)), v, true);
        Now(0) == old(Now(0)).(tree := q.tree) && found == q.points
    {
      found := SearchByRange(root, v, []);
    }

    /** `best` takes the place of the points in a voxel. */
    method Replace(box: Box, best: Point, allow: bool)
      requires Valid() && root != null && I.WF(root.model) && I.Exact(root.model)
      modifies this, ReprOf(root)
      ensures Valid() && fresh(ReprOf(root) - old(ReprOf(root)))
      ensures Now(0) == Applied(Applied(old(Now(0)), R.DeleteBox(box, true), allow, cfg), R.Add(best), allow, cfg)
      ensures multithreadPointsDeleted == old(multithreadPointsDeleted)
    {
      ApplyExact(root.model, R.DeleteBox(box, true), allow, cfg);
      var ignored := DeleteBox(box, allow, true);
      AddPoint(best, allow);
    }

    /** The former points of a voxel, if any, make room for `best`. */
    method Settle(box: Box, best: Point, remove: bool, allow: bool)
      requires Valid() && root != null && (remove ==> I.WF(root.model) && I.Exact(root.model))
      modifies this, ReprOf(root)
      ensures Valid() && fresh(ReprOf(root) - old(ReprOf(root)))
      ensures Now(0) == Performed(old(Now(0)), (if remove then [R.DeleteBox(box, true)]
        else []) + [R.Add(best)], allow, cfg)
      ensures multithreadPointsDeleted == old(multithreadPointsDeleted)
    {
      if remove {
        PerformedTwo(Now(0), R.DeleteBox(box, true), R.Add(best), allow, cfg);
        Replace(box, best, allow);
      } else {
        PerformedOne(Now(0), R.Add(best), allow, cfg);
        assert [] + [R.Add(best)] == [R.Add(best)];
        AddPoint(best, allow);
      }
    }

    method PickClosest(p: Point, found: seq<Point>, v: Box) returns (best: Point)
      ensures best == Closest(p, found, FromMiddle(v))
    {
      var far := FromMiddle(v);
      var minDist := far(p);
      best := p;
      for i := 0 to |found|
        invariant best == Closest(p, found[..i], far) && minDist == far(best)
      {
        assert found[..i + 1][..i] == found[..i];
        var tmpDist := far(found[i]);
        if tmpDist < minDist {
          minDist, best := tmpDist, found[i];
        }
      }
      assert found[..|found|] == found;
    }

    /** Search_by_range on a voxel. */
    method Look(v: Box) returns (found: seq<Point>)
      requires Valid() && root != null && I.WF(root.model) && I.Exact(root.model)
      modifies ReprOf(root)
      ensures Valid() && root == old(root) && ReprOf(root) == old(ReprOf(root)) && I.WF(root.model)
        && I.Exact(root.model)
      ensures var q := InVoxel(old(ModelOf(root)), v, true);
        Now(0) == old(Now(0)).(tree := q.tree) && found == q.points
    {
      ghost var t := root.model;
      InVoxelOk(t, v, true);
      Q.PushedExact(t, InVoxel(t, v, true).tree);
      found := FindInVoxel(v);
    }

    /** Replace the points of a voxel, and log that if the rebuild thread is at work. */
    method SettleAndLog(box: Box, best: Point, remove: bool, seen: Glance)
      requires Valid() && root != null && (remove ==> I.WF(root.model) && I.Exact(root.model))
      modifies this, ReprOf(root)
      ensures Valid() && fresh(ReprOf(root) - old(ReprOf(root)))
      ensures var ops := (if remove then [R.DeleteBox(box, true)] else []) + [R.Add(best)];
        Now(0) == Logged(Performed(old(Now(0)), ops, !seen.wholeTree, cfg), ops, seen)
      ensures multithreadPointsDeleted == old(multithreadPointsDeleted)
    {
      Settle(box, best, remove, !seen.wholeTree);
      if seen.wholeTree && seen.rebuilding {
        Log((if remove then [R.DeleteBox(box, true)] else []) + [R.Add(best)]);
      }
    }

    /** Search the voxel and choose the point that is to stay in it. */
    method Choose(p: Point, v: Box, seen: Glance, ghost added: nat) returns (found: seq<Point>, best: Point)
      requires Valid() && root != null && I.WF(root.model) && I.Exact(root.model)
      modifies ReprOf(root)
      ensures Valid() && root == old(root) && ReprOf(root) == old(ReprOf(root))
      ensures I.WF(root.model) && I.Exact(root.model) && Now(added) == old(Now(added)).(tree := root.model)
      ensures InsertIn(old(Now(added)), p, v, true, seen, cfg)
           == Carry(old(Now(added)), root.model, OpsFor(p, found, v, best), true, seen, cfg)
    {
      InsertUsesClosest(Now(added), p, v, seen, cfg);
      found := Look(v);
      best := PickClosest(p, found, v);
    }

    /** One point of Add_Points with downsampling, whose voxel is `v`. */
    method Thin(p: Point, v: Box, seen: Glance, added: nat) returns (n: nat)
      requires Valid() && root != null && I.WF(root.model) && I.Exact(root.model)
      modifies this, ReprOf(root)
      ensures Valid() && fresh(ReprOf(root) - old(ReprOf(root)))
      ensures Now(n) == InsertIn(old(Now(added)), p, v, true, seen, cfg)
      ensures multithreadPointsDeleted == old(multithreadPointsDeleted)
    {
      ghost var g := Now(added);
      var found, best := Choose(p, v, seen, added);
      n := Carried(p, found, v, best, seen, added, g);
    }

    /** The operations that the choice of `best` asks for. */
    method Carried(p: Point, found: seq<Point>, v: Box, best: Point, seen: Glance, added: nat, ghost g: Progress)
      returns (n: nat)
      requires Valid() && root != null && I.WF(root.model) && I.Exact(root.model)
      requires Now(added) == g.(tree := root.model)
      modifies this, ReprOf(root)
      ensures Valid() && fresh(ReprOf(root) - old(ReprOf(root)))
      ensures Now(n) == Carry(g, old(ModelOf(root)), OpsFor(p, found, v, best), true, seen, cfg)
      ensures multithreadPointsDeleted == old(multithreadPointsDeleted)
    {
      CarryNothing(g, root.model, true, seen, cfg);
      if |found| > 1 || T.SamePoint(p, best) {
        SettleAndLog(v, best, |found| > 0, seen);
        return added + 1;
      }
      return added;
    }

    /** One point of Add_Points. */
    method InsertPoint(p: Point, thin: bool, seen: Glance, added: nat) returns (n: nat)
      requires Valid() && cfg.voxel > 0.0 && root != null && I.WF(root.model) && (thin ==> I.Exact(root.model))
      modifies this, ReprOf(root)
      ensures Valid() && fresh(ReprOf(root) - old(ReprOf(root)))
      ensures Now(n) == Insert(old(Now(added)), p, thin, seen, cfg)
      ensures multithreadPointsDeleted == old(multithreadPointsDeleted)
    {
      if thin {
        n := Thin(p, VoxelOf(p, cfg.voxel), seen, added);
      } else {
        PerformedOne(Now(added), R.Add(p), !seen.wholeTree, cfg);
        AddPoint(p, !seen.wholeTree);
        if seen.wholeTree && seen.rebuilding {
          Log([R.Add(p)]);
        }
        n := added;
      }
    }

    /** What Add_Points needs of the tree. */
    ghost predicate Rooted(thin: bool)
      reads this, root
    {
      KdBatch.Rooted(ModelOf(root), thin)
    }

    method InsertNext(p: Point, thin: bool, seen: Glance, added: nat) returns (n: nat)
      requires Valid() && cfg.voxel > 0.0 && Rooted(thin)
      modifies this, ReprOf(root)
      ensures Valid() && Rooted(thin) && fresh(ReprOf(root) - old(ReprOf(root)))
      ensures Now(n) == Insert(old(Now(added)), p, thin, seen, cfg)
      ensures multithreadPointsDeleted == old(multithreadPointsDeleted)
    {
      InsertRooted(Now(added), p, thin, seen, cfg);
      n := InsertPoint(p, thin, seen, added);
    }

    /** The loop over the points. */
    method InsertPoints(points: seq<Point>, thin: bool, seen: nat -> Glance) returns (added: nat)
      requires Valid() && cfg.voxel > 0.0 && Rooted(thin)
      modifies this, ReprOf(root)
      ensures Valid() && Rooted(thin) && fresh(ReprOf(root) - old(ReprOf(root)))
      ensures Now(added) == InsertAll(old(Now(0)), points, thin, seen, cfg)
      ensures multithreadPointsDeleted == old(multithreadPointsDeleted)
    {
      ghost var g := Now(0);
      added := 0;
      for i := 0 to |points|
        invariant Valid() && Rooted(thin) && fresh(ReprOf(root) - old(ReprOf(root)))
        invariant Now(added) == InsertAll(g, points[..i], thin, seen, cfg)
        invariant multithreadPointsDeleted == old(multithreadPointsDeleted)
      {
        InsertAllMore(g, points, i, thin, seen, cfg);
        added := InsertNext(points[i], thin, seen(i), added);
      }
      assert points[..|points|] == points;
    }

    /** Add_Points; `seen(i)` is what it reads of the shared flags at point i. */
    method AddPoints(points: seq<Point>, downsampleOn: bool, seen: nat -> Glance) returns (added: nat)
      requires Valid() && cfg.voxel > 0.0 && Rooted(downsampleOn)
      modifies this, ReprOf(root)
      ensures Valid() && Rooted(downsampleOn) && fresh(ReprOf(root) - old(ReprOf(root)))
      ensures Now(added) == InsertAll(old(Now(0)), points, downsampleOn, seen, cfg)
      ensures C.LogOk(old(Now(0)), Now(added), seen, |points|)
      ensures multithreadPointsDeleted == old(multithreadPointsDeleted)
    {
      C.InsertAllLogs(Now(0), points, downsampleOn, seen, cfg);
      added := InsertPoints(points, downsampleOn && DOWNSAMPLE_SWITCH, seen);
    }

    // ----- deleting lists -----

    method DeletePointBoxes(boxes: seq<Box>, seen: nat -> Glance) returns (count: int)
      requires Valid()
      modifies this, ReprOf(root)
      ensures Valid() && fresh(ReprOf(root) - old(ReprOf(root)))
      ensures Now(count) == DeleteBoxes(old(Now(0)), boxes, seen, cfg)
      ensures I.WF(old(ModelOf(root))) ==> C.LogOk(old(Now(0)), Now(count), seen, |boxes|)
      ensures multithreadPointsDeleted == old(multithreadPointsDeleted)
    {
      ghost var g := Now(0);
      count := 0;
      for i := 0 to |boxes|
        invariant Valid() && fresh(ReprOf(root) - old(ReprOf(root)))
        invariant Now(count) == DeleteBoxes(g, boxes[..i], seen, cfg)
        invariant multithreadPointsDeleted == old(multithreadPointsDeleted)
      {
        ghost var before := Now(count);
        DeleteBoxesMore(g, boxes, i, seen, cfg);
        count := DeleteNext(boxes[i], seen(i), count);
        assert Now(count) == DeleteOneBox(before, boxes[i], seen(i), cfg);
      }
      assert boxes[..|boxes|] == boxes;
      if I.WF(g.tree) { C.DeleteBoxesLog(g, boxes, seen, cfg); }
    }

    method DeleteNext(box: Box, seen: Glance, sofar: int) returns (count: int)
      requires Valid()
      modifies this, ReprOf(root)
      ensures Valid() && fresh(ReprOf(root) - old(ReprOf(root)))
      ensures Now(count) == DeleteOneBox(old(Now(sofar)), box, seen, cfg)
      ensures multithreadPointsDeleted == old(multithreadPointsDeleted)
    {
      var c := DeleteBox(box, !seen.wholeTree, false);
      if seen.wholeTree && seen.rebuilding {
        Log([R.DeleteBox(box, false)]);
      }
      count := sofar + c;
    }

    // ----- queries -----

    method BoxSearch(box: Box) returns (storage: seq<Point>)
      requires Valid() && I.WF(ModelOf(root))
      modifies ReprOf(root)
      ensures Valid() && Q.Pushed(old(ModelOf(root)), ModelOf(root)) && Now(0) == old(Now(0)).(tree := ModelOf(root))
      ensures multiset(storage) == Select(old(I.Live(ModelOf(root))), Inside(box))
    {
      Q.RangeSearchOk(ModelOf(root), box);
      storage := SearchByRange(root, box, []);
    }

    method RadiusSearch(p: Point, radius: real, sqrt: real -> real) returns (storage: seq<Point>)
      requires Valid() && I.WF(ModelOf(root)) && E.IsSqrt(sqrt)
      modifies ReprOf(root)
      ensures Valid() && Q.Pushed(old(ModelOf(root)), ModelOf(root)) && Now(0) == old(Now(0)).(tree := ModelOf(root))
      ensures multiset(storage) <= Select(old(I.Live(ModelOf(root))), Q.Near(p, radius))
      ensures radius >= 0.0 ==> multiset(storage) == Select(old(I.Live(ModelOf(root))), Q.Near(p, radius))
    {
      Q.RadiusSearchOk(ModelOf(root), p, radius, sqrt);
      storage := SearchByRadius(root, p, radius, sqrt, []);
    }

    /** The k nearest live points no farther than `maxDist`, nearest first, with squared distances. */
    method NearestSearch(p: Point, k: nat, maxDist: Option<real>) returns (points: seq<Point>, dists: seq<real>)
      requires Valid() && I.WF(ModelOf(root)) && k >= 1
      requires H.AllApart(N.Of(ModelOf(root), p, SquareLimit(maxDist)))
      modifies ReprOf(root)
      ensures Valid() && Q.Pushed(old(ModelOf(root)), ModelOf(root)) && Now(0) == old(Now(0)).(tree := ModelOf(root))
      ensures K.Answers(points, dists, N.Of(old(ModelOf(root)), p, SquareLimit(maxDist)), k)
    {
      points, dists := Nearest(root, p, k, SquareLimit(maxDist));
    }

    method AcquireRemovedPoints(removed: seq<Point>) returns (out: seq<Point>)
      requires Valid()
      modifies this
      ensures Valid() && root == old(root) && Now(0) == old(Now(0)).(removed := [])
      ensures multithreadPointsDeleted == [] && out == removed + old(pointsDeleted) + old(multithreadPointsDeleted)
    {
      out := removed;
      for i := 0 to |pointsDeleted|
        invariant out == removed + pointsDeleted[..i]
      {
        out := out + [pointsDeleted[i]];
      }
      for i := 0 to |multithreadPointsDeleted|
        invariant out == removed + pointsDeleted + multithreadPointsDeleted[..i]
      {
        out := out + [multithreadPointsDeleted[i]];
      }
      pointsDeleted, multithreadPointsDeleted := [], [];
    }
  }
}
