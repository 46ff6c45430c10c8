/** The leader's flown route: a trimmed polyline with running arc length, looked back along and
    looked ahead along by arc length. */
module Route {
  import opened Geometry
  import opened Norm

  /** Segments no longer than this are never interpolated on. */
  const TINY: real := 0.000001

  datatype RoutePoint = RoutePoint(position: Point, yaw: real, progress: real)

  /** Neighbouring progress values differ by exactly their distance, at least the sample spacing. */
  ghost predicate Metred(route: seq<RoutePoint>, len: Metric, spacing: real) {
    forall i | 0 < i < |route| ::
      && route[i].progress - route[i - 1].progress == len(route[i - 1].position, route[i].position)
      && spacing <= len(route[i - 1].position, route[i].position)
  }

  // ----- places on the polyline -----

  /** `ratio` of the way back from point `index` to the one before it; index 0 is the front. */
  datatype Spot = Spot(index: nat, ratio: real)

  function PositionAt(route: seq<RoutePoint>, s: Spot): Point
    requires s.index < |route|
  {
    if s.index == 0 then route[0].position
    else Interpolate(route[s.index].position, route[s.index - 1].position, s.ratio)
  }

  /** `ratio` of the way from b to a, as a function value: who only compares meets no product. */
  function Slide(ratio: real): (real, real) -> real { (b: real, a: real) => b + ratio * (a - b) }

  function ProgressAt(route: seq<RoutePoint>, s: Spot): real
    requires s.index < |route|
  {
    if s.index == 0 then route[0].progress
    else Slide(s.ratio)(route[s.index].progress, route[s.index - 1].progress)
  }

  predicate OnRoute(route: seq<RoutePoint>, s: Spot) { s.index < |route| && 0.0 <= s.ratio <= 1.0 }

  lemma {:induction false} ProgressGrows(route: seq<RoutePoint>, len: Metric, spacing: real, i: nat, j: nat)
    requires IsDistance(len) && Metred(route, len, spacing) && i <= j < |route|
    ensures route[i].progress <= route[j].progress
    decreases j
  {
    if i < j {
      ProgressGrows(route, len, spacing, i, j - 1);
      assert len(route[j - 1].position, route[j].position) >= 0.0;
    }
  }

  /** The look-back loop, from point `i` down. */
  function LookBack(route: seq<RoutePoint>, i: nat, remaining: real, len: Metric): (s: Spot)
    requires i < |route|
    ensures s.index <= i
  {
    if i == 0 then Spot(0, 0.0)
    else
      var segment := len(route[i].position, route[i - 1].position);
      if segment >= remaining && segment > TINY then Spot(i, remaining / segment)
      else LookBack(route, i - 1, remaining - segment, len)
  }

  lemma Fraction(remaining: real, segment: real)
    requires 0.0 <= remaining <= segment && segment > 0.0
    ensures 0.0 <= remaining / segment <= 1.0 && remaining / segment * segment == remaining
  {
  }

  lemma StopsHere(route: seq<RoutePoint>, i: nat, remaining: real, len: Metric)
    requires 0 < i < |route| && IsDistance(len)
    requires route[i].progress - route[i - 1].progress == len(route[i - 1].position, route[i].position)
    requires 0.0 <= remaining <= len(route[i].position, route[i - 1].position)
      && len(route[i].position, route[i - 1].position) > TINY
    ensures var s := Spot(i, remaining / len(route[i].position, route[i - 1].position));
      OnRoute(route, s) && ProgressAt(route, s) == route[i].progress - remaining
  {
    var segment := len(route[i].position, route[i - 1].position);
    Symmetric(len, route[i].position, route[i - 1].position);
    Fraction(remaining, segment);
    assert remaining / segment * (-segment) == -remaining;
  }

  /** The place that is `d` behind point `i`, or the front. */
  ghost predicate IsBehind(route: seq<RoutePoint>, s: Spot, i: nat, d: real)
    requires i < |route|
  {
    OnRoute(route, s) && ProgressAt(route, s) == Max(route[0].progress, route[i].progress - d)
  }

  lemma LooksNoFurther(route: seq<RoutePoint>, i: nat, d: real, len: Metric)
    requires 0 < i < |route| && IsDistance(len) && route[0].progress <= route[i - 1].progress
    requires route[i].progress - route[i - 1].progress == len(route[i - 1].position, route[i].position)
    requires 0.0 <= d <= len(route[i].position, route[i - 1].position)
      && len(route[i].position, route[i - 1].position) > TINY
    ensures IsBehind(route, LookBack(route, i, d, len), i, d)
  {
    Symmetric(len, route[i].position, route[i - 1].position);
    StopsHere(route, i, d, len);
  }

  lemma LooksFurther(route: seq<RoutePoint>, i: nat, d: real, len: Metric, rest: real)
    requires 0 < i < |route| && len(route[i].position, route[i - 1].position) < d
    requires route[i].progress - route[i - 1].progress == len(route[i].position, route[i - 1].position)
    requires rest == d - len(route[i].position, route[i - 1].position)
    requires IsBehind(route, LookBack(route, i - 1, rest, len), i - 1, rest)
    ensures IsBehind(route, LookBack(route, i, d, len), i, d)
  {
  }

  /** Looking back by `d` finds a place on the polyline at progress max(first, last - d). */
  lemma {:induction false} LookBackOk(route: seq<RoutePoint>, i: nat, d: real, len: Metric, spacing: real)
    requires IsDistance(len) && Metred(route, len, spacing) && spacing > TINY && i < |route| && d >= 0.0
    ensures IsBehind(route, LookBack(route, i, d, len), i, d)
    decreases i
  {
    if i > 0 {
      var segment := len(route[i].position, route[i - 1].position);
      Symmetric(len, route[i].position, route[i - 1].position);
      ProgressGrows(route, len, spacing, 0, i - 1);
      if segment >= d {
        LooksNoFurther(route, i, d, len);
      } else {
        LookBackOk(route, i - 1, d - segment, len, spacing);
        LooksFurther(route, i, d, len, d - segment);
      }
    }
  }

  lemma RatioOrder(a: real, b: real, r: real, q: real)
    requires a < b && r < q
    ensures Slide(q)(b, a) < Slide(r)(b, a)
  {
    Positive(q - r, b - a);
    assert Slide(r)(b, a) - Slide(q)(b, a) == (q - r) * (b - a);
  }

  lemma SameRatio(a: real, b: real, r: real, q: real, v: real)
    requires a < b && v == Slide(r)(b, a) && v == Slide(q)(b, a)
    ensures r == q
  {
    if r < q {
      RatioOrder(a, b, r, q);
    } else if q < r {
      RatioOrder(a, b, q, r);
    }
  }

  lemma Between(a: real, b: real, r: real, v: real)
    requires a < b && 0.0 <= r <= 1.0 && v == Slide(r)(b, a)
    ensures a <= v <= b && (v == b ==> r == 0.0) && (v == a ==> r == 1.0)
  {
    assert Slide(0.0)(b, a) == b && Slide(1.0)(b, a) == a;
    if r > 0.0 { RatioOrder(a, b, 0.0, r); }
    if r < 1.0 { RatioOrder(a, b, r, 1.0); }
  }

  lemma EndsOfSegment(a: Point, b: Point, r: real)
    ensures (r == 0.0 ==> Interpolate(a, b, r) == a) && (r == 1.0 ==> Interpolate(a, b, r) == b)
  {
  }

  lemma {:induction false} ProgressStrict(route: seq<RoutePoint>, len: Metric, spacing: real, i: nat, j: nat)
    requires IsDistance(len) && Metred(route, len, spacing) && spacing > 0.0 && i < j < |route|
    ensures route[i].progress < route[j].progress
    decreases j
  {
    if i < j - 1 { ProgressStrict(route, len, spacing, i, j - 1); }
  }

  /** The segment that a spot lies on has positive length. */
  predicate Proper(route: seq<RoutePoint>, s: Spot) {
    OnRoute(route, s) && (s.index > 0 ==> route[s.index - 1].progress < route[s.index].progress)
  }

  lemma NotBeyond(route: seq<RoutePoint>, s: Spot)
    requires Proper(route, s)
    ensures ProgressAt(route, s) <= route[s.index].progress
    ensures ProgressAt(route, s) == route[s.index].progress ==> PositionAt(route, s) == route[s.index].position
  {
    if s.index > 0 {
      Between(route[s.index - 1].progress, route[s.index].progress, s.ratio, ProgressAt(route, s));
      EndsOfSegment(route[s.index].position, route[s.index - 1].position, s.ratio);
    }
  }

  lemma NotBefore(route: seq<RoutePoint>, s: Spot)
    requires Proper(route, s) && s.index > 0
    ensures route[s.index - 1].progress <= ProgressAt(route, s)
    ensures ProgressAt(route, s) == route[s.index - 1].progress ==> PositionAt(route, s) == route[s.index - 1].position
  {
    Between(route[s.index - 1].progress, route[s.index].progress, s.ratio, ProgressAt(route, s));
    EndsOfSegment(route[s.index].position, route[s.index - 1].position, s.ratio);
  }

  lemma SameSegment(route: seq<RoutePoint>, s: Spot, t: Spot)
    requires Proper(route, s) && Proper(route, t) && ProgressAt(route, s) == ProgressAt(route, t) && s.index == t.index
    ensures PositionAt(route, s) == PositionAt(route, t)
  {
    if s.index > 0 {
      var a, b, v := route[s.index - 1].progress, route[s.index].progress, ProgressAt(route, s);
      SameRatio(a, b, s.ratio, t.ratio, v);
    }
  }

  lemma IsProper(route: seq<RoutePoint>, len: Metric, spacing: real, s: Spot)
    requires IsDistance(len) && Metred(route, len, spacing) && spacing > 0.0 && OnRoute(route, s)
    ensures Proper(route, s)
  {
    if s.index > 0 { ProgressStrict(route, len, spacing, s.index - 1, s.index); }
  }

  /** Progress pins down the place: two spots at the same progress are the same position. */
  lemma ProgressIsPlace(route: seq<RoutePoint>, len: Metric, spacing: real, s: Spot, t: Spot)
    requires IsDistance(len) && Metred(route, len, spacing) && spacing > 0.0 && OnRoute(route, s) && OnRoute(route, t)
    requires ProgressAt(route, s) == ProgressAt(route, t) && s.index <= t.index
    ensures PositionAt(route, s) == PositionAt(route, t)
  {
    IsProper(route, len, spacing, s);
    IsProper(route, len, spacing, t);
    if s.index == t.index {
      SameSegment(route, s, t);
    } else {
      NotBeyond(route, s);
      NotBefore(route, t);
      if s.index < t.index - 1 { ProgressStrict(route, len, spacing, s.index, t.index - 1); }
    }
  }

  // ----- looking ahead -----

  /** The look-ahead loop of the tracking target: along route[i..end], then towards `lagged`. */
  function Ahead(route: seq<RoutePoint>, cursor: Point, i: nat, end: nat, remaining: real, lagged: RoutePoint,
                 was: RoutePoint, len: Metric): RoutePoint
    requires i <= end < |route|
    decreases end - i
  {
    if i < end then
      var segment := len(cursor, route[i].position);
      if segment >= remaining && segment > TINY then
        was.(position := Interpolate(cursor, route[i].position, remaining / segment), yaw := route[i].yaw)
      else Ahead(route, route[i].position, i + 1, end, remaining - segment, lagged, was, len)
    else
      var segment := len(cursor, lagged.position);
      if segment > remaining && segment > TINY then
        was.(position := Interpolate(cursor, lagged.position, remaining / segment), yaw := lagged.yaw)
      else lagged
  }

  lemma StepLength(len: Metric, cursor: Point, to: Point, remaining: real)
    requires IsDistance(len) && 0.0 <= remaining <= len(cursor, to) && len(cursor, to) > TINY
    ensures len(cursor, Interpolate(cursor, to, remaining / len(cursor, to))) == remaining
  {
    Fraction(remaining, len(cursor, to));
    InterpolateLength(len, cursor, to, remaining / len(cursor, to));
  }

  /** The tracking target is never farther from the follower than the look-ahead, up to TINY. */
  lemma {:induction false} AheadReach(route: seq<RoutePoint>, cursor: Point, i: nat, end: nat, remaining: real,
                                      lagged: RoutePoint, was: RoutePoint, len: Metric, spacing: real)
    requires IsDistance(len) && Metred(route, len, spacing) && spacing > TINY && i <= end < |route| && remaining >= 0.0
    requires i < end ==> remaining > TINY || len(cursor, route[i].position) > TINY
    ensures len(cursor, Ahead(route, cursor, i, end, remaining, lagged, was, len).position) <= remaining + TINY
    decreases end - i
  {
    if i < end {
      var segment := len(cursor, route[i].position);
      if segment >= remaining && segment > TINY {
        StepLength(len, cursor, route[i].position, remaining);
      } else {
        AheadReach(route, route[i].position, i + 1, end, remaining - segment, lagged, was, len, spacing);
        LengthTriangle(len, cursor, route[i].position,
                       Ahead(route, cursor, i, end, remaining, lagged, was, len).position);
      }
    } else if len(cursor, lagged.position) > remaining && len(cursor, lagged.position) > TINY {
      StepLength(len, cursor, lagged.position, remaining);
    }
  }

  /** Where the look-ahead from `cursor` stands before point `j`, and how far it has walked. */
  function CursorAt(route: seq<RoutePoint>, cursor: Point, i: nat, j: nat): Point
    requires i <= j < |route|
  {
    if i == j then cursor else route[j - 1].position
  }

  function Walked(route: seq<RoutePoint>, cursor: Point, i: nat, j: nat, len: Metric): real
    requires i <= j < |route|
    decreases j - i
  {
    if i == j then 0.0
    else len(cursor, route[i].position) + Walked(route, route[i].position, i + 1, j, len)
  }

  /** The target is found on the leg that starts before point `j`. */
  ghost predicate OnLeg(route: seq<RoutePoint>, cursor: Point, i: nat, end: nat, distance: real, lagged: RoutePoint,
                        target: RoutePoint, len: Metric, j: nat)
    requires i <= j <= end < |route|
  {
    var c, w := CursorAt(route, cursor, i, j), Walked(route, cursor, i, j, len);
    var to := if j < end then route[j].position else lagged.position;
    if j == end && target == lagged then w + len(c, to) <= distance + TINY
    else
      && target.yaw == (if j < end then route[j].yaw else lagged.yaw)
      && w <= distance <= w + len(c, to) && len(c, to) > TINY
      && target.position == Interpolate(c, to, (distance - w) / len(c, to))
      && len(c, target.position) == distance - w
  }

  lemma LaterLeg(route: seq<RoutePoint>, cursor: Point, i: nat, end: nat, distance: real, lagged: RoutePoint,
                 target: RoutePoint, len: Metric, j: nat)
    requires i < j <= end < |route|
    requires var c := route[i].position;
      OnLeg(route, c, i + 1, end, distance - len(cursor, c), lagged, target, len, j)
    ensures OnLeg(route, cursor, i, end, distance, lagged, target, len, j)
  {
    assert CursorAt(route, cursor, i, j) == CursorAt(route, route[i].position, i + 1, j);
  }

  /** The look-ahead walks exactly its distance along the route and on to the lagged target, or
      reaches that target first. */
  lemma {:induction false} AheadArc(route: seq<RoutePoint>, cursor: Point, i: nat, end: nat, distance: real,
                                    lagged: RoutePoint, was: RoutePoint, len: Metric, spacing: real) returns (j: nat)
    requires IsDistance(len) && Metred(route, len, spacing) && spacing > TINY && i <= end < |route| && distance >= 0.0
    requires i < end ==> distance > TINY || len(cursor, route[i].position) > TINY
    ensures i <= j <= end
    ensures OnLeg(route, cursor, i, end, distance, lagged,
                  Ahead(route, cursor, i, end, distance, lagged, was, len), len, j)
    decreases end - i
  {
    var to := if i < end then route[i].position else lagged.position;
    if len(cursor, to) >= distance && len(cursor, to) > TINY { StepLength(len, cursor, to, distance); }
    j := i;
    if i < end && !(len(cursor, to) >= distance && len(cursor, to) > TINY) {
      j := AheadArc(route, to, i + 1, end, distance - len(cursor, to), lagged, was, len, spacing);
      LaterLeg(route, cursor, i, end, distance, lagged,
               Ahead(route, cursor, i, end, distance, lagged, was, len), len, j);
    }
  }

  // ----- appending and trimming -----

  /** The route without its first `n` points keeps the property. */
  lemma DropKeepsMetred(route: seq<RoutePoint>, len: Metric, spacing: real, n: nat)
    requires Metred(route, len, spacing) && n <= |route|
    ensures Metred(route[n..], len, spacing)
  {
    var r := route[n..];
    forall i | 0 < i < |r|
      ensures r[i].progress - r[i - 1].progress == len(r[i - 1].position, r[i].position)
      ensures spacing <= len(r[i - 1].position, r[i].position)
    {
      assert r[i] == route[n + i] && r[i - 1] == route[n + i - 1];
    }
  }

  lemma AppendKeepsMetred(route: seq<RoutePoint>, len: Metric, spacing: real, p: RoutePoint)
    requires Metred(route, len, spacing)
    requires route != [] ==>
      var last := route[|route| - 1];
      p.progress == last.progress + len(last.position, p.position) && spacing <= len(last.position, p.position)
    ensures Metred(route + [p], len, spacing)
  {
  }

  /** First minus last progress. */
  function Span(route: seq<RoutePoint>): real {
    if route == [] then 0.0 else route[|route| - 1].progress - route[0].progress
  }

  function Less(index: nat, dropped: nat): nat { if index >= dropped then index - dropped else 0 }

  /** `r` is `all` without its first `dropped` points, each of which had to go. */
  ghost predicate Trimming(all: seq<RoutePoint>, dropped: nat, r: seq<RoutePoint>, max: real) {
    && dropped < |all| && r == all[dropped..]
    && (dropped > 0 ==> |r| >= 2 && Span(all[dropped - 1..]) > max)
  }

  /** ... and none of the others has to. */
  ghost predicate Trimmed(all: seq<RoutePoint>, dropped: nat, r: seq<RoutePoint>, max: real) {
    Trimming(all, dropped, r, max) && (|r| <= 2 || Span(r) <= max)
  }

  lemma TrimMore(all: seq<RoutePoint>, dropped: nat, r: seq<RoutePoint>, max: real)
    requires Trimming(all, dropped, r, max) && |r| > 2 && Span(r) > max
    ensures Trimming(all, dropped + 1, r[1..], max)
  {
    assert all[dropped..][1..] == all[dropped + 1..];
  }

  function AtMost(i: nat, end: nat): nat { if i < end then i else end }
  function AtLeast(i: nat, start: nat): nat { if i < start then start else i }

  class Tracker {
    var route: seq<RoutePoint>
    var routeLength: real
    var leaderRouteProgress: real
    var followerRouteIndex: nat
    const pathSampleSpacing: real
    const maxRouteLength: real
    const releasePathLength: real
    const followDistance: real
    const routeTrackingLookahead: real
    const distance3d: Metric
    const hypot: (real, real) -> real
    const atan2: (real, real) -> real

    ghost predicate Valid()
      reads this
    {
      && Metred(route, distance3d, pathSampleSpacing)
      && routeLength == Span(route)
      && (route != [] ==> leaderRouteProgress == route[|route| - 1].progress)
      && (if route == [] then followerRouteIndex == 0 else followerRouteIndex < |route|)
    }

    constructor (spacing: real, maxLength: real, releaseLength: real, followDistance: real, lookahead: real,
                 distance3d: Metric, hypot: (real, real) -> real, atan2: (real, real) -> real)
      ensures Valid() && route == [] && leaderRouteProgress == 0.0
      ensures pathSampleSpacing == spacing && this.distance3d == distance3d
    {
      route, routeLength, leaderRouteProgress, followerRouteIndex := [], 0.0, 0.0, 0;
      pathSampleSpacing, maxRouteLength, releasePathLength := spacing, maxLength, releaseLength;
      this.followDistance, routeTrackingLookahead := followDistance, lookahead;
      this.distance3d, this.hypot, this.atan2 := distance3d, hypot, atan2;
    }

    /** Drops the first point of the route. */
    method PopFront()
      requires Valid() && |route| > 2
      modifies this
      ensures Valid() && leaderRouteProgress == old(leaderRouteProgress)
      ensures route == old(route)[1..] && followerRouteIndex == Less(old(followerRouteIndex), 1)
    {
      DropKeepsMetred(route, distance3d, pathSampleSpacing, 1);
      routeLength := routeLength - distance3d(route[0].position, route[1].position);
      route := route[1..];
      if followerRouteIndex > 0 { followerRouteIndex := followerRouteIndex - 1; }
    }

    /** One round of the trimming loop. */
    method TrimOne(ghost all: seq<RoutePoint>, ghost dropped: nat, ghost from: nat)
      requires Valid() && |route| > 2 && routeLength > maxRouteLength
      requires Trimming(all, dropped, route, maxRouteLength) && followerRouteIndex == Less(from, dropped)
      modifies this
      ensures Valid() && leaderRouteProgress == old(leaderRouteProgress) && |route| == |old(route)| - 1
      ensures Trimming(all, dropped + 1, route, maxRouteLength) && followerRouteIndex == Less(from, dropped + 1)
    {
      TrimMore(all, dropped, route, maxRouteLength);
      PopFront();
    }

    /** Trims the front until the length fits or two points are left. */
    method Trim() returns (ghost dropped: nat)
      requires Valid() && route != []
      modifies this
      ensures Valid() && leaderRouteProgress == old(leaderRouteProgress)
      ensures Trimmed(old(route), dropped, route, maxRouteLength)
      ensures followerRouteIndex == Less(old(followerRouteIndex), dropped)
    {
      dropped := 0;
      while |route| > 2 && routeLength > maxRouteLength
        invariant Valid() && leaderRouteProgress == old(leaderRouteProgress)
        invariant Trimming(old(route), dropped, route, maxRouteLength)
        invariant followerRouteIndex == Less(old(followerRouteIndex), dropped)
        decreases |route|
      {
        TrimOne(old(route), dropped, old(followerRouteIndex));
        dropped := dropped + 1;
      }
    }

    /** appendAcceptedRoutePoint: refused if too near, else appended with its running progress. */
    method AppendAcceptedRoutePoint(point: RoutePoint) returns (ok: bool, r: RoutePoint, ghost dropped: nat)
      requires Valid()
      modifies this
      ensures Valid()
      ensures !ok <==> old(route) != [] && distance3d(old(route)[|old(route)| - 1].position,
        point.position) < pathSampleSpacing
      ensures !ok ==> route == old(route) && followerRouteIndex == old(followerRouteIndex) && r == point
      ensures ok ==>
        && r == point.(progress := if old(route) == [] then old(leaderRouteProgress)
             else old(leaderRouteProgress) + distance3d(old(route)[|old(route)| - 1].position, point.position))
        && Trimmed(old(route) + [r], dropped, route, maxRouteLength)
        && followerRouteIndex == Less(old(followerRouteIndex), dropped)
    {
      r, dropped := point, 0;
      if route != [] {
        var segment := distance3d(route[|route| - 1].position, point.position);
        if segment < pathSampleSpacing {
          return false, r, 0;
        }
        routeLength := routeLength + segment;
        leaderRouteProgress := leaderRouteProgress + segment;
      }
      r := r.(progress := leaderRouteProgress);
      AppendKeepsMetred(route, distance3d, pathSampleSpacing, r);
      route := route + [r];
      dropped := Trim();
      ok := true;
    }

    // ----- looking back -----

    /** The common loop of the look-backs. */
    method FindBehind(distance: real) returns (s: Spot)
      requires Valid() && route != []
      ensures s == LookBack(route, |route| - 1, distance, distance3d)
    {
      var remaining := distance;
      var i: nat := |route| - 1;
      while i > 0
        invariant i < |route|
        invariant LookBack(route, |route| - 1, distance, distance3d) == LookBack(route, i, remaining, distance3d)
      {
        var segment := distance3d(route[i].position, route[i - 1].position);
        if segment >= remaining && segment > TINY {
          return Spot(i, remaining / segment);
        }
        remaining := remaining - segment;
        i := i - 1;
      }
      return Spot(0, 0.0);
    }

    /** The place on the segment before point `s.index`. */
    method Slid(s: Spot, yaw: real) returns (p: RoutePoint)
      requires 0 < s.index < |route|
      ensures p == RoutePoint(PositionAt(route, s), yaw, ProgressAt(route, s))
    {
      var newer, older := route[s.index], route[s.index - 1];
      p := RoutePoint(Interpolate(newer.position, older.position, s.ratio), yaw,
                      newer.progress + s.ratio * (older.progress - newer.progress));
    }

    /** getRouteTargetBehindEnd. */
    method GetRouteTargetBehindEnd(distance: real) returns (ok: bool, target: RoutePoint)
      requires Valid()
      ensures ok <==> route != []
      ensures ok ==>
        var s := LookBack(route, |route| - 1, Max(0.0, distance), distance3d);
        && target.position == PositionAt(route, s) && target.progress == ProgressAt(route, s)
        && target.yaw == route[s.index].yaw
    {
      if route == [] {
        return false, RoutePoint(Point(0.0, 0.0, 0.0), 0.0, 0.0);
      }
      var s := FindBehind(Max(0.0, distance));
      ok, target := true, route[0];
      if s.index > 0 { target := Slid(s, route[s.index].yaw); }
    }

    /** getLaggedTarget, with the route index it found. */
    method GetLaggedTarget() returns (ok: bool, target: RoutePoint, routeIndex: nat)
      requires Valid()
      ensures ok <==> |route| >= 2 && routeLength >= releasePathLength
      ensures ok ==>
        var s := LookBack(route, |route| - 1, followDistance, distance3d);
        && target.position == PositionAt(route, s) && target.progress == ProgressAt(route, s)
        && routeIndex == s.index < |route|
        && target.yaw == (if s.index == 0 then route[0].yaw else
             var to, back := route[s.index].position, route[s.index - 1].position; atan2(to.y - back.y, to.x - back.x))
    {
      if |route| < 2 || routeLength < releasePathLength {
        return false, RoutePoint(Point(0.0, 0.0, 0.0), 0.0, 0.0), 0;
      }
      var s := FindBehind(followDistance);
      ok, target, routeIndex := true, route[0], s.index;
      if s.index > 0 {
        var newer, older := route[s.index].position, route[s.index - 1].position;
        target := Slid(s, atan2(newer.y - older.y, newer.x - older.x));
      }
    }

    // ----- tracking -----

    function Horizontal(i: nat, p: Point): real
      requires i < |route|
      reads this`route
    {
      hypot(route[i].position.x - p.x, route[i].position.y - p.y)
    }

    /** The first of the nearest route points between two indices. */
    method NearestBetween(from: nat, to: nat, p: Point) returns (nearest: nat)
      requires from <= to < |route|
      ensures from <= nearest <= to
      ensures forall i | from <= i <= to :: Horizontal(nearest, p) <= Horizontal(i, p)
      ensures forall i | from <= i < nearest :: Horizontal(nearest, p) < Horizontal(i, p)
    {
      nearest := from;
      var nearestDistance: Option<real> := None;  // infinity
      for i := from to to + 1
        invariant from <= nearest <= to && (i > from ==> nearest < i)
        invariant if i == from then nearestDistance == None else nearestDistance == Some(Horizontal(nearest, p))
        invariant forall j | from <= j < i :: Horizontal(nearest, p) <= Horizontal(j, p)
        invariant forall j | from <= j < nearest :: Horizontal(nearest, p) < Horizontal(j, p)
      {
        var distance := hypot(route[i].position.x - p.x, route[i].position.y - p.y);
        if nearestDistance == None || distance < nearestDistance.value {
          nearestDistance, nearest := Some(distance), i;
        }
      }
    }

    /** The look-ahead loop. */
    method LookAhead(start: Point, from: nat, end: nat, distance: real, lagged: RoutePoint, was: RoutePoint)
      returns (target: RoutePoint)
      requires from <= end < |route|
      ensures target == Ahead(route, start, from, end, distance, lagged, was, distance3d)
    {
      var remaining, cursor := distance, start;
      for i := from to end
        invariant Ahead(route, start, from, end, distance, lagged, was, distance3d)
               == Ahead(route, cursor, i, end, remaining, lagged, was, distance3d)
      {
        var waypoint := route[i].position;
        var segment := distance3d(cursor, waypoint);
        if segment >= remaining && segment > TINY {
          return was.(position := Interpolate(cursor, waypoint, remaining / segment), yaw := route[i].yaw);
        }
        remaining := remaining - segment;
        cursor := waypoint;
      }
      var finalSegment := distance3d(cursor, lagged.position);
      if finalSegment > remaining && finalSegment > TINY {
        return was.(position := Interpolate(cursor, lagged.position, remaining / finalSegment), yaw := lagged.yaw);
      }
      return lagged;
    }

    /** getRouteTrackingTarget: the index moves to the nearest point not past the lagged one, and the
        target lies ahead of it. */
    method GetRouteTrackingTarget(followerWorld: Point, lagged: RoutePoint, laggedIndex: nat, was: RoutePoint)
      returns (ok: bool, target: RoutePoint)
      requires Valid()
      modifies this`followerRouteIndex
      ensures Valid() && (ok <==> route != [])
      ensures ok ==>
        var end := if laggedIndex < |route| then laggedIndex else |route| - 1;
        Tracks(AtMost(old(followerRouteIndex), end), end, followerWorld, lagged, was, target)
    {
      if route == [] {
        return false, was;
      }
      var end := if laggedIndex < |route| then laggedIndex else |route| - 1;
      var start := AtMost(followerRouteIndex, end);
      followerRouteIndex := NearestBetween(start, end, followerWorld);
      target := LookAhead(followerWorld, followerRouteIndex, end, Max(0.08, routeTrackingLookahead), lagged, was);
      ok := true;
    }

    /** The tracking target is within the look-ahead of the follower. */
    lemma TrackingReach(followerWorld: Point, from: nat, end: nat, lagged: RoutePoint, was: RoutePoint)
      requires Valid() && IsDistance(distance3d) && pathSampleSpacing > TINY && from <= end < |route|
      ensures var lookahead := Max(0.08, routeTrackingLookahead);
        var target := Ahead(route, followerWorld, from, end, lookahead, lagged, was, distance3d);
        distance3d(followerWorld, target.position) <= lookahead + TINY
    {
      AheadReach(route, followerWorld, from, end, Max(0.08, routeTrackingLookahead), lagged, was, distance3d,
                 pathSampleSpacing);
    }

    /** The last route point before the previous relay point, and the last not past this one. */
    ghost predicate Window(segmentStart: real, relayProgress: real, start: nat, end: nat)
      reads this
    {
      && start < |route| && end < |route|
      && (start == 0 || route[start].progress + pathSampleSpacing < segmentStart)
      && (forall j | start < j <= end :: route[j].progress + pathSampleSpacing >= segmentStart)
      && (forall j | 0 <= j <= end && (j > 0 || end > 0) :: route[j].progress <= relayProgress + pathSampleSpacing)
      && (end + 1 < |route| && (end > 0 || route[0].progress <= relayProgress + pathSampleSpacing)
          ==> route[end + 1].progress > relayProgress + pathSampleSpacing)
    }

    method RelayWindow(segmentStart: real, relayProgress: real) returns (start: nat, end: nat)
      requires Valid() && route != []
      ensures Window(segmentStart, relayProgress, start, end)
    {
      start, end := 0, 0;
      for i := 0 to |route|
        invariant start < |route| && (i == 0 ==> end == 0) && (i > 0 ==> end == i - 1)
        invariant start == 0 || route[start].progress + pathSampleSpacing < segmentStart
        invariant forall j | start < j < i :: route[j].progress + pathSampleSpacing >= segmentStart
        invariant forall j | 0 <= j < i :: route[j].progress <= relayProgress + pathSampleSpacing
      {
        if route[i].progress + pathSampleSpacing < segmentStart { start := i; }
        if route[i].progress > relayProgress + pathSampleSpacing { break; }
        end := i;
      }
    }

    /** The follower index moves up to the window. */
    method EnterWindow(segmentStart: real, relayProgress: real) returns (start: nat, end: nat)
      requires Valid() && route != []
      modifies this`followerRouteIndex
      ensures Valid() && Window(segmentStart, relayProgress, start, end) && end < |route|
      ensures followerRouteIndex == AtLeast(old(followerRouteIndex), start)
    {
      start, end := RelayWindow(segmentStart, relayProgress);
      if followerRouteIndex < start { followerRouteIndex := start; }
    }

    /** What tracking within route[start..end] may return. */
    ghost predicate Tracks(start: nat, end: nat, p: Point, relay: RoutePoint, was: RoutePoint, target: RoutePoint)
      reads this
    {
      && start <= followerRouteIndex <= end < |route|
      && (forall i | start <= i <= end :: Horizontal(followerRouteIndex, p) <= Horizontal(i, p))
      && target == Ahead(route, p, followerRouteIndex, end, Max(0.08, routeTrackingLookahead), relay, was, distance3d)
    }

    /** getRelayRouteTarget; `segmentStart` is the progress of the relay point before the active one. */
    method GetRelayRouteTarget(followerWorld: Point, relay: RoutePoint, segmentStart: real, was: RoutePoint)
      returns (ok: bool, target: RoutePoint, ghost start: nat, ghost end: nat)
      requires Valid()
      modifies this`followerRouteIndex
      ensures Valid() && (ok <==> route != [])
      ensures ok ==>
        && Window(segmentStart, relay.progress, start, end)
        && Tracks(AtMost(AtLeast(old(followerRouteIndex), start), end), end, followerWorld, relay, was, target)
    {
      if route == [] {
        return false, was, 0, 0;
      }
      var from, to := EnterWindow(segmentStart, relay.progress);
      start, end := from, to;
      ok, target := GetRouteTrackingTarget(followerWorld, relay, to, was);
    }
  }

  /** getRouteTargetBehindEnd and getLaggedTarget return the place on the polyline at progress
      max(first, last - distance). */
  lemma TargetOnRoute(t: Tracker, distance: real)
    requires t.Valid() && IsDistance(t.distance3d) && t.pathSampleSpacing > TINY && t.route != [] && distance >= 0.0
    ensures var s := LookBack(t.route, |t.route| - 1, distance, t.distance3d);
      && OnRoute(t.route, s)
      && ProgressAt(t.route, s) == Max(t.route[0].progress, t.route[|t.route| - 1].progress - distance)
  {
    LookBackOk(t.route, |t.route| - 1, distance, t.distance3d, t.pathSampleSpacing);
  }

  lemma UnitDistance(len: Metric)
    requires IsDistance(len)
    ensures var a, b, c := Point(0.0, 0.0, 0.0), Point(1.0, 0.0, 0.0), Point(1.0, TINY, 0.0);
      len(a, b) == len(b, a) == 1.0 && len(b, c) == len(c, b) == TINY
  {
    var a, b, c := Point(0.0, 0.0, 0.0), Point(1.0, 0.0, 0.0), Point(1.0, TINY, 0.0);
    assert Dist(a, b) == 1.0 && Dist(b, c) == TINY * TINY;
    RootUnique(len(a, b), 1.0);
    RootUnique(len(b, c), TINY);
    Symmetric(len, a, b);
    Symmetric(len, b, c);
  }

  /** A segment of length one, and one too short to interpolate on. */
  ghost predicate TinyEnd(route: seq<RoutePoint>, len: Metric) {
    |route| == 3 &&
    var a, b, c := route[0].position, route[1].position, route[2].position;
    && len(a, b) == len(b, a) == 1.0 && len(b, c) == len(c, b) == TINY
    && route[1].progress - route[0].progress == 1.0 && route[2].progress - route[1].progress == TINY
  }

  lemma LeavesRoute(route: seq<RoutePoint>, len: Metric, spacing: real)
    requires TinyEnd(route, len) && spacing <= TINY
    ensures !StaysOn(route, 0.0, len, spacing)
  {
    assert LookBack(route, 1, -TINY, len) == Spot(1, -TINY);
    assert LookBack(route, 2, 0.0, len) == Spot(1, -TINY);
  }

  /** A sample spacing of TINY or less lets a look-back leave the polyline: after a segment too short
      to interpolate on, the remaining distance is negative. */
  lemma TinySegmentsLeaveRoute(len: Metric, spacing: real) returns (route: seq<RoutePoint>)
    requires IsDistance(len) && spacing <= TINY
    ensures !StaysOn(route, 0.0, len, spacing)
  {
    UnitDistance(len);
    route := [RoutePoint(Point(0.0, 0.0, 0.0), 0.0, 0.0), RoutePoint(Point(1.0, 0.0, 0.0), 0.0, 1.0),
              RoutePoint(Point(1.0, TINY, 0.0), 0.0, 1.0 + TINY)];
    LeavesRoute(route, len, spacing);
  }

  /** Looking back from the end of this route by `d` ends on the polyline. */
  ghost predicate StaysOn(route: seq<RoutePoint>, d: real, len: Metric, spacing: real) {
    route != [] && Metred(route, len, spacing) && d >= 0.0 ==> OnRoute(route, LookBack(route, |route| - 1, d, len))
  }

  /** It does so for every route and distance exactly when the sample spacing is more than TINY. */
  lemma LookBackIff(len: Metric, spacing: real)
    requires IsDistance(len)
    ensures (forall route: seq<RoutePoint>, d: real :: StaysOn(route, d, len, spacing)) <==> spacing > TINY
  {
    if spacing > TINY {
      forall route: seq<RoutePoint>, d: real ensures StaysOn(route, d, len, spacing) {
        if route != [] && Metred(route, len, spacing) && d >= 0.0 {
          LookBackOk(route, |route| - 1, d, len, spacing);
        }
      }
    } else {
      var route := TinySegmentsLeaveRoute(len, spacing);
      assert !StaysOn(route, 0.0, len, spacing);
    }
  }
}
