/** Where the commands lead, what they follow and where a hold is latched, over lists of events. */
module Guidance {
  import opened Geometry
  import opened Norm
  import opened SpeedEnvelope
  import opened Flight

  // ----- tracking closes in on the reference -----

  function At(p: Pose): Command { Command(p.xy, p.z) }

  function SumSq(x: real, y: real, z: real): real { x * x + y * y + z * z }

  /** Squared distance. */
  function GapSq(a: Command, b: Command): real { SumSq(a.xy.x - b.xy.x, a.xy.y - b.xy.y, a.z - b.z) }

  /** Where something at `p` is after `dt` at the velocity `v`. */
  function Later(p: Command, v: Command, dt: real): Command {
    Command(Vec(p.xy.x + dt * v.xy.x, p.xy.y + dt * v.xy.y), p.z + dt * v.z)
  }

  lemma GapShrinks(r: real, w: real, a: real, v: real, k: real, dt: real)
    requires v == w + k * (r - a)
    ensures (r + dt * w) - (a + dt * v) == (1.0 - k * dt) * (r - a)
  {
    assert dt * v == dt * w + dt * (k * (r - a));
    assert dt * (k * (r - a)) == (k * dt) * (r - a);
  }

  lemma SquareOfProduct(m: real, e: real)
    ensures (m * e) * (m * e) == m * m * (e * e)
  {
  }

  lemma Distributes(k: real, x: real, y: real, z: real)
    ensures k * x + k * y + k * z == k * (x + y + z)
  {
  }

  lemma SumSqScales(m: real, x: real, y: real, z: real)
    ensures SumSq(m * x, m * y, m * z) == m * m * SumSq(x, y, z)
  {
    SquareOfProduct(m, x);
    SquareOfProduct(m, y);
    SquareOfProduct(m, z);
    Distributes(m * m, x * x, y * y, z * z);
  }

  /** A velocity that makes up for the error at rate `k`, whatever the reference does. */
  predicate Pursues(at: Command, v: Command, ref: Command, w: Command, k: real) {
    && v.xy.x == w.xy.x + k * (ref.xy.x - at.xy.x) && v.xy.y == w.xy.y + k * (ref.xy.y - at.xy.y)
    && v.z == w.z + k * (ref.z - at.z)
  }

  lemma PursuitStep(at: Command, v: Command, ref: Command, w: Command, k: real, dt: real, m: real)
    requires Pursues(at, v, ref, w, k) && m == 1.0 - k * dt
    ensures var p, q := Later(ref, w, dt), Later(at, v, dt);
      && p.xy.x - q.xy.x == m * (ref.xy.x - at.xy.x) && p.xy.y - q.xy.y == m * (ref.xy.y - at.xy.y)
      && p.z - q.z == m * (ref.z - at.z)
  {
    GapShrinks(ref.xy.x, w.xy.x, at.xy.x, v.xy.x, k, dt);
    GapShrinks(ref.xy.y, w.xy.y, at.xy.y, v.xy.y, k, dt);
    GapShrinks(ref.z, w.z, at.z, v.z, k, dt);
  }

  lemma Pursuit(at: Command, v: Command, ref: Command, w: Command, k: real, dt: real, m: real)
    requires Pursues(at, v, ref, w, k) && m == 1.0 - k * dt
    ensures GapSq(Later(ref, w, dt), Later(at, v, dt)) == m * m * GapSq(ref, at)
  {
    var x, y, z := ref.xy.x - at.xy.x, ref.xy.y - at.xy.y, ref.z - at.z;
    PursuitStep(at, v, ref, w, k, dt, m);
    var p, q := Later(ref, w, dt), Later(at, v, dt);
    SumSqOf(p.xy.x - q.xy.x, p.xy.y - q.xy.y, p.z - q.z, x, y, z, m);
  }

  lemma SumSqOf(p: real, q: real, r: real, x: real, y: real, z: real, m: real)
    requires p == m * x && q == m * y && r == m * z
    ensures SumSq(p, q, r) == m * m * SumSq(x, y, z)
  {
    SumSqScales(m, x, y, z);
  }

  /** The velocity asked for is within every limit. */
  predicate Fits(s: State, now: real, c: Setup) {
    var raw, step := Raw(s.reference, s.pose), StepAt(s, now, c);
    && c.hypot(raw.xy) <= c.limits.maxXy && -c.limits.maxZ <= raw.z <= c.limits.maxZ
    && s.pose.c * raw.xy.x + s.pose.s * raw.xy.y >= -c.limits.maxReverse
    && c.hypot(Minus(raw.xy, s.lastCmd.xy)) <= step.xy && -step.z <= raw.z - s.lastCmd.z <= step.z
  }

  lemma TrackPursues(s: State, now: real, c: Setup)
    requires s.armed && Fits(s, now, c)
    ensures Pursues(At(s.pose), TrackCommand(s, now, c), s.reference.position, s.reference.velocity, 0.7)
  {
    ShapeTransparent(Raw(s.reference, s.pose), s.lastCmd, s.pose.c, s.pose.s, StepAt(s, now, c), c.limits, c.hypot);
  }

  lemma NoLarger(m: real, gap: real)
    requires -1.0 <= m <= 1.0 && gap >= 0.0
    ensures m * m * gap <= gap
  {
    if m >= 0.0 { SquareMonotone(m, 1.0); } else { SquareMonotone(-m, 1.0); }
    Product(1.0 - m * m, gap);
  }

  lemma GapPositive(a: Command, b: Command)
    ensures GapSq(a, b) >= 0.0
  {
    var x, y, z := a.xy.x - b.xy.x, a.xy.y - b.xy.y, a.z - b.z;
    assert x * x >= 0.0 && y * y >= 0.0 && z * z >= 0.0;
  }

  lemma NoError(at: Command, v: Command, ref: Command, w: Command, k: real)
    requires Pursues(at, v, ref, w, k) && ref == at
    ensures v == w
  {
  }

  /** What pursuit at rate `k` achieves in a time after which the factor `m` is left. */
  ghost predicate ClosesIn(at: Command, v: Command, ref: Command, w: Command, dt: real, m: real) {
    var gap, after := GapSq(ref, at), GapSq(Later(ref, w, dt), Later(at, v, dt));
    after == m * m * gap && (-1.0 <= m <= 1.0 ==> after <= gap) && (ref == at ==> v == w)
  }

  lemma PursuitClosesIn(at: Command, v: Command, ref: Command, w: Command, k: real, dt: real, m: real)
    requires Pursues(at, v, ref, w, k) && m == 1.0 - k * dt
    ensures ClosesIn(at, v, ref, w, dt, m)
  {
    var gap, after := GapSq(ref, at), GapSq(Later(ref, w, dt), Later(at, v, dt));
    Pursuit(at, v, ref, w, k, dt, m);
    GapPositive(ref, at);
    if -1.0 <= m <= 1.0 { NoLarger(m, gap); }
    assert after == m * m * gap;
    assert -1.0 <= m <= 1.0 ==> after <= gap;
    if ref == at { NoError(at, v, ref, w, k); }
    assert ref == at ==> v == w;
  }

  /** An armed tracking tick within the limits: after dt at the published velocity, while the reference
      moves on at its own, the squared distance is (1 - 0.7 dt)^2 times what it was, so no larger for
      dt up to 2 / 0.7; with no error exactly the reference velocity is published. */
  lemma TrackingClosesIn(s: State, now: real, autoLand: bool, c: Setup, dt: real, m: real)
    requires BranchOf(s, now, autoLand, c) == Tracking && s.armed && Fits(s, now, c) && m == 1.0 - 0.7 * dt
    ensures var out := Output(s, now, autoLand, c);
      out.Velocity? && ClosesIn(At(s.pose), out.velocity, s.reference.position, s.reference.velocity, dt, m)
  {
    TrackPursues(s, now, c);
    PursuitClosesIn(At(s.pose), TrackCommand(s, now, c), s.reference.position, s.reference.velocity, 0.7, dt, m);
  }

  lemma PublishesTrack(s: State, now: real, autoLand: bool, c: Setup)
    requires BranchOf(s, now, autoLand, c) == Tracking
    ensures Output(s, now, autoLand, c).Velocity? && Output(s, now, autoLand, c).velocity == TrackCommand(s, now, c)
    ensures var r := OnTick(s, now, autoLand, c);
      r.lastCmd == TrackCommand(s, now, c) && r.lastControlStamp == Some(now)
  {
  }

  lemma TrackSteps(r: State, now: real, c: Setup, step: Step, last: Command)
    requires Flyable(c) && InBounds(r, c) && r.armed && StepAt(r, now, c) == step && r.lastCmd == last
    ensures StepBounded(TrackCommand(r, now, c), last, step)
  {
    TrackOk(r, now, c);
  }

  lemma StepBetween(r: State, t0: real, t1: real, c: Setup)
    requires r.lastControlStamp == Some(t0) && 0.0001 < t1 - t0 <= 0.2
    ensures StepAt(r, t1, c) == Step(c.limits.slewXy * (t1 - t0), c.limits.slewZ * (t1 - t0))
  {
  }

  /** Two tracking ticks in a row, a plausible time apart: the velocity changes by no more than the slew
      rates times the time between them. */
  lemma TicksSlew(s: State, t0: real, t1: real, autoLand: bool, c: Setup, step: Step)
    requires Flyable(c) && InBounds(s, c) && s.armed && 0.0001 < t1 - t0 <= 0.2
    requires step == Step(c.limits.slewXy * (t1 - t0), c.limits.slewZ * (t1 - t0))
    requires BranchOf(s, t0, autoLand, c) == Tracking
    requires BranchOf(OnTick(s, t0, autoLand, c), t1, autoLand, c) == Tracking
    ensures var r := OnTick(s, t0, autoLand, c);
      && Output(s, t0, autoLand, c).Velocity? && Output(r, t1, autoLand, c).Velocity?
      && StepBounded(Output(r, t1, autoLand, c).velocity, Output(s, t0, autoLand, c).velocity, step)
  {
    var r := OnTick(s, t0, autoLand, c);
    PublishesTrack(s, t0, autoLand, c);
    PublishesTrack(r, t1, autoLand, c);
    TickInside(s, t0, autoLand, c);
    TickKeepsPoses(s, t0, autoLand, c);
    StepBetween(r, t0, t1, c);
    TrackSteps(r, t1, c, step, TrackCommand(s, t0, c));
  }

  // ----- climbing and holding lead back, too -----

  /** Along one axis: after dt at `v` the target is no farther, and nearer unless it was reached. */
  predicate Nears(target: real, at: real, v: real, dt: real) {
    && AbsOf(target - (at + dt * v)) <= AbsOf(target - at)
    && (target != at ==> AbsOf(target - (at + dt * v)) < AbsOf(target - at))
  }

  lemma NearsBy(target: real, at: real, v: real, dt: real, e: real, d: real)
    requires e == target - at && d == dt * v
    requires (e > 0.0 ==> 0.0 < d <= e) && (e < 0.0 ==> e <= d < 0.0) && (e == 0.0 ==> d == 0.0)
    ensures Nears(target, at, v, dt)
  {
  }

  lemma FullStep(e: real, k: real, dt: real, w: real)
    requires e > 0.0 && w == k * e && 0.0 < k && 0.0 < dt && k * dt <= 1.0
    ensures 0.0 < w && dt * w <= e
  {
    Positive(k, e);
    assert dt * w == (k * dt) * e;
    Product(1.0 - k * dt, e);
  }

  lemma ClampedStep(e: real, w: real, v: real, dt: real)
    requires 0.0 < v <= w && 0.0 < dt && dt * w <= e
    ensures 0.0 < dt * v <= e
  {
    Positive(dt, v);
    Product(dt, w - v);
  }

  lemma ClampedNears(target: real, at: real, k: real, bound: real, dt: real, v: real)
    requires 0.0 < k && 0.0 < bound && 0.0 < dt && k * dt <= 1.0
    requires v == Max(-bound, Min(bound, k * (target - at)))
    ensures Nears(target, at, v, dt)
  {
    var e := target - at;
    if e > 0.0 {
      FullStep(e, k, dt, k * e);
      ClampedStep(e, k * e, v, dt);
    } else if e < 0.0 {
      FullStep(-e, k, dt, k * -e);
      ClampedStep(-e, k * -e, -v, dt);
    }
    NearsBy(target, at, v, dt, e, dt * v);
  }

  lemma ClimbNears(s: State, c: Setup, dt: real)
    requires c.limits.maxZ > 0.0 && 0.0 < dt <= 1.0
    ensures var v := ClimbCommand(s, c);
      && Nears(s.start.x, s.pose.xy.x, v.xy.x, dt) && Nears(s.start.y, s.pose.xy.y, v.xy.y, dt)
      && Nears(c.limits.takeoffHeight, s.pose.z, v.z, dt)
  {
    var v := ClimbCommand(s, c);
    ClampedNears(s.start.x, s.pose.xy.x, 1.0, 0.20, dt, v.xy.x);
    ClampedNears(s.start.y, s.pose.xy.y, 1.0, 0.20, dt, v.xy.y);
    ClampedNears(c.limits.takeoffHeight, s.pose.z, 0.5, c.limits.maxZ, dt, v.z);
  }

  /** A climbing tick publishes a velocity that leads back to the start and to the take-off height. */
  lemma ClimbingClosesIn(s: State, now: real, autoLand: bool, c: Setup, dt: real)
    requires BranchOf(s, now, autoLand, c) == Climbing && c.limits.maxZ > 0.0 && 0.0 < dt <= 1.0
    ensures var out := Output(s, now, autoLand, c);
      && out.Velocity? && Nears(s.start.x, s.pose.xy.x, out.velocity.xy.x, dt)
      && Nears(s.start.y, s.pose.xy.y, out.velocity.xy.y, dt)
      && Nears(c.limits.takeoffHeight, s.pose.z, out.velocity.z, dt)
  {
    ClimbNears(s, c, dt);
  }

  lemma LimitIsMultiple(v: Vec, max: real, hypot: Hypot) returns (k: real)
    requires IsHypot(hypot) && max > 0.0
    ensures 0.0 < k <= 1.0 && Limit(max, hypot)(v) == Vec(v.x * k, v.y * k)
  {
    var speed := hypot(v);
    k := if speed > max && speed > EPS then max / speed else 1.0;
  }

  lemma ScaledPursuit(r: real, a: real, v: real, k: real, dt: real, m: real)
    requires v == 0.8 * (r - a) * k && m == 1.0 - 0.8 * k * dt
    ensures r - (a + dt * v) == m * (r - a)
  {
    assert dt * v == (0.8 * k * dt) * (r - a);
  }

  lemma ShrinkFactor(k: real, dt: real)
    requires 0.0 < k <= 1.0 && 0.0 < dt <= 1.0
    ensures 0.0 <= 1.0 - 0.8 * k * dt < 1.0
  {
    Positive(k, dt);
    Product(1.0 - k, dt);
    assert 0.8 * k * dt == 0.8 * (k * dt);
  }

  lemma SquareBelowOne(m: real)
    requires 0.0 <= m < 1.0
    ensures m * m < 1.0
  {
    if m > 0.0 { Positive(m, 1.0 - m); }
  }

  lemma SmallerProduct(f: real, q: real)
    requires 0.0 <= f < 1.0 && q >= 0.0
    ensures f * q <= q && (q > 0.0 ==> f * q < q)
  {
    Product(1.0 - f, q);
    if q > 0.0 { Positive(1.0 - f, q); }
  }

  lemma SmallerSquare(m: real, q: real)
    requires 0.0 <= m < 1.0 && q >= 0.0
    ensures m * m * q <= q && (q > 0.0 ==> m * m * q < q)
  {
    SquareBelowOne(m);
    Product(m, m);
    SmallerProduct(m * m, q);
  }

  /** Squared distance across. */
  function Across(a: Vec, b: Vec): real { SumSq(a.x - b.x, a.y - b.y, 0.0) }

  lemma SumSqPositive(x: real, y: real)
    ensures SumSq(x, y, 0.0) >= 0.0 && (x != 0.0 || y != 0.0 ==> SumSq(x, y, 0.0) > 0.0)
  {
    var p, q := x * x, y * y;
    SquarePositive(x, p);
    SquarePositive(y, q);
    assert SumSq(x, y, 0.0) == p + q;
  }

  lemma AcrossShrinks(hold: Vec, at: Vec, to: Vec, m: real)
    requires 0.0 <= m < 1.0 && hold.x - to.x == m * (hold.x - at.x) && hold.y - to.y == m * (hold.y - at.y)
    ensures Across(hold, to) <= Across(hold, at) && (hold != at ==> Across(hold, to) < Across(hold, at))
  {
    ScaledSquares(hold.x - at.x, hold.y - at.y, hold.x - to.x, hold.y - to.y, m);
  }

  lemma ScaledSquares(x: real, y: real, u: real, w: real, m: real)
    requires 0.0 <= m < 1.0 && u == m * x && w == m * y
    ensures SumSq(u, w, 0.0) <= SumSq(x, y, 0.0)
    ensures x != 0.0 || y != 0.0 ==> SumSq(u, w, 0.0) < SumSq(x, y, 0.0)
  {
    SumSqScales(m, x, y, 0.0);
    assert SumSq(u, w, 0.0) == m * m * SumSq(x, y, 0.0);
    SumSqPositive(x, y);
    SmallerSquare(m, SumSq(x, y, 0.0));
  }

  lemma PositiveIs(a: real, b: real, p: real)
    requires a > 0.0 && b > 0.0 && p == a * b
    ensures p > 0.0
  {
  }

  lemma SquarePositive(x: real, p: real)
    requires p == x * x
    ensures p >= 0.0 && (x != 0.0 ==> p > 0.0)
  {
    if x > 0.0 { PositiveIs(x, x, p); } else if x < 0.0 { PositiveIs(-x, -x, p); }
  }

  lemma BackIsMultiple(hold: Command, at: Pose, hypot: Hypot) returns (v: Command, k: real)
    requires IsHypot(hypot)
    ensures v == BackToHold(hold, at, hypot) && 0.0 < k <= 1.0
    ensures Backs(hold.xy, at.xy, v.xy, k)
    ensures v.z == Max(-0.15, Min(0.15, 0.8 * (hold.z - at.z)))
  {
    v := BackToHold(hold, at, hypot);
    k := LimitIsMultiple(Times(0.8, Minus(hold.xy, at.xy)), 0.20, hypot);
  }

  /** The command leads back to the point held. */
  ghost predicate LeadsBack(hold: Command, at: Pose, v: Command, dt: real) {
    var to := Vec(at.xy.x + dt * v.xy.x, at.xy.y + dt * v.xy.y);
    && Across(hold.xy, to) <= Across(hold.xy, at.xy)
    && (hold.xy != at.xy ==> Across(hold.xy, to) < Across(hold.xy, at.xy))
    && Nears(hold.z, at.z, v.z, dt)
  }

  lemma MultipleLeadsBack(hold: Command, at: Pose, v: Command, k: real, dt: real)
    requires 0.0 < k <= 1.0 && 0.0 < dt <= 1.0
    requires Backs(hold.xy, at.xy, v.xy, k)
    requires v.z == Max(-0.15, Min(0.15, 0.8 * (hold.z - at.z)))
    ensures LeadsBack(hold, at, v, dt)
  {
    var to := Vec(at.xy.x + dt * v.xy.x, at.xy.y + dt * v.xy.y);
    BackAcross(hold.xy, at.xy, v.xy, k, dt, to);
    ClampedNears(hold.z, at.z, 0.8, 0.15, dt, v.z);
  }

  /** The fallback hold does so for every dt up to a second. */
  lemma HoldNears(hold: Command, at: Pose, hypot: Hypot, dt: real)
    requires IsHypot(hypot) && 0.0 < dt <= 1.0
    ensures LeadsBack(hold, at, BackToHold(hold, at, hypot), dt)
  {
    var v, k := BackIsMultiple(hold, at, hypot);
    MultipleLeadsBack(hold, at, v, k, dt);
  }

  /** Back towards the point held, at some rate. */
  predicate Backs(hold: Vec, at: Vec, v: Vec, k: real) {
    v.x == 0.8 * (hold.x - at.x) * k && v.y == 0.8 * (hold.y - at.y) * k
  }

  lemma BackAcross(hold: Vec, at: Vec, v: Vec, k: real, dt: real, to: Vec)
    requires 0.0 < k <= 1.0 && 0.0 < dt <= 1.0 && Backs(hold, at, v, k)
    requires to == Vec(at.x + dt * v.x, at.y + dt * v.y)
    ensures Across(hold, to) <= Across(hold, at) && (hold != at ==> Across(hold, to) < Across(hold, at))
  {
    var m := 1.0 - 0.8 * k * dt;
    ShrinkFactor(k, dt);
    ScaledPursuit(hold.x, at.x, v.x, k, dt, m);
    ScaledPursuit(hold.y, at.y, v.y, k, dt, m);
    AcrossShrinks(hold, at, to, m);
  }

  /** A holding tick publishes the point held, or a velocity that leads back to it. */
  lemma HoldingClosesIn(s: State, now: real, autoLand: bool, c: Setup, dt: real)
    requires BranchOf(s, now, autoLand, c) == Holding && s.holdLatched && IsHypot(c.hypot) && 0.0 < dt <= 1.0
    ensures var out := Output(s, now, autoLand, c);
      if s.holdUsesMavros then out == HoldPosition(s.hold)
      else out.Velocity? && LeadsBack(s.hold, s.pose, out.velocity, dt)
  {
    HoldNears(s.hold, s.pose, c.hypot, dt);
  }

  /** The feed-forward acceleration stays within its limits, and is passed on where it was. */
  lemma FeedOk(a: Command, l: Limits, hypot: Hypot)
    requires IsHypot(hypot) && l.maxAccXy >= 0.0 && l.maxAccZ >= 0.0
    ensures var f := Feed(a, l, hypot);
      && Short(Max(l.maxAccXy, EPS))(f.xy) && -l.maxAccZ <= f.z <= l.maxAccZ
      && (hypot(a.xy) <= l.maxAccXy && -l.maxAccZ <= a.z <= l.maxAccZ ==> f == a)
  {
    LimitOk(a.xy, l.maxAccXy, hypot);
  }

  // ----- what the flags and poses are, by the events -----

  /** Event i is the last one that `what` holds of. */
  ghost predicate LastIs(events: seq<Event>, what: Event -> bool, i: nat) {
    i < |events| && what(events[i]) && forall j | i < j < |events| :: !what(events[j])
  }

  ghost predicate Any(events: seq<Event>, what: Event -> bool) { exists i :: 0 <= i < |events| && what(events[i]) }

  lemma SomeStep(front: seq<Event>, e: Event, what: Event -> bool)
    ensures Any(front + [e], what) <==> Any(front, what) || what(e)
  {
    var all := front + [e];
    assert all[|front|] == e && forall i | 0 <= i < |front| :: all[i] == front[i];
  }

  lemma LastStep(front: seq<Event>, e: Event, what: Event -> bool, i: nat)
    ensures LastIs(front + [e], what, i) <==> if what(e) then i == |front| else LastIs(front, what, i)
  {
    var all := front + [e];
    assert all[|front|] == e && forall k | 0 <= k < |front| :: all[k] == front[k];
    if i < |front| && what(e) { assert what(all[|front|]); }
    if LastIs(front, what, i) && !what(e) {
      forall j | i < j < |all| ensures !what(all[j]) {}
    }
  }

  function IsPose(): Event -> bool { (e: Event) => e.GotPose? }
  function IsMavros(): Event -> bool { (e: Event) => e.GotMavros? }
  function IsArming(): Event -> bool { (e: Event) => e.GotArmed? }
  function IsReference(): Event -> bool { (e: Event) => e.GotReference? }
  function IsHigh(c: Setup): Event -> bool { (e: Event) => e.GotPose? && e.pose.z > c.enableHeight }

  predicate KeepsPoses(s: State, r: State) {
    && r.haveOdom == s.haveOdom && r.pose == s.pose && r.start == s.start && r.plannerEnabled == s.plannerEnabled
    && r.haveMavros == s.haveMavros && r.mavros == s.mavros && r.armed == s.armed
  }

  lemma TickKeepsPoses(s: State, now: real, autoLand: bool, c: Setup)
    ensures KeepsPoses(s, OnTick(s, now, autoLand, c))
  {
  }

  lemma HoldKeepsPoses(s: State, data: bool)
    ensures KeepsPoses(s, OnHold(s, data))
  {
  }

  lemma LandingKeepsPoses(s: State, data: bool)
    ensures KeepsPoses(s, OnLanding(s, data))
  {
  }

  lemma NewPose(s: State, p: Pose, enableHeight: real)
    ensures var r := OnPose(s, p, enableHeight);
      && r.haveOdom && r.pose == p && r.start == (if s.haveOdom then s.start else p.xy)
      && (r.plannerEnabled <==> s.plannerEnabled || p.z > enableHeight)
      && r.haveMavros == s.haveMavros && r.mavros == s.mavros && r.armed == s.armed
  {
  }

  lemma OthersKeepPoses(s: State, e: Event, c: Setup)
    requires !e.GotPose? && !e.GotMavros? && !e.GotArmed?
    ensures KeepsPoses(s, React(s, e, c))
  {
    match e
    case Tick(now, autoLand) => TickKeepsPoses(s, now, autoLand, c);
    case HoldRequest(data) => HoldKeepsPoses(s, data);
    case LandingRequest(data) => LandingKeepsPoses(s, data);
    case _ =>
  }

  lemma PoseStep(s: State, e: Event, c: Setup)
    ensures var r := React(s, e, c);
      && (r.haveOdom <==> s.haveOdom || e.GotPose?)
      && r.pose == (if e.GotPose? then e.pose else s.pose)
      && r.start == (if e.GotPose? && !s.haveOdom then e.pose.xy else s.start)
      && (r.plannerEnabled <==> s.plannerEnabled || IsHigh(c)(e))
  {
    if e.GotPose? {
      NewPose(s, e.pose, c.enableHeight);
    } else if !e.GotMavros? && !e.GotArmed? {
      OthersKeepPoses(s, e, c);
    }
  }

  lemma MavrosStep(s: State, e: Event, c: Setup)
    ensures var r := React(s, e, c);
      && r.haveMavros == (if e.GotMavros? then e.consistent else s.haveMavros)
      && r.mavros == (if e.GotMavros? then e.position else s.mavros)
      && r.armed == (if e.GotArmed? then e.armed else s.armed)
  {
    if e.GotPose? {
      NewPose(s, e.pose, c.enableHeight);
    } else if !e.GotMavros? && !e.GotArmed? {
      OthersKeepPoses(s, e, c);
    }
  }

  /** In every run: a pose is there once one came, it is the last one that came, and the gate is open
      once one came from above the enable height. */
  lemma {:induction false} PoseIsLast(events: seq<Event>, c: Setup)
    ensures var s := After(START, events, c);
      && (s.haveOdom <==> Any(events, IsPose())) && (s.plannerEnabled <==> Any(events, IsHigh(c)))
      && (forall i: nat | LastIs(events, IsPose(), i) :: s.pose == events[i].pose)
    decreases |events|
  {
    if events != [] {
      var front, e := events[..|events| - 1], events[|events| - 1];
      assert events == front + [e];
      PoseIsLast(front, c);
      PoseStep(After(START, front, c), e, c);
      SomeStep(front, e, IsPose());
      SomeStep(front, e, IsHigh(c));
      forall i: nat | LastIs(events, IsPose(), i) ensures After(START, events, c).pose == events[i].pose {
        LastStep(front, e, IsPose(), i);
      }
    }
  }

  /** The start is where the first pose was. */
  lemma {:induction false} StartIsFirst(events: seq<Event>, i: nat, c: Setup)
    requires i < |events| && events[i].GotPose? && forall j | 0 <= j < i :: !events[j].GotPose?
    ensures After(START, events, c).start == events[i].pose.xy
    decreases |events|
  {
    var front, e := events[..|events| - 1], events[|events| - 1];
    PoseStep(After(START, front, c), e, c);
    PoseIsLast(front, c);
    if i < |events| - 1 {
      StartIsFirst(front, i, c);
      assert IsPose()(front[i]);
    } else {
      forall k | 0 <= k < |front| ensures !IsPose()(front[k]) { assert front[k] == events[k]; }
    }
  }

  /** In every run the autopilot pose and its consistency are those that came last, and so is arming. */
  lemma {:induction false} MavrosIsLast(events: seq<Event>, c: Setup)
    ensures var s := After(START, events, c);
      && (forall i: nat | LastIs(events, IsMavros(), i) ::
            s.mavros == events[i].position && s.haveMavros == events[i].consistent)
      && (!Any(events, IsMavros()) ==> !s.haveMavros)
      && (forall i: nat | LastIs(events, IsArming(), i) :: s.armed == events[i].armed)
      && (!Any(events, IsArming()) ==> !s.armed)
    decreases |events|
  {
    if events != [] {
      var front, e := events[..|events| - 1], events[|events| - 1];
      assert events == front + [e];
      MavrosIsLast(front, c);
      MavrosStep(After(START, front, c), e, c);
      SomeStep(front, e, IsMavros());
      SomeStep(front, e, IsArming());
      forall i: nat ensures LastIs(events, IsMavros(), i) <==>
        if e.GotMavros? then i == |front| else LastIs(front, IsMavros(), i)
      {
        LastStep(front, e, IsMavros(), i);
      }
      forall i: nat ensures LastIs(events, IsArming(), i) <==>
        if e.GotArmed? then i == |front| else LastIs(front, IsArming(), i)
      {
        LastStep(front, e, IsArming(), i);
      }
    }
  }

  // ----- where a hold is latched -----

  /** A request that latches: the first one of a hold, or any landing request. */
  predicate Latches(s: State, e: Event) { e == LandingRequest(true) || (e == HoldRequest(true) && !s.holdActive) }

  lemma LatchStep(s: State, e: Event, c: Setup)
    requires Latches(s, e)
    ensures var r := React(s, e, c);
      && r.holdActive && !r.receive && (r.holdLatched <==> s.haveMavros || s.haveOdom)
      && (r.holdUsesMavros <==> s.haveMavros)
      && (s.haveMavros ==> r.hold == s.mavros)
      && (!s.haveMavros && s.haveOdom ==> r.hold == Command(s.pose.xy, s.pose.z))
  {
  }

  /** After any events, such a request holds the position of the last autopilot pose if that is consistent
      with the odometry, and else that of the last odometry pose. */
  lemma LatchesLastPose(events: seq<Event>, e: Event, i: nat, j: nat, c: Setup)
    requires Latches(After(START, events, c), e) && LastIs(events, IsPose(), j)
    requires LastIs(events, IsMavros(), i) || !Any(events, IsMavros())
    ensures var r := React(After(START, events, c), e, c);
      && r.holdActive && r.holdLatched
      && (r.holdUsesMavros <==> Any(events, IsMavros()) && events[i].GotMavros? && events[i].consistent)
      && r.hold == if r.holdUsesMavros then events[i].position else At(events[j].pose)
  {
    PoseIsLast(events, c);
    MavrosIsLast(events, c);
    LatchStep(After(START, events, c), e, c);
    assert IsPose()(events[j]);
    if LastIs(events, IsMavros(), i) { assert IsMavros()(events[i]); }
  }

  // ----- what is followed -----

  /** The reference followed is the last one that came, at event i, with the gate open before it. */
  ghost predicate Followed(s: State, events: seq<Event>, c: Setup, i: nat) {
    && LastIs(events, IsReference(), i) && events[i].GotReference? && events[i].reference == s.reference
    && s.lastTrajCmdTime == Some(events[i].now) && Any(events[..i], IsHigh(c))
  }

  /** A reference may be dropped, but is not exchanged. */
  predicate MayDrop(s: State, r: State) {
    r.receive ==>
      s.receive && r.reference == s.reference && (s.plannerEnabled ==> r.lastTrajCmdTime == s.lastTrajCmdTime)
  }

  lemma TickMayDrop(s: State, now: real, autoLand: bool, c: Setup)
    ensures MayDrop(s, OnTick(s, now, autoLand, c))
  {
  }

  lemma PoseMayDrop(s: State, p: Pose, enableHeight: real)
    ensures MayDrop(s, OnPose(s, p, enableHeight))
  {
  }

  lemma FollowStep(s: State, e: Event, c: Setup)
    requires !e.GotReference?
    ensures MayDrop(s, React(s, e, c))
  {
    match e
    case Tick(now, autoLand) => TickMayDrop(s, now, autoLand, c);
    case GotPose(p) => PoseMayDrop(s, p, c.enableHeight);
    case _ =>
  }

  lemma FollowsNew(front: seq<Event>, e: Event, c: Setup)
    requires e.GotReference? && After(START, front, c).plannerEnabled
    ensures Followed(React(After(START, front, c), e, c), front + [e], c, |front|)
  {
    PoseIsLast(front, c);
    LastStep(front, e, IsReference(), |front|);
    assert (front + [e])[..|front|] == front;
  }

  lemma FollowsOld(f: State, front: seq<Event>, e: Event, c: Setup, i: nat)
    requires Followed(f, front, c, i) && !e.GotReference? && f.plannerEnabled && React(f, e, c).receive
    ensures Followed(React(f, e, c), front + [e], c, i)
  {
    FollowStep(f, e, c);
    LastStep(front, e, IsReference(), i);
    assert (front + [e])[..i] == front[..i];
  }

  lemma {:induction false} FollowsLast(events: seq<Event>, c: Setup)
    ensures var s := After(START, events, c); s.receive ==> exists i: nat :: Followed(s, events, c, i)
    decreases |events|
  {
    if events != [] && After(START, events, c).receive {
      var front, e := events[..|events| - 1], events[|events| - 1];
      var f := After(START, front, c);
      assert events == front + [e];
      GateOpensOnce(START, front, c);
      if e.GotReference? {
        GateOpensOnce(START, events, c);
        FollowsNew(front, e, c);
      } else {
        FollowsLast(front, c);
        FollowStep(f, e, c);
        var i: nat :| Followed(f, front, c, i);
        FollowsOld(f, front, e, c, i);
      }
    }
  }

  /** In every run a tracking tick follows the last reference that came, which is no older than the
      timeout and came after a pose above the enable height. */
  lemma TracksFreshReference(events: seq<Event>, now: real, autoLand: bool, c: Setup)
    requires BranchOf(After(START, events, c), now, autoLand, c) == Tracking
    ensures var s := After(START, events, c);
      exists i: nat :: Followed(s, events, c, i) && now - events[i].now <= c.limits.trajTimeout
  {
    FollowsLast(events, c);
    var s := After(START, events, c);
    var i: nat :| Followed(s, events, c, i);
    assert now - events[i].now <= c.limits.trajTimeout;
  }

  /** And it is tracked: right after a reference that came behind the open gate, while no hold is active,
      every tick within the timeout and without AUTO.LAND tracks it. */
  lemma ReferenceIsTracked(events: seq<Event>, r: Reference, sent: real, now: real, c: Setup)
    requires Any(events, IsHigh(c)) && !After(START, events, c).holdActive && now - sent <= c.limits.trajTimeout
    ensures var s := React(After(START, events, c), GotReference(r, sent), c);
      BranchOf(s, now, false, c) == Tracking && s.reference == r
  {
    PoseIsLast(events, c);
    var k :| 0 <= k < |events| && IsHigh(c)(events[k]);
    assert IsPose()(events[k]);
  }
}
