/** The velocity shaper of the follower's controller: limit, reverse clamp, slew limit. */
module SpeedEnvelope {
  import opened Geometry
  import opened Norm

  datatype Vec = Vec(x: real, y: real)
  datatype Command = Command(xy: Vec, z: real)

  datatype Limits = Limits(maxXy: real, maxZ: real, maxReverse: real, slewXy: real, slewZ: real,
                           maxAccXy: real, maxAccZ: real, takeoffHeight: real, trajTimeout: real)

  const EPS: real := 0.000001

  /** Squaring as a function value, so that proofs which only move squares around meet no products. */
  function Square(): real -> real { (x: real) => x * x }

  /** Squared length. */
  function Sq(v: Vec): real { Square()(v.x) + Square()(v.y) }

  /** No longer than `max`. */
  function Short(max: real): Vec -> bool { (v: Vec) => Sq(v) <= max * max }

  function Minus(a: Vec, b: Vec): Vec { Vec(a.x - b.x, a.y - b.y) }
  function Plus(a: Vec, b: Vec): Vec { Vec(a.x + b.x, a.y + b.y) }
  function Times(k: real, v: Vec): Vec { Vec(k * v.x, k * v.y) }

  type Hypot = Vec -> real

  /** What `std::hypot` promises. */
  ghost predicate IsHypot(hypot: Hypot) { forall v: Vec :: hypot(v) >= 0.0 && hypot(v) * hypot(v) == Sq(v) }

  function Clamp(v: real, bound: real): real { Max(Min(v, bound), -bound) }

  type Stage = Vec -> Vec

  /** Cosine and sine of some angle. */
  function IsAngle(): (real, real) -> bool { (c: real, s: real) => c * c + s * s == 1.0 }

  /** Scales a vector down to the given length. */
  function Limit(max: real, hypot: Hypot): Stage {
    (v: Vec) =>
      var speed := hypot(v);
      if speed > max && speed > EPS then Vec(v.x * (max / speed), v.y * (max / speed)) else v
  }

  /** In the body frame (c, s are cosine and sine of the yaw) the backward speed is bounded. */
  function LimitReverse(c: real, s: real, maxReverse: real): Stage {
    (v: Vec) =>
      var along, across := c * v.x + s * v.y, -s * v.x + c * v.y;
      if along < -maxReverse then Vec(c * -maxReverse - s * across, s * -maxReverse + c * across) else v
  }

  /** A fraction of the way from `last` to `v`. */
  function Toward(last: Vec, v: Vec, k: real): Vec { Vec(last.x + (v.x - last.x) * k, last.y + (v.y - last.y) * k) }

  function Slew(last: Vec, step: real, hypot: Hypot): Stage {
    (v: Vec) =>
      var size := hypot(Minus(v, last));
      if size > step && size > EPS then Toward(last, v, step / size) else v
  }

  function ClampDelta(target: real, last: real, step: real): real {
    if target - last > step then last + step
    else if target - last < -step then last - step
    else target
  }

  /** How far a command may move in one cycle. */
  datatype Step = Step(xy: real, z: real)

  function StepIn(l: Limits): real -> Step { (dt: real) => Step(l.slewXy * dt, l.slewZ * dt) }

  /** A tracking command from the raw velocity. */
  function Shape(raw: Command, last: Command, c: real, s: real, step: Step, l: Limits, hypot: Hypot): Command {
    Command(Slew(last.xy, step.xy, hypot)(LimitReverse(c, s, l.maxReverse)(Limit(l.maxXy, hypot)(raw.xy))),
            ClampDelta(Clamp(raw.z, l.maxZ), last.z, step.z))
  }

  // ----- each stage -----

  lemma ScaledSq(v: Vec, k: real)
    ensures Sq(Vec(v.x * k, v.y * k)) == k * k * Sq(v)
  {
    assert (v.x * k) * (v.x * k) == (k * k) * (v.x * v.x);
    assert (v.y * k) * (v.y * k) == (k * k) * (v.y * v.y);
  }

  /** `max / speed` times a vector of length `speed` has length `max`. */
  lemma RatioSq(max: real, speed: real, sq: real)
    requires speed > 0.0 && speed * speed == sq
    ensures (max / speed) * (max / speed) * sq == max * max
  {
    var k := max / speed;
    assert k * speed == max;
    assert k * k * (speed * speed) == (k * speed) * (k * speed);
  }

  lemma LimitCuts(v: Vec, max: real, hypot: Hypot, speed: real)
    requires speed == hypot(v) && speed * speed == Sq(v) && speed > max && speed > EPS
    ensures Sq(Limit(max, hypot)(v)) == max * max
  {
    ScaledSq(v, max / speed);
    RatioSq(max, speed, Sq(v));
  }

  lemma Longer(v: Vec, a: real, b: real)
    requires Short(a)(v) && 0.0 <= a <= b
    ensures Short(b)(v)
  {
    SquareMonotone(a, b);
  }

  /** The limited vector is no longer than the limit, or than EPS, below which nothing is cut. */
  lemma LimitOk(v: Vec, max: real, hypot: Hypot)
    requires IsHypot(hypot) && max >= 0.0
    ensures Short(Max(max, EPS))(Limit(max, hypot)(v))
  {
    var speed := hypot(v);
    if speed > max && speed > EPS {
      LimitCuts(v, max, hypot, speed);
      Longer(Limit(max, hypot)(v), max, Max(max, EPS));
    } else {
      Longer(v, speed, Max(max, EPS));
    }
  }

  /** Turning by an angle keeps lengths. */
  lemma TurnKeeps(c: real, s: real, x: real, y: real)
    requires IsAngle()(c, s)
    ensures Sq(Vec(c * x - s * y, s * x + c * y)) == x * x + y * y
  {
    var u, w := c * x - s * y, s * x + c * y;
    assert u * u == c * c * (x * x) - 2.0 * (c * s * (x * y)) + s * s * (y * y);
    assert w * w == s * s * (x * x) + 2.0 * (c * s * (x * y)) + c * c * (y * y);
    assert u * u + w * w == (c * c + s * s) * (x * x) + (c * c + s * s) * (y * y);
  }

  /** The body frame is turned by the yaw. */
  lemma BodyFrame(c: real, s: real, v: Vec)
    requires IsAngle()(c, s)
    ensures Sq(v) == Sq(Vec(c * v.x + s * v.y, -s * v.x + c * v.y))
  {
    assert (-s) * (-s) == s * s;
    TurnKeeps(c, -s, v.x, v.y);
    assert c * v.x - (-s) * v.y == c * v.x + s * v.y;
  }

  lemma ClampAlong(along: real, across: real, maxReverse: real)
    requires along < -maxReverse && maxReverse >= 0.0
    ensures maxReverse * maxReverse + across * across <= Sq(Vec(along, across))
  {
    SquareMonotone(maxReverse, -along);
    assert (-along) * (-along) == along * along;
  }

  lemma ReverseShrinks(v: Vec, c: real, s: real, maxReverse: real)
    requires IsAngle()(c, s) && maxReverse >= 0.0
    ensures Sq(LimitReverse(c, s, maxReverse)(v)) <= Sq(v)
  {
    var along, across := c * v.x + s * v.y, -s * v.x + c * v.y;
    BodyFrame(c, s, v);
    if along < -maxReverse {
      TurnKeeps(c, s, -maxReverse, across);
      ClampAlong(along, across, maxReverse);
    }
  }

  /** The reverse clamp never lengthens a vector. */
  lemma ReverseOk(v: Vec, c: real, s: real, maxReverse: real)
    requires IsAngle()(c, s) && maxReverse >= 0.0
    ensures forall m :: Short(m)(v) ==> Short(m)(LimitReverse(c, s, maxReverse)(v))
  {
    ReverseShrinks(v, c, s, maxReverse);
  }

  /** ... cuts the backward speed down to exactly what is allowed, and leaves the sideways speed as it is. */
  lemma ReverseBounds(v: Vec, c: real, s: real, maxReverse: real)
    requires IsAngle()(c, s)
    ensures var r := LimitReverse(c, s, maxReverse)(v);
      c * r.x + s * r.y == Max(-maxReverse, c * v.x + s * v.y) && -s * r.x + c * r.y == -s * v.x + c * v.y
  {
    var across := -s * v.x + c * v.y;
    var r := LimitReverse(c, s, maxReverse)(v);
    if c * v.x + s * v.y < -maxReverse {
      TurnBack(c, s, -maxReverse, across);
    }
  }

  lemma TurnBack(c: real, s: real, x: real, y: real)
    requires IsAngle()(c, s)
    ensures c * (c * x - s * y) + s * (s * x + c * y) == x && -s * (c * x - s * y) + c * (s * x + c * y) == y
  {
    assert c * (c * x - s * y) + s * (s * x + c * y) == (c * c + s * s) * x;
    assert -s * (c * x - s * y) + c * (s * x + c * y) == (c * c + s * s) * y;
  }

  lemma Product(a: real, b: real)
    requires a >= 0.0 && b >= 0.0
    ensures a * b >= 0.0
  {
  }

  /** `u` lies the fraction t of the way from a to b. */
  function Mixes(t: real): (real, real, real) -> bool { (a: real, b: real, u: real) => u == a + (b - a) * t }

  lemma BetweenOne(a: real, b: real, t: real, u: real)
    requires 0.0 <= t <= 1.0 && Mixes(t)(a, b, u)
    ensures Square()(u) <= (1.0 - t) * Square()(a) + t * Square()(b)
  {
    var d := b - a;
    Product(t, 1.0 - t);
    assert d * d >= 0.0;
    Product(t * (1.0 - t), d * d);
    assert u * u == (1.0 - t) * (a * a) + t * (b * b) - t * (1.0 - t) * (d * d);
  }

  lemma WeightedBound(p: real, q: real, t: real, m: real)
    requires 0.0 <= t <= 1.0 && p <= m && q <= m
    ensures (1.0 - t) * p + t * q <= m
  {
    Product(1.0 - t, m - p);
    Product(t, m - q);
  }

  lemma Regroup(p: real, q: real, u: real, w: real, t: real, m: real, x: real, y: real)
    requires 0.0 <= t <= 1.0 && p + q <= m && u + w <= m
    requires x <= (1.0 - t) * p + t * u && y <= (1.0 - t) * q + t * w
    ensures x + y <= m
  {
    WeightedBound(p + q, u + w, t, m);
    Spread(1.0 - t, p, q);
    Spread(t, u, w);
  }

  lemma Spread(k: real, p: real, q: real)
    ensures k * (p + q) == k * p + k * q
  {
  }

  /** A point between two vectors of bounded length. */
  lemma BetweenSq(a: Vec, b: Vec, t: real, m: real, r: Vec)
    requires 0.0 <= t <= 1.0 && Sq(a) <= m && Sq(b) <= m && Mixes(t)(a.x, b.x, r.x) && Mixes(t)(a.y, b.y, r.y)
    ensures Sq(r) <= m
  {
    BetweenOne(a.x, b.x, t, r.x);
    BetweenOne(a.y, b.y, t, r.y);
    var sq := Square();
    Regroup(sq(a.x), sq(a.y), sq(b.x), sq(b.y), t, m, sq(r.x), sq(r.y));
  }

  lemma RatioRange(step: real, size: real)
    requires 0.0 <= step < size
    ensures 0.0 <= step / size <= 1.0
  {
  }

  lemma TowardStep(last: Vec, v: Vec, k: real)
    ensures Sq(Minus(Toward(last, v, k), last)) == k * k * Sq(Minus(v, last))
  {
    var d := Minus(v, last);
    ScaledSq(d, k);
    assert Minus(Toward(last, v, k), last) == Vec(d.x * k, d.y * k);
  }

  /** A shortened step lies between its ends ... */
  lemma ShortStepStays(last: Vec, v: Vec, step: real, size: real, m: real)
    requires Sq(v) <= m && Sq(last) <= m && 0.0 <= step < size
    ensures Sq(Toward(last, v, step / size)) <= m
  {
    RatioRange(step, size);
    BetweenSq(last, v, step / size, m, Toward(last, v, step / size));
  }

  /** ... and has length `step`. */
  lemma ShortStepLength(last: Vec, v: Vec, step: real, size: real)
    requires 0.0 <= step < size && size * size == Sq(Minus(v, last))
    ensures Sq(Minus(Toward(last, v, step / size), last)) == step * step
  {
    TowardStep(last, v, step / size);
    RatioSq(step, size, Sq(Minus(v, last)));
  }

  lemma ShortStep(last: Vec, v: Vec, step: real, size: real, max: real)
    requires Short(max)(v) && Short(max)(last) && 0.0 <= step < size && size * size == Sq(Minus(v, last))
    ensures var r := Toward(last, v, step / size); Short(max)(r) && Short(step)(Minus(r, last))
  {
    ShortStepStays(last, v, step, size, max * max);
    ShortStepLength(last, v, step, size);
  }

  /** The slew limit keeps the bound of its two ends and the length of the step. */
  lemma SlewOk(v: Vec, last: Vec, step: real, hypot: Hypot, max: real)
    requires IsHypot(hypot) && step >= 0.0 && Short(max)(v) && Short(max)(last)
    ensures var r := Slew(last, step, hypot)(v); Short(max)(r) && Short(Max(step, EPS))(Minus(r, last))
  {
    var size := hypot(Minus(v, last));
    if size > step && size > EPS {
      ShortStep(last, v, step, size, max);
      Longer(Minus(Toward(last, v, step / size), last), step, Max(step, EPS));
    } else {
      Longer(Minus(v, last), size, Max(step, EPS));
    }
  }

  lemma RestOfWay(last: Vec, v: Vec, k: real)
    ensures Sq(Minus(v, Toward(last, v, k))) == (1.0 - k) * (1.0 - k) * Sq(Minus(v, last))
  {
    var d := Minus(v, last);
    ScaledSq(d, 1.0 - k);
    assert Minus(v, Toward(last, v, k)) == Vec(d.x * (1.0 - k), d.y * (1.0 - k));
  }

  lemma RestLength(step: real, size: real, sq: real)
    requires 0.0 <= step < size && size * size == sq
    ensures (1.0 - step / size) * (1.0 - step / size) * sq == (size - step) * (size - step)
  {
    var k := step / size;
    assert k * size == step;
    assert (1.0 - k) * size == size - step;
    assert (1.0 - k) * (1.0 - k) * (size * size) == ((1.0 - k) * size) * ((1.0 - k) * size);
  }

  /** A step that is cut down has the full length allowed, and all of it is gained on the target. */
  lemma SlewAdvances(v: Vec, last: Vec, step: real, hypot: Hypot)
    requires IsHypot(hypot) && 0.0 <= step < hypot(Minus(v, last)) && hypot(Minus(v, last)) > EPS
    ensures var r, size := Slew(last, step, hypot)(v), hypot(Minus(v, last));
      Sq(Minus(r, last)) == step * step && Sq(Minus(v, r)) == (size - step) * (size - step)
  {
    var size := hypot(Minus(v, last));
    ShortStepLength(last, v, step, size);
    RestOfWay(last, v, step / size);
    RestLength(step, size, Sq(Minus(v, last)));
  }

  lemma ClampDeltaOk(target: real, last: real, step: real, m: real)
    requires step >= 0.0 && -m <= target <= m && -m <= last <= m
    ensures -m <= ClampDelta(target, last, step) <= m
    ensures -step <= ClampDelta(target, last, step) - last <= step
  {
  }

  // ----- every cycle -----

  /** The longest take-off command, of length 0.2 * sqrt 2. */
  const CORNER := Vec(0.2, 0.2)

  /** The settings under which the envelope holds. */
  predicate Sensible(l: Limits) {
    && l.maxXy >= 0.0 && Short(l.maxXy)(CORNER) && l.maxZ >= 0.0 && l.maxReverse >= 0.0
    && l.slewXy >= 0.0 && l.slewZ >= 0.0
  }

  /** Horizontal speed and climb rate within the limits. */
  ghost predicate Bounded(c: Command, l: Limits) {
    Short(l.maxXy)(c.xy) && -l.maxZ <= c.z <= l.maxZ
  }

  /** The step from one command to the next is no longer than allowed; across, a step shorter than
      EPS is never cut down. */
  ghost predicate StepBounded(c: Command, last: Command, step: Step) {
    Short(Max(step.xy, EPS))(Minus(c.xy, last.xy)) && -step.z <= c.z - last.z <= step.z
  }

  /** The control period, with the fallback for a first or implausible one. */
  function Period(now: real, last: Option<real>): (dt: real)
    ensures 0.0001 < dt <= 0.2
  {
    var dt := if last == None then 0.02 else now - last.value;
    if dt <= 0.0001 || dt > 0.2 then 0.02 else dt
  }

  lemma LargeEnough(m: real)
    requires m >= 0.0 && Short(m)(CORNER)
    ensures m >= EPS
  {
    assert Sq(CORNER) == 0.08;
    if m < EPS { SquareMonotone(m, EPS); }
  }

  lemma StepSizes(l: Limits, dt: real)
    requires Sensible(l) && 0.0001 < dt
    ensures StepIn(l)(dt).xy >= 0.0 && StepIn(l)(dt).z >= 0.0
  {
    Product(l.slewXy, dt);
    Product(l.slewZ, dt);
  }

  /** Every tracking command stays in the envelope and near the command before it. */
  lemma ShapeOk(raw: Command, last: Command, c: real, s: real, step: Step, l: Limits, hypot: Hypot)
    requires IsHypot(hypot) && IsAngle()(c, s) && Sensible(l) && Bounded(last, l) && step.xy >= 0.0 && step.z >= 0.0
    ensures var r := Shape(raw, last, c, s, step, l, hypot); Bounded(r, l) && StepBounded(r, last, step)
  {
    LargeEnough(l.maxXy);
    var limited := Limit(l.maxXy, hypot)(raw.xy);
    var forward := LimitReverse(c, s, l.maxReverse)(limited);
    LimitOk(raw.xy, l.maxXy, hypot);
    ReverseOk(limited, c, s, l.maxReverse);
    SlewOk(forward, last.xy, step.xy, hypot, l.maxXy);
    ClampDeltaOk(Clamp(raw.z, l.maxZ), last.z, step.z, l.maxZ);
  }

  /** A raw velocity within every limit is passed on as it is. */
  lemma ShapeTransparent(raw: Command, last: Command, c: real, s: real, step: Step, l: Limits, hypot: Hypot)
    requires hypot(raw.xy) <= l.maxXy && -l.maxZ <= raw.z <= l.maxZ
    requires c * raw.xy.x + s * raw.xy.y >= -l.maxReverse
    requires hypot(Minus(raw.xy, last.xy)) <= step.xy && -step.z <= raw.z - last.z <= step.z
    ensures Shape(raw, last, c, s, step, l, hypot) == raw
  {
    assert Limit(l.maxXy, hypot)(raw.xy) == raw.xy;
    assert LimitReverse(c, s, l.maxReverse)(raw.xy) == raw.xy;
    assert Slew(last.xy, step.xy, hypot)(raw.xy) == raw.xy;
  }

  /** Up and down: of all commands within the limit and one step, the one nearest to the raw velocity. */
  lemma ClimbIsNearest(raw: Command, last: Command, c: real, s: real, step: Step, l: Limits, hypot: Hypot, w: real)
    requires step.z >= 0.0 && -l.maxZ <= last.z <= l.maxZ
    requires -l.maxZ <= w <= l.maxZ && -step.z <= w - last.z <= step.z
    ensures AbsOf(Shape(raw, last, c, s, step, l, hypot).z - raw.z) <= AbsOf(w - raw.z)
  {
  }

  function AbsOf(v: real): real { if v < 0.0 then -v else v }

  lemma SameDirection(x: real, y: real, k: real)
    requires k >= 0.0
    ensures (x * k) * y == (y * k) * x && (x * k) * x >= 0.0 && (y * k) * y >= 0.0
  {
    Product(k, x * x);
    Product(k, y * y);
  }

  /** A vector above the limit keeps its direction and gets exactly the limit as its length. */
  lemma LimitScales(v: Vec, max: real, hypot: Hypot)
    requires IsHypot(hypot) && EPS <= max < hypot(v)
    ensures var r := Limit(max, hypot)(v);
      Sq(r) == max * max && r.x * v.y == r.y * v.x && r.x * v.x >= 0.0 && r.y * v.y >= 0.0
  {
    ScaledSq(v, max / hypot(v));
    RatioSq(max, hypot(v), Sq(v));
    SameDirection(v.x, v.y, max / hypot(v));
  }

  /** The take-off command. */
  function TakeOff(offset: Vec, climb: real, l: Limits): Command {
    Command(Vec(Max(-0.20, Min(0.20, 1.0 * offset.x)), Max(-0.20, Min(0.20, 1.0 * offset.y))),
            Max(-l.maxZ, Min(l.maxZ, 0.5 * climb)))
  }

  lemma ClampedSq(v: real, b: real)
    requires -b <= v <= b
    ensures v * v <= b * b
  {
    if v >= 0.0 { SquareMonotone(v, b); } else { SquareMonotone(-v, b); }
  }

  /** The take-off command is in the envelope for every offset exactly when the limit is at least 0.2 * sqrt 2. */
  lemma TakeOffIff(l: Limits)
    requires l.maxZ >= 0.0
    ensures (forall offset, climb :: Bounded(TakeOff(offset, climb, l), l)) <==> Short(l.maxXy)(CORNER)
  {
    assert Sq(CORNER) == 0.08;
    if Short(l.maxXy)(CORNER) {
      forall offset, climb ensures Bounded(TakeOff(offset, climb, l), l) {
        var t := TakeOff(offset, climb, l);
        ClampedSq(t.xy.x, 0.2);
        ClampedSq(t.xy.y, 0.2);
      }
    } else {
      var t := TakeOff(Vec(1.0, 1.0), 0.0, l);
      assert t.xy == CORNER;
    }
  }

  const ZERO := Command(Vec(0.0, 0.0), 0.0)

  lemma ZeroBounded(l: Limits)
    requires l.maxZ >= 0.0
    ensures Bounded(ZERO, l)
  {
    assert l.maxXy * l.maxXy >= 0.0;
  }
}
