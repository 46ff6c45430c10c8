/** The controller around the velocity shaper as a state machine: callbacks and timer ticks in any order. */
module Flight {
  import opened Geometry
  import opened SpeedEnvelope

  /** Position, and the cosine and sine of the yaw. */
  datatype Pose = Pose(xy: Vec, z: real, c: real, s: real)

  /** The planner's command: where to be, how fast, with which acceleration. */
  datatype Reference = Reference(position: Command, velocity: Command, acceleration: Command)

  /** What a tick publishes. */
  datatype Published =
    | Nothing
    | HoldPosition(target: Command)
    | Velocity(velocity: Command, acceleration: Command)

  datatype Setup = Setup(limits: Limits, hypot: Hypot, enableHeight: real)

  /** `haveMavros` is have_mavros_pose && mavros_pose_consistent. */
  datatype State = State(haveOdom: bool, pose: Pose, start: Vec, haveMavros: bool, mavros: Command, armed: bool,
                         plannerEnabled: bool, receive: bool, reference: Reference, lastTrajCmdTime: Option<real>,
                         lastControlStamp: Option<real>, landingRequested: bool, holdActive: bool,
                         holdLatched: bool, holdUsesMavros: bool, hold: Command, lastCmd: Command)

  const AT_ORIGIN := Pose(Vec(0.0, 0.0), 0.0, 1.0, 0.0)

  const START := State(false, AT_ORIGIN, Vec(0.0, 0.0), false, ZERO, false, false, false, Reference(ZERO, ZERO, ZERO),
                       None, None, false, false, false, false, ZERO, ZERO)

  datatype Event =
    | GotPose(pose: Pose)
    | GotMavros(consistent: bool, position: Command)
    | GotArmed(armed: bool)
    | GotReference(reference: Reference, now: real)
    | HoldRequest(data: bool)
    | LandingRequest(data: bool)
    | Tick(now: real, autoLand: bool)

  // ----- the callbacks -----

  /** Remember where to hold, in the frame of the autopilot if its pose can be trusted. */
  function Latch(s: State): State {
    s.(holdUsesMavros := s.haveMavros, holdLatched := s.haveMavros || s.haveOdom,
       hold := if s.haveMavros then s.mavros else if s.haveOdom then Command(s.pose.xy, s.pose.z) else s.hold)
  }

  /** The height gate opens and drops what has been received. */
  function Opened(s: State): State { s.(plannerEnabled := true, receive := false, lastTrajCmdTime := None) }

  function OnPose(s: State, p: Pose, enableHeight: real): State {
    var t := s.(start := if s.haveOdom then s.start else p.xy, pose := p, haveOdom := true);
    if !s.plannerEnabled && p.z > enableHeight then Opened(t) else t
  }

  function OnReference(s: State, r: Reference, now: real): State {
    if s.plannerEnabled then s.(reference := r, receive := true, lastTrajCmdTime := Some(now)) else s
  }

  function OnHold(s: State, data: bool): State {
    if data then
      var t := s.(holdActive := true, receive := false, lastCmd := ZERO);
      if !s.holdActive || !s.holdLatched then Latch(t) else t
    else s.(holdActive := false, holdLatched := false)
  }

  function OnLanding(s: State, data: bool): State {
    if data then Latch(s.(landingRequested := true, holdActive := true, receive := false)) else s
  }

  // ----- one control cycle -----

  /** Kv * velocity + Kp * position error, with Kv = 1 and Kp = 0.7. */
  function Raw(r: Reference, at: Pose): Command {
    Command(Plus(Times(1.0, r.velocity.xy), Times(0.7, Minus(r.position.xy, at.xy))),
            1.0 * r.velocity.z + 0.7 * (r.position.z - at.z))
  }

  /** The hold command of the fallback: back to the latched position at 0.2 m/s at most. */
  function BackToHold(hold: Command, at: Pose, hypot: Hypot): Command {
    Command(Limit(0.20, hypot)(Times(0.8, Minus(hold.xy, at.xy))),
            Max(-0.15, Min(0.15, 0.8 * (hold.z - at.z))))
  }

  /** The feed-forward acceleration within its limits. */
  function Feed(a: Command, l: Limits, hypot: Hypot): Command {
    Command(Limit(l.maxAccXy, hypot)(a.xy), Clamp(a.z, l.maxAccZ))
  }

  /** The branches of a tick, in the order in which they are tried. */
  datatype Branch = Blind | Landing | Holding | Climbing | Expired | Tracking

  function BranchOf(s: State, now: real, autoLand: bool, c: Setup): Branch {
    if !s.haveOdom then Blind
    else if s.landingRequested && autoLand then Landing
    else if s.holdActive then Holding
    else if !s.receive then Climbing
    else if Late(s, now, c) then Expired
    else Tracking
  }

  /** The hold state, latched late if no pose had been there in time. */
  function Held(s: State): State {
    if s.holdLatched then s
    else
      s.(holdUsesMavros := s.haveMavros, holdLatched := true,
         hold := if s.haveMavros then s.mavros else Command(s.pose.xy, s.pose.z))
  }

  function StepAt(s: State, now: real, c: Setup): Step { StepIn(c.limits)(Period(now, s.lastControlStamp)) }

  function TrackOutput(s: State, step: Step, c: Setup): (out: Published)
    ensures out.Velocity?
  {
    if s.armed then
      Velocity(Shape(Raw(s.reference, s.pose), s.lastCmd, s.pose.c, s.pose.s, step, c.limits, c.hypot),
               Feed(s.reference.acceleration, c.limits, c.hypot))
    else Velocity(ZERO, ZERO)
  }

  function TrackCommand(s: State, now: real, c: Setup): Command { TrackOutput(s, StepAt(s, now, c), c).velocity }

  /** The reference has grown old. */
  predicate Late(s: State, now: real, c: Setup) {
    s.lastTrajCmdTime.Some? && now - s.lastTrajCmdTime.value > c.limits.trajTimeout
  }

  function ClimbCommand(s: State, c: Setup): Command {
    TakeOff(Minus(s.start, s.pose.xy), c.limits.takeoffHeight - s.pose.z, c.limits)
  }

  /** The command remembered after a tick that takes branch `b`. */
  function CommandAfter(s: State, b: Branch, now: real, c: Setup): Command {
    match b
    case Holding => ZERO
    case Climbing => ClimbCommand(s, c)
    case Tracking => TrackCommand(s, now, c)
    case _ => s.lastCmd
  }

  function OnTick(s: State, now: real, autoLand: bool, c: Setup): State {
    var b := BranchOf(s, now, autoLand, c);
    var h := if b == Holding then Held(s) else s;
    h.(lastControlStamp := if b == Blind then s.lastControlStamp else Some(now),
       receive := s.receive && b != Expired, lastCmd := CommandAfter(s, b, now, c))
  }

  function Output(s: State, now: real, autoLand: bool, c: Setup): Published {
    match BranchOf(s, now, autoLand, c)
    case Holding =>
      var h := Held(s);
      if h.holdUsesMavros then HoldPosition(h.hold) else Velocity(BackToHold(h.hold, s.pose, c.hypot), ZERO)
    case Climbing => Velocity(ClimbCommand(s, c), ZERO)
    case Tracking => TrackOutput(s, StepAt(s, now, c), c)
    case _ => Nothing
  }

  lemma TickHolds(s: State, now: real, autoLand: bool, c: Setup)
    requires BranchOf(s, now, autoLand, c) == Holding
    ensures OnTick(s, now, autoLand, c) == Held(s).(lastControlStamp := Some(now), lastCmd := ZERO)
  {
  }

  lemma TickFlies(s: State, now: real, autoLand: bool, c: Setup)
    requires s.haveOdom && !(s.landingRequested && autoLand) && !s.holdActive
    ensures var b := BranchOf(s, now, autoLand, c);
      OnTick(s, now, autoLand, c) ==
        s.(lastControlStamp := Some(now), receive := s.receive && b != Expired, lastCmd := CommandAfter(s, b, now, c))
  {
  }

  function React(s: State, e: Event, c: Setup): State {
    match e
    case GotPose(p) => OnPose(s, p, c.enableHeight)
    case GotMavros(consistent, m) => s.(haveMavros := consistent, mavros := m)
    case GotArmed(armed) => s.(armed := armed)
    case GotReference(r, now) => OnReference(s, r, now)
    case HoldRequest(data) => OnHold(s, data)
    case LandingRequest(data) => OnLanding(s, data)
    case Tick(now, autoLand) => OnTick(s, now, autoLand, c)
  }

  function After(s: State, events: seq<Event>, c: Setup): State {
    if events == [] then s else React(After(s, events[..|events| - 1], c), events[|events| - 1], c)
  }

  /** What a tick leaves alone: the gate, the landing request and hold ... */
  lemma TickKeepsFlags(s: State, now: real, autoLand: bool, c: Setup)
    ensures var r := OnTick(s, now, autoLand, c);
      && r.plannerEnabled == s.plannerEnabled && (r.receive ==> s.receive)
      && r.landingRequested == s.landingRequested && r.holdActive == s.holdActive
  {
  }

  /** ... and the hold point once it is latched. */
  lemma TickKeepsPoint(s: State, now: real, autoLand: bool, c: Setup)
    requires s.holdLatched
    ensures var r := OnTick(s, now, autoLand, c);
      r.holdLatched && r.hold == s.hold && r.holdUsesMavros == s.holdUsesMavros
  {
  }

  // ----- the height gate -----

  lemma GateStep(s: State, e: Event, c: Setup)
    requires s.receive ==> s.plannerEnabled
    ensures var r := React(s, e, c); (r.receive ==> r.plannerEnabled) && (s.plannerEnabled ==> r.plannerEnabled)
  {
    if e.Tick? { TickKeepsFlags(s, e.now, e.autoLand, c); }
  }

  /** In every run a reference is only ever followed behind the height gate, and the gate never closes. */
  lemma {:induction false} GateOpensOnce(s: State, events: seq<Event>, c: Setup)
    requires s.receive ==> s.plannerEnabled
    ensures var r := After(s, events, c); (r.receive ==> r.plannerEnabled) && (s.plannerEnabled ==> r.plannerEnabled)
    decreases |events|
  {
    if events != [] {
      GateOpensOnce(s, events[..|events| - 1], c);
      GateStep(After(s, events[..|events| - 1], c), events[|events| - 1], c);
    }
  }

  // ----- the hold point -----

  /** Where a latch would put the hold point now. */
  function LatchPoint(s: State): Command { Latch(s).hold }

  lemma LandingMoves(s: State)
    ensures OnLanding(s, true).hold == LatchPoint(s)
  {
  }

  lemma RepeatedHold(s: State)
    requires s.holdActive && s.holdLatched
    ensures OnHold(s, true) == s.(receive := false, lastCmd := ZERO)
  {
  }

  /** While hold stays active and latched, the point moves if and only if a landing request comes
      when the vehicle is somewhere else: repeated holds, poses and ticks leave it alone. */
  lemma HoldPointMovesIff(s: State, e: Event, c: Setup)
    requires s.holdActive && s.holdLatched && React(s, e, c).holdActive
    ensures React(s, e, c).hold != s.hold <==> e == LandingRequest(true) && LatchPoint(s) != s.hold
  {
    match e
    case Tick(now, autoLand) =>
      TickKeepsFlags(s, now, autoLand, c);
      TickKeepsPoint(s, now, autoLand, c);
    case LandingRequest(_) => LandingMoves(s);
    case HoldRequest(_) => RepeatedHold(s);
    case _ =>
  }

  /** A release of the hold, or a landing request. */
  predicate Disturbs(e: Event) { e == HoldRequest(false) || e == LandingRequest(true) }

  ghost predicate HoldsAt(s: State, point: Command, mavros: bool) {
    s.holdActive && s.holdLatched && s.hold == point && s.holdUsesMavros == mavros
  }

  lemma HoldStep(s: State, e: Event, c: Setup, point: Command, mavros: bool)
    requires HoldsAt(s, point, mavros) && !Disturbs(e)
    ensures HoldsAt(React(s, e, c), point, mavros)
  {
    match e
    case Tick(now, autoLand) =>
      TickKeepsFlags(s, now, autoLand, c);
      TickKeepsPoint(s, now, autoLand, c);
    case HoldRequest(_) => RepeatedHold(s);
    case _ =>
  }

  /** Through any run of callbacks and ticks without a release or a landing request, hold stays
      active at the same point in the same frame. */
  lemma {:induction false} HoldPointStays(s: State, events: seq<Event>, c: Setup)
    requires s.holdActive && s.holdLatched && forall i | 0 <= i < |events| :: !Disturbs(events[i])
    ensures HoldsAt(After(s, events, c), s.hold, s.holdUsesMavros)
    decreases |events|
  {
    if events != [] {
      HoldPointStays(s, events[..|events| - 1], c);
      HoldStep(After(s, events[..|events| - 1], c), events[|events| - 1], c, s.hold, s.holdUsesMavros);
    }
  }

  // ----- landing -----

  ghost predicate LandingHeld(s: State) { s.landingRequested && s.holdActive }

  lemma LandingStep(s: State, e: Event, c: Setup)
    requires LandingHeld(s) && e != HoldRequest(false)
    ensures LandingHeld(React(s, e, c))
  {
    if e.Tick? { TickKeepsFlags(s, e.now, e.autoLand, c); }
  }

  lemma {:induction false} LandingLasts(s: State, events: seq<Event>, c: Setup)
    requires forall i | 0 <= i < |events| :: events[i] != HoldRequest(false)
    ensures LandingHeld(After(React(s, LandingRequest(true), c), events, c))
    decreases |events|
  {
    if events != [] {
      var t := React(s, LandingRequest(true), c);
      LandingLasts(s, events[..|events| - 1], c);
      LandingStep(After(t, events[..|events| - 1], c), events[|events| - 1], c);
    }
  }

  lemma HeldOrSilent(s: State, now: real, autoLand: bool, c: Setup)
    requires s.holdActive
    ensures Output(s, now, autoLand, c) == Nothing || BranchOf(s, now, autoLand, c) == Holding
  {
  }

  /** After a landing request, through any events but a hold release, every tick holds or publishes
      nothing: no take-off and no tracking command. */
  lemma LandingStopsTracking(s: State, events: seq<Event>, now: real, autoLand: bool, c: Setup)
    requires forall i | 0 <= i < |events| :: events[i] != HoldRequest(false)
    ensures var r := After(React(s, LandingRequest(true), c), events, c);
      Output(r, now, autoLand, c) == Nothing || BranchOf(r, now, autoLand, c) == Holding
  {
    LandingLasts(s, events, c);
    HeldOrSilent(After(React(s, LandingRequest(true), c), events, c), now, autoLand, c);
  }

  /** A hold or landing request that is not a release. */
  predicate Holds(e: Event) { e == HoldRequest(true) || e == LandingRequest(true) }

  /** The last hold or landing request of the list is a release. */
  ghost predicate EndsReleased(events: seq<Event>) {
    exists i :: 0 <= i < |events| && events[i] == HoldRequest(false)
      && forall j | i < j < |events| :: !Holds(events[j])
  }

  lemma EndsReleasedMore(events: seq<Event>)
    requires events != []
    ensures var front, e := events[..|events| - 1], events[|events| - 1];
      EndsReleased(events) <==> e == HoldRequest(false) || (EndsReleased(front) && !Holds(e))
  {
    var front, e := events[..|events| - 1], events[|events| - 1];
    if EndsReleased(events) && e != HoldRequest(false) {
      var i :| 0 <= i < |events| && events[i] == HoldRequest(false) && forall j | i < j < |events| :: !Holds(events[j]);
      assert front[i] == HoldRequest(false) && forall j | i < j < |front| :: !Holds(front[j]);
    }
    if EndsReleased(front) && !Holds(e) {
      var i :| 0 <= i < |front| && front[i] == HoldRequest(false) && forall j | i < j < |front| :: !Holds(front[j]);
      assert events[i] == HoldRequest(false);
      forall j | i < j < |events| ensures !Holds(events[j]) { if j < |front| { assert events[j] == front[j]; } }
    }
    if e == HoldRequest(false) { assert events[|events| - 1] == HoldRequest(false); }
  }

  lemma HoldActiveStep(s: State, e: Event, c: Setup)
    ensures var r := React(s, e, c);
      && (r.holdActive <==> Holds(e) || (s.holdActive && e != HoldRequest(false)))
      && (s.haveOdom ==> r.haveOdom)
  {
    if e.Tick? { TickKeepsFlags(s, e.now, e.autoLand, c); }
  }

  lemma {:induction false} HoldActiveIff(s: State, events: seq<Event>, c: Setup)
    requires s.holdActive
    ensures var r := After(s, events, c); (r.holdActive <==> !EndsReleased(events)) && (s.haveOdom ==> r.haveOdom)
    decreases |events|
  {
    if events != [] {
      HoldActiveIff(s, events[..|events| - 1], c);
      HoldActiveStep(After(s, events[..|events| - 1], c), events[|events| - 1], c);
      EndsReleasedMore(events);
    }
  }

  /** Every tick holds or publishes nothing. */
  ghost predicate StandsStill(s: State, c: Setup) {
    forall now, autoLand: bool :: Output(s, now, autoLand, c) == Nothing || BranchOf(s, now, autoLand, c) == Holding
  }

  /** Without hold there is a time at which a tick without AUTO.LAND climbs or tracks. */
  lemma StandsStillIff(s: State, c: Setup)
    requires s.haveOdom
    ensures StandsStill(s, c) <==> s.holdActive
  {
    if s.holdActive {
      forall now, autoLand: bool
        ensures Output(s, now, autoLand, c) == Nothing || BranchOf(s, now, autoLand, c) == Holding
      {
        HeldOrSilent(s, now, autoLand, c);
      }
    } else {
      var now := if s.lastTrajCmdTime.Some? then s.lastTrajCmdTime.value + c.limits.trajTimeout else 0.0;
      assert Output(s, now, false, c) != Nothing && BranchOf(s, now, false, c) != Holding;
    }
  }

  /** After a landing request and any events, the vehicle stands still if and only if the last hold or
      landing request among them is no release: a release undoes the landing until the next request. */
  lemma LandingHoldsIff(s: State, events: seq<Event>, c: Setup)
    requires s.haveOdom
    ensures StandsStill(After(React(s, LandingRequest(true), c), events, c), c) <==> !EndsReleased(events)
  {
    var t := React(s, LandingRequest(true), c);
    HoldActiveStep(s, LandingRequest(true), c);
    HoldActiveIff(t, events, c);
    StandsStillIff(After(t, events, c), c);
  }

  // ----- the envelope -----

  /** The fallback hold never asks for more than 0.2 m/s across and 0.15 m/s up or down. */
  lemma HoldIsSlow(hold: Command, at: Pose, hypot: Hypot)
    requires IsHypot(hypot)
    ensures var r := BackToHold(hold, at, hypot); Short(0.20)(r.xy) && -0.15 <= r.z <= 0.15
  {
    LimitOk(Times(0.8, Minus(hold.xy, at.xy)), 0.20, hypot);
  }

  ghost predicate Flyable(c: Setup) { IsHypot(c.hypot) && Sensible(c.limits) }

  /** The yaw is an angle. */
  predicate Physical(e: Event) { e.GotPose? ==> IsAngle()(e.pose.c, e.pose.s) }

  ghost predicate InBounds(s: State, c: Setup) { Bounded(s.lastCmd, c.limits) && IsAngle()(s.pose.c, s.pose.s) }

  lemma TrackOk(s: State, now: real, c: Setup)
    requires Flyable(c) && InBounds(s, c)
    ensures var r := TrackCommand(s, now, c);
      Bounded(r, c.limits) && (s.armed ==> StepBounded(r, s.lastCmd, StepAt(s, now, c)))
  {
    StepSizes(c.limits, Period(now, s.lastControlStamp));
    ZeroBounded(c.limits);
    ShapeOk(Raw(s.reference, s.pose), s.lastCmd, s.pose.c, s.pose.s, StepAt(s, now, c), c.limits, c.hypot);
  }

  lemma ClimbOk(s: State, c: Setup)
    requires Sensible(c.limits)
    ensures Bounded(ClimbCommand(s, c), c.limits)
  {
    TakeOffIff(c.limits);
  }

  lemma CommandInside(s: State, b: Branch, now: real, c: Setup)
    requires Flyable(c) && InBounds(s, c)
    ensures Bounded(CommandAfter(s, b, now, c), c.limits)
  {
    match b
    case Holding => ZeroBounded(c.limits);
    case Climbing => ClimbOk(s, c);
    case Tracking => TrackOk(s, now, c);
    case _ =>
  }

  lemma TickInside(s: State, now: real, autoLand: bool, c: Setup)
    requires Flyable(c) && InBounds(s, c)
    ensures InBounds(OnTick(s, now, autoLand, c), c)
  {
    CommandInside(s, BranchOf(s, now, autoLand, c), now, c);
  }

  lemma HoldInside(s: State, data: bool, c: Setup)
    requires InBounds(s, c)
    ensures InBounds(OnHold(s, data), c)
  {
    ZeroBounded(c.limits);
  }

  lemma PoseInside(s: State, p: Pose, c: Setup)
    requires InBounds(s, c) && IsAngle()(p.c, p.s)
    ensures InBounds(OnPose(s, p, c.enableHeight), c)
  {
  }

  lemma LandingInside(s: State, data: bool, c: Setup)
    requires InBounds(s, c)
    ensures InBounds(OnLanding(s, data), c)
  {
  }

  lemma ReactInside(s: State, e: Event, c: Setup)
    requires Flyable(c) && InBounds(s, c) && Physical(e)
    ensures InBounds(React(s, e, c), c)
  {
    match e
    case Tick(now, autoLand) => TickInside(s, now, autoLand, c);
    case HoldRequest(data) => HoldInside(s, data, c);
    case GotPose(p) => PoseInside(s, p, c);
    case LandingRequest(data) => LandingInside(s, data, c);
    case _ =>
  }

  /** In every run from the start the last command is in the envelope. */
  lemma {:induction false} RunInside(events: seq<Event>, c: Setup)
    requires Flyable(c) && forall i | 0 <= i < |events| :: Physical(events[i])
    ensures InBounds(After(START, events, c), c)
    decreases |events|
  {
    if events == [] {
      ZeroBounded(c.limits);
    } else {
      RunInside(events[..|events| - 1], c);
      ReactInside(After(START, events[..|events| - 1], c), events[|events| - 1], c);
    }
  }

  /** Whatever is published as a velocity is in the envelope, or is a slow hold; and an armed tracking
      command is within the slew limits of the command before it. */
  ghost predicate Enveloped(out: Published, s: State, now: real, autoLand: bool, c: Setup) {
    var b := BranchOf(s, now, autoLand, c);
    && (out.Velocity? && b != Holding ==> Bounded(out.velocity, c.limits))
    && (out.Velocity? && b == Holding ==> Short(0.20)(out.velocity.xy) && -0.15 <= out.velocity.z <= 0.15)
    && (b == Tracking ==>
          out.Velocity? && (s.armed ==> StepBounded(out.velocity, s.lastCmd, StepAt(s, now, c))))
  }

  lemma TickEnvelope(s: State, now: real, autoLand: bool, c: Setup)
    requires Flyable(c) && InBounds(s, c)
    ensures Enveloped(Output(s, now, autoLand, c), s, now, autoLand, c)
  {
    TrackOk(s, now, c);
    ClimbOk(s, c);
    HoldIsSlow(Held(s).hold, s.pose, c.hypot);
  }

  lemma KeepsEnvelope(s: State, now: real, autoLand: bool, c: Setup)
    ensures Flyable(c) && InBounds(s, c) ==>
      InBounds(OnTick(s, now, autoLand, c), c) && Enveloped(Output(s, now, autoLand, c), s, now, autoLand, c)
  {
    if Flyable(c) && InBounds(s, c) {
      TickInside(s, now, autoLand, c);
      TickEnvelope(s, now, autoLand, c);
    }
  }

  /** In every run from the start the envelope holds for what every tick publishes. */
  lemma RunEnvelope(events: seq<Event>, now: real, autoLand: bool, c: Setup)
    requires Flyable(c) && forall i | 0 <= i < |events| :: Physical(events[i])
    ensures var s := After(START, events, c); Enveloped(Output(s, now, autoLand, c), s, now, autoLand, c)
  {
    RunInside(events, c);
    TickEnvelope(After(START, events, c), now, autoLand, c);
  }
}
