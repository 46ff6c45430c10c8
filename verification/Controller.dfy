/** The controller object: every callback and tick is the step of the state machine. */
module Controller {
  import opened Geometry
  import opened SpeedEnvelope
  import opened Flight

  class Ctrl {
    var haveOdom: bool
    var pose: Pose
    var start: Vec
    var haveMavros: bool
    var mavros: Command
    var armed: bool
    var plannerEnabled: bool
    var receive: bool
    var reference: Reference
    var lastTrajCmdTime: Option<real>
    var lastControlStamp: Option<real>
    var landingRequested: bool
    var holdActive: bool
    var holdLatched: bool
    var holdUsesMavros: bool
    var hold: Command
    var lastCmd: Command
    const setup: Setup

    function Now(): State
      reads this
    {
      State(haveOdom, pose, start, haveMavros, mavros, armed, plannerEnabled, receive, reference, lastTrajCmdTime,
            lastControlStamp, landingRequested, holdActive, holdLatched, holdUsesMavros, hold, lastCmd)
    }

    constructor (c: Setup)
      ensures Now() == START && setup == c
    {
      setup := c;
      haveOdom, pose, start, haveMavros, mavros, armed := false, AT_ORIGIN, Vec(0.0, 0.0), false, ZERO, false;
      plannerEnabled, receive, reference := false, false, Reference(ZERO, ZERO, ZERO);
      lastTrajCmdTime, lastControlStamp, landingRequested := None, None, false;
      holdActive, holdLatched, holdUsesMavros, hold, lastCmd := false, false, false, ZERO, ZERO;
    }

    method StateCb(nowArmed: bool)
      modifies this
      ensures Now() == React(old(Now()), GotArmed(nowArmed), setup)
    {
      armed := nowArmed;
    }

    method MavrosPoseCb(consistent: bool, position: Command)
      modifies this
      ensures Now() == React(old(Now()), GotMavros(consistent, position), setup)
    {
      haveMavros, mavros := consistent, position;
    }

    method PositionCb(p: Pose)
      modifies this
      ensures Now() == React(old(Now()), GotPose(p), setup)
    {
      if !haveOdom { start := p.xy; }
      pose, haveOdom := p, true;
      if !plannerEnabled && p.z > setup.enableHeight { OpenGate(); }
    }

    method OpenGate()
      modifies this
      ensures Now() == Opened(old(Now()))
    {
      plannerEnabled, receive, lastTrajCmdTime := true, false, None;
    }

    method TwistCb(r: Reference, now: real)
      modifies this
      ensures Now() == React(old(Now()), GotReference(r, now), setup)
    {
      if !plannerEnabled {
        return;
      }
      reference, receive, lastTrajCmdTime := r, true, Some(now);
    }

    method LatchHold()
      modifies this
      ensures Now() == Latch(old(Now()))
    {
      holdUsesMavros := haveMavros;
      if holdUsesMavros {
        hold := mavros;
      } else if haveOdom {
        hold := Command(pose.xy, pose.z);
      }
      holdLatched := holdUsesMavros || haveOdom;
    }

    method SafetyHoldCb(data: bool)
      modifies this
      ensures Now() == React(old(Now()), HoldRequest(data), setup)
    {
      var entering := data && !holdActive;
      holdActive := data;
      if holdActive {
        receive := false;
        lastCmd := ZERO;
        if entering || !holdLatched { LatchHold(); }
      } else {
        holdLatched := false;
      }
    }

    method LandingRequestCb(data: bool)
      modifies this
      ensures Now() == React(old(Now()), LandingRequest(data), setup)
    {
      if !data {
        return;
      }
      landingRequested, holdActive, receive := true, true, false;
      LatchHold();
    }

    // ----- one control cycle -----

    method HoldStill() returns (out: Published)
      modifies this
      ensures Now() == Held(old(Now())).(lastCmd := ZERO)
      ensures var h := Held(old(Now()));
        out == if h.holdUsesMavros then HoldPosition(h.hold)
               else Velocity(BackToHold(h.hold, h.pose, setup.hypot), ZERO)
    {
      if !holdLatched {
        holdUsesMavros := haveMavros;
        hold := if haveMavros then mavros else Command(pose.xy, pose.z);
        holdLatched := true;
      }
      if holdUsesMavros {
        out := HoldPosition(hold);
      } else {
        out := Velocity(BackToHold(hold, pose, setup.hypot), ZERO);
      }
      lastCmd := ZERO;
    }

    method Climb() returns (out: Published)
      modifies this`lastCmd
      ensures lastCmd == ClimbCommand(old(Now()), setup) && out == Velocity(lastCmd, ZERO)
    {
      lastCmd := TakeOff(Minus(start, pose.xy), setup.limits.takeoffHeight - pose.z, setup.limits);
      out := Velocity(lastCmd, ZERO);
    }

    method Track(step: Step) returns (out: Published)
      modifies this`lastCmd
      ensures out == TrackOutput(old(Now()), step, setup) && lastCmd == out.velocity
    {
      if armed {
        lastCmd := Shape(Raw(reference, pose), lastCmd, pose.c, pose.s, step, setup.limits, setup.hypot);
        out := Velocity(lastCmd, Feed(reference.acceleration, setup.limits, setup.hypot));
      } else {
        lastCmd := ZERO;
        out := Velocity(ZERO, ZERO);
      }
    }

    /** The branches that fly: take-off, an expired reference, tracking. */
    method Fly(now: real, step: Step) returns (out: Published)
      requires haveOdom && !holdActive
      requires lastControlStamp == Some(now)
      modifies this`lastCmd, this`receive
      ensures receive == (old(receive) && !Late(old(Now()), now, setup))
      ensures out == (if !old(receive) then Velocity(ClimbCommand(old(Now()), setup), ZERO)
                      else if Late(old(Now()), now, setup) then Nothing
                      else TrackOutput(old(Now()), step, setup))
      ensures lastCmd == if out.Velocity? then out.velocity else old(lastCmd)
    {
      if !receive {
        out := Climb();
        return;
      }
      if lastTrajCmdTime.Some? && now - lastTrajCmdTime.value > setup.limits.trajTimeout {
        receive := false;
        return Nothing;
      }
      out := Track(step);
    }

    /** The part of a tick behind the gates; `before` is the state at its start. */
    method Drive(now: real, autoLand: bool, step: Step, ghost before: State) returns (out: Published)
      requires before.haveOdom && !(before.landingRequested && autoLand)
      requires Now() == before.(lastControlStamp := Some(now)) && step == StepAt(before, now, setup)
      modifies this
      ensures Now() == OnTick(before, now, autoLand, setup) && out == Output(before, now, autoLand, setup)
    {
      if holdActive {
        TickHolds(before, now, autoLand, setup);
        out := HoldStill();
      } else {
        TickFlies(before, now, autoLand, setup);
        out := Fly(now, step);
      }
    }

    /** One tick of the control timer: hold before take-off before tracking. */
    method Control(now: real, autoLand: bool) returns (out: Published)
      modifies this
      ensures Now() == React(old(Now()), Tick(now, autoLand), setup)
      ensures out == Output(old(Now()), now, autoLand, setup)
      ensures Flyable(setup) && InBounds(old(Now()), setup) ==>
        InBounds(Now(), setup) && Enveloped(out, old(Now()), now, autoLand, setup)
    {
      ghost var before := Now();
      KeepsEnvelope(before, now, autoLand, setup);
      if !haveOdom {
        return Nothing;
      }
      var step := StepIn(setup.limits)(Period(now, lastControlStamp));
      lastControlStamp := Some(now);
      if landingRequested && autoLand {
        return Nothing;
      }
      out := Drive(now, autoLand, step, before);
    }
  }
}
