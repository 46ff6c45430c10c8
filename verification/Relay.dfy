/** The relay queue between leader and follower: callbacks in any order, one state. */
module Relay {
  import opened Geometry

  datatype Kind = Door | Internal | Exit | Terminal

  /** A waypoint with its route progress and the leader's progress when it was released. */
  datatype Waypoint = Waypoint(kind: Kind, progress: real, releasedAt: real)

  datatype Setup = Setup(spacing: real, releaseDistance: real, doorInside: real, maxInternal: int)

  /** `arrived` and `landingRequests` are histories: the indices consumed, and the number of landing
      requests published. `exitIndex` and `terminalIndex` are None as long as the source's are
      the largest size_t. */
  datatype State = State(queue: seq<Waypoint>, active: nat, exitIndex: Option<nat>, terminalIndex: Option<nat>,
                         haveDoor: bool, doorReleased: bool, haveExit: bool, leaderOutside: bool, exitReleased: bool,
                         terminalMode: bool, pending: Option<real>, lastSelection: real, internalCount: nat,
                         landingRequested: bool, landingRequests: nat, arrived: seq<nat>)

  const START := State([], 0, None, None, false, false, false, false, false, false, None, 0.0, 0, false, 0, [])

  /** What the environment decides about each callback. */
  datatype Event =
    | DoorPose
    | ExitPose(progress: real)                        // nearest route progress of the exit
    | TaskStatus(outside: bool, progress: real)
    | LeaderAt(progress: real, inside: real)          // an accepted route point, its depth behind the door
    | Backtrack                                       // the leader turns back or revisits its route
    | LandingRequest(data: bool, routeEmpty: bool, progress: real)
    | Tick(reached: bool)                             // the active waypoint is reached and dwelled on

  function Append(s: State, w: Waypoint): State { s.(queue := s.queue + [w]) }

  function TryReleaseExit(s: State, progress: real): State {
    if !s.haveExit || !s.leaderOutside || s.exitReleased || s.terminalMode then s
    else
      Append(s.(pending := None, exitIndex := Some(|s.queue|), exitReleased := true),
             Waypoint(Exit, progress, progress))
  }

  function ReleaseDoor(s: State, progress: real, inside: real, c: Setup): State {
    if inside < c.doorInside then s
    else
      var at := Max(0.0, progress - inside);
      Append(s.(doorReleased := true, lastSelection := at), Waypoint(Door, at, progress))
  }

  function ReleaseInternal(s: State, progress: real, c: Setup): State {
    var pending := if s.pending == None && progress - s.lastSelection >= c.spacing then Some(progress) else s.pending;
    if pending.Some? && progress - pending.value >= c.releaseDistance then
      Append(s.(lastSelection := pending.value, pending := None, internalCount := s.internalCount + 1),
             Waypoint(Internal, pending.value, progress))
    else s.(pending := pending)
  }

  function LeaderMoved(s: State, progress: real, inside: real, c: Setup): State {
    if !s.haveDoor || s.terminalMode then s
    else if !s.doorReleased then ReleaseDoor(s, progress, inside, c)
    else if s.exitReleased then s
    else if c.maxInternal > 0 && s.internalCount >= c.maxInternal then s
    else ReleaseInternal(s, progress, c)
  }

  function Land(s: State, progress: real): State {
    Append(s.(terminalMode := true, pending := None, terminalIndex := Some(|s.queue|)),
           Waypoint(Terminal, progress, progress))
  }

  /** handleDiffPlannerExecution, as far as the queue goes. */
  function Execute(s: State, reached: bool): State {
    if s.active >= |s.queue| || !reached then s
    else if s.terminalMode && s.terminalIndex == Some(s.active) then
      if s.landingRequested then s else s.(landingRequested := true, landingRequests := s.landingRequests + 1)
    else Arrive(s)
  }

  function Arrive(s: State): State { s.(active := s.active + 1, arrived := s.arrived + [s.active]) }

  function React(s: State, e: Event, c: Setup): State {
    match e
    case DoorPose => s.(haveDoor := true)
    case ExitPose(progress) => if s.haveExit then s else TryReleaseExit(s.(haveExit := true), progress)
    case TaskStatus(outside, progress) =>
      var t := s.(leaderOutside := outside);
      if outside then TryReleaseExit(t, progress) else t
    case LeaderAt(progress, inside) => LeaderMoved(s, progress, inside, c)
    case Backtrack => s.(pending := None)
    case LandingRequest(data, routeEmpty, progress) =>
      if !data || s.terminalMode || routeEmpty then s else Land(s, progress)
    case Tick(reached) => Execute(s, reached)
  }

  function Run(events: seq<Event>, c: Setup): State {
    if events == [] then START else React(Run(events[..|events| - 1], c), events[|events| - 1], c)
  }

  // ----- the invariant -----

  ghost predicate Has(q: seq<Waypoint>, l: Kind) { exists i :: 0 <= i < |q| && q[i].kind == l }

  /** An INTERNAL follows DOOR or INTERNAL, a spacing further, released a release distance past it. */
  ghost predicate Spaced(q: seq<Waypoint>, c: Setup) {
    forall i | 0 <= i < |q| && q[i].kind == Internal ::
      && i > 0 && (q[i - 1].kind == Door || q[i - 1].kind == Internal)
      && q[i].progress - q[i - 1].progress >= c.spacing
      && q[i].releasedAt - q[i].progress >= c.releaseDistance
  }

  ghost predicate Sorted(q: seq<Waypoint>) {
    && (forall i, j | 0 <= i < j < |q| :: q[i].kind == q[j].kind ==> q[i].kind == Internal)
    && (forall i, j | 0 <= i < j < |q| :: q[i].kind == Exit ==> q[j].kind != Internal)
    && (forall i | 0 <= i < |q| - 1 :: q[i].kind != Terminal)
  }

  ghost predicate Flagged(s: State) {
    && (s.doorReleased <==> Has(s.queue, Door))
    && (s.exitReleased <==> Has(s.queue, Exit))
    && (s.terminalMode <==> Has(s.queue, Terminal))
    && s.terminalIndex == (if s.terminalMode then Some(|s.queue| - 1) else None)
  }

  /** While INTERNAL waypoints may still come, the queue ends in the last selection. */
  ghost predicate Selecting(s: State, c: Setup) {
    && (s.doorReleased && !s.exitReleased && !s.terminalMode ==>
          var n := |s.queue|;
          && n > 0 && (s.queue[n - 1].kind == Door || s.queue[n - 1].kind == Internal)
          && s.queue[n - 1].progress == s.lastSelection)
    && (s.pending.Some? ==> s.doorReleased && s.pending.value - s.lastSelection >= c.spacing)
  }

  ghost predicate Consumed(s: State) {
    && s.active <= |s.queue| && (s.terminalMode ==> s.active < |s.queue|)
    && |s.arrived| == s.active && (forall i | 0 <= i < s.active :: s.arrived[i] == i)
    && s.landingRequests == (if s.landingRequested then 1 else 0)
    && (s.landingRequested ==> s.terminalMode && s.active == |s.queue| - 1)
  }

  ghost predicate Inv(s: State, c: Setup) {
    Spaced(s.queue, c) && Sorted(s.queue) && Flagged(s) && Selecting(s, c) && Consumed(s)
  }

  lemma HasMore(q: seq<Waypoint>, w: Waypoint, l: Kind)
    ensures Has(q + [w], l) <==> Has(q, l) || w.kind == l
  {
    if Has(q, l) {
      var i :| 0 <= i < |q| && q[i].kind == l;
      assert (q + [w])[i].kind == l;
    }
    if w.kind == l { assert (q + [w])[|q|].kind == l; }
  }

  lemma Missing(q: seq<Waypoint>, l: Kind)
    requires !Has(q, l)
    ensures forall i | 0 <= i < |q| :: q[i].kind != l
  {
  }

  /** Appending keeps the order if the label may still come. */
  lemma SortedMore(q: seq<Waypoint>, w: Waypoint)
    requires Sorted(q) && !Has(q, Terminal)
    requires w.kind != Internal ==> !Has(q, w.kind)
    requires w.kind == Internal ==> !Has(q, Exit)
    ensures Sorted(q + [w])
  {
    Missing(q, Terminal);
  }

  lemma FlaggedMore(q: seq<Waypoint>, w: Waypoint)
    ensures forall l :: Has(q + [w], l) <==> Has(q, l) || w.kind == l
  {
    forall l ensures Has(q + [w], l) <==> Has(q, l) || w.kind == l { HasMore(q, w, l); }
  }

  lemma ExitKeeps(s: State, progress: real, c: Setup)
    requires Inv(s, c)
    ensures Inv(TryReleaseExit(s, progress), c)
  {
    var w := Waypoint(Exit, progress, progress);
    FlaggedMore(s.queue, w);
    if s.haveExit && s.leaderOutside && !s.exitReleased && !s.terminalMode { SortedMore(s.queue, w); }
  }

  lemma DoorKeeps(s: State, progress: real, inside: real, c: Setup)
    requires Inv(s, c) && !s.doorReleased && !s.terminalMode
    ensures Inv(ReleaseDoor(s, progress, inside, c), c)
  {
    var w := Waypoint(Door, Max(0.0, progress - inside), progress);
    FlaggedMore(s.queue, w);
    SortedMore(s.queue, w);
  }

  lemma SpacedMore(q: seq<Waypoint>, w: Waypoint, c: Setup)
    requires Spaced(q, c) && w.kind == Internal && q != []
    requires q[|q| - 1].kind == Door || q[|q| - 1].kind == Internal
    requires w.progress - q[|q| - 1].progress >= c.spacing && w.releasedAt - w.progress >= c.releaseDistance
    ensures Spaced(q + [w], c)
  {
  }

  /** The pending point is released. */
  lemma ReleaseKeeps(s: State, at: real, progress: real, c: Setup)
    requires Inv(s, c) && s.doorReleased && !s.exitReleased && !s.terminalMode
    requires at - s.lastSelection >= c.spacing && progress - at >= c.releaseDistance
    ensures var w := Waypoint(Internal, at, progress);
      Inv(Append(s.(lastSelection := at, pending := None, internalCount := s.internalCount + 1), w), c)
  {
    var w := Waypoint(Internal, at, progress);
    SpacedMore(s.queue, w, c);
    FlaggedMore(s.queue, w);
    SortedMore(s.queue, w);
  }

  lemma InternalKeeps(s: State, progress: real, c: Setup)
    requires Inv(s, c) && s.doorReleased && !s.exitReleased && !s.terminalMode
    ensures Inv(ReleaseInternal(s, progress, c), c)
  {
    var pending := if s.pending == None && progress - s.lastSelection >= c.spacing then Some(progress) else s.pending;
    if pending.Some? && progress - pending.value >= c.releaseDistance {
      ReleaseKeeps(s, pending.value, progress, c);
    }
  }

  lemma LandKeeps(s: State, progress: real, c: Setup)
    requires Inv(s, c) && !s.terminalMode
    ensures Inv(Land(s, progress), c)
  {
    var w := Waypoint(Terminal, progress, progress);
    FlaggedMore(s.queue, w);
    SortedMore(s.queue, w);
  }

  lemma MoveKeeps(s: State, progress: real, inside: real, c: Setup)
    requires Inv(s, c)
    ensures Inv(LeaderMoved(s, progress, inside, c), c)
  {
    if s.haveDoor && !s.terminalMode {
      if !s.doorReleased {
        DoorKeeps(s, progress, inside, c);
      } else if !s.exitReleased {
        InternalKeeps(s, progress, c);
      }
    }
  }

  lemma ArriveKeeps(s: State)
    requires Consumed(s) && s.active < |s.queue| && (s.terminalMode ==> s.active != |s.queue| - 1)
    ensures Consumed(Arrive(s))
  {
  }

  lemma ExecuteKeeps(s: State, reached: bool, c: Setup)
    requires Inv(s, c)
    ensures Inv(Execute(s, reached), c)
  {
    if s.active < |s.queue| && reached && !(s.terminalMode && s.terminalIndex == Some(s.active)) { ArriveKeeps(s); }
  }

  lemma ExitPoseKeeps(s: State, progress: real, c: Setup)
    requires Inv(s, c)
    ensures Inv(React(s, ExitPose(progress), c), c)
  {
    ExitKeeps(s.(haveExit := true), progress, c);
  }

  lemma StatusKeeps(s: State, outside: bool, progress: real, c: Setup)
    requires Inv(s, c)
    ensures Inv(React(s, TaskStatus(outside, progress), c), c)
  {
    ExitKeeps(s.(leaderOutside := outside), progress, c);
  }

  lemma ReactKeeps(s: State, e: Event, c: Setup)
    requires Inv(s, c)
    ensures Inv(React(s, e, c), c)
  {
    match e
    case ExitPose(progress) => ExitPoseKeeps(s, progress, c);
    case TaskStatus(outside, progress) => StatusKeeps(s, outside, progress, c);
    case LeaderAt(progress, inside) => MoveKeeps(s, progress, inside, c);
    case LandingRequest(data, routeEmpty, progress) => if !s.terminalMode { LandKeeps(s, progress, c); }
    case Tick(reached) => ExecuteKeeps(s, reached, c);
    case _ =>
  }

  lemma {:induction false} RunKeeps(events: seq<Event>, c: Setup)
    ensures Inv(Run(events, c), c)
    decreases |events|
  {
    if events != [] {
      RunKeeps(events[..|events| - 1], c);
      ReactKeeps(Run(events[..|events| - 1], c), events[|events| - 1], c);
    }
  }

  // ----- what every run promises -----

  lemma {:induction false} DoorBefore(q: seq<Waypoint>, c: Setup, j: nat)
    requires Spaced(q, c) && j < |q| && q[j].kind == Internal
    ensures exists i :: 0 <= i < j && q[i].kind == Door
    decreases j
  {
    if q[j - 1].kind == Internal { DoorBefore(q, c, j - 1); }
  }

  /** In every interleaving: DOOR, EXIT and TERMINAL at most once, nothing after TERMINAL; each
      INTERNAL after DOOR, not after EXIT, a spacing past the selection before it and released only
      once the leader was the release distance past it. */
  lemma RelayOrder(events: seq<Event>, c: Setup)
    ensures var q := Run(events, c).queue;
      && (forall i, j | 0 <= i < j < |q| :: q[i].kind == q[j].kind ==> q[i].kind == Internal)
      && (forall i | 0 <= i < |q| && q[i].kind == Terminal :: i == |q| - 1)
      && (forall j | 0 <= j < |q| && q[j].kind == Internal ::
            && (exists i :: 0 <= i < j && q[i].kind == Door)
            && (forall i | 0 <= i < j :: q[i].kind != Exit)
            && q[j].progress - q[j - 1].progress >= c.spacing
            && q[j].releasedAt - q[j].progress >= c.releaseDistance)
  {
    RunKeeps(events, c);
    var q := Run(events, c).queue;
    forall j | 0 <= j < |q| && q[j].kind == Internal ensures exists i :: 0 <= i < j && q[i].kind == Door {
      DoorBefore(q, c, j);
    }
  }

  /** Landing is requested at most once, and only when every waypoint before the terminal one has
      been consumed, one by one and in order. */
  lemma LandingLast(events: seq<Event>, c: Setup)
    ensures var s := Run(events, c);
      && s.landingRequests <= 1
      && s.arrived == seq(|s.arrived|, i => i)
      && (s.landingRequests == 1 ==> |s.arrived| == |s.queue| - 1 && s.queue[|s.queue| - 1].kind == Terminal)
  {
    RunKeeps(events, c);
    var s := Run(events, c);
    if s.terminalMode {
      var i :| 0 <= i < |s.queue| && s.queue[i].kind == Terminal;
    }
  }

  lemma MoveGrows(s: State, progress: real, inside: real, c: Setup)
    ensures var r := LeaderMoved(s, progress, inside, c); s.queue <= r.queue && (s.terminalMode ==> r == s)
  {
  }

  /** The queue only grows at its end, and not at all after TERMINAL. */
  lemma QueueGrows(s: State, e: Event, c: Setup)
    ensures var r := React(s, e, c); s.queue <= r.queue && (s.terminalMode ==> r.queue == s.queue && r.terminalMode)
  {
    match e
    case LeaderAt(progress, inside) => MoveGrows(s, progress, inside, c);
    case _ =>
  }

  lemma {:induction false} RunGrows(events: seq<Event>, i: nat, c: Setup)
    requires i <= |events|
    ensures Run(events[..i], c).queue <= Run(events, c).queue
    decreases |events|
  {
    if i == |events| {
      assert events[..i] == events;
    } else {
      var front := events[..|events| - 1];
      RunGrows(front, i, c);
      assert front[..i] == events[..i];
      QueueGrows(Run(front, c), events[|events| - 1], c);
    }
  }

  ghost predicate DoorBeforeExit(q: seq<Waypoint>) {
    exists j, k :: 0 <= j < k < |q| && q[j].kind == Door && q[k].kind == Exit
  }

  /** EXIT is queued by this event. */
  predicate QueuesExit(s: State, e: Event, c: Setup) { !s.exitReleased && React(s, e, c).exitReleased }

  lemma ExitJoins(s: State, e: Event, c: Setup)
    requires QueuesExit(s, e, c)
    ensures exists w: Waypoint :: w.kind == Exit && React(s, e, c).queue == s.queue + [w]
  {
    var p := match e case ExitPose(progress) => progress case TaskStatus(_, progress) => progress case _ => 0.0;
    assert React(s, e, c).queue == s.queue + [Waypoint(Exit, p, p)];
  }

  /** With EXIT right behind the waypoints `q`, a DOOR precedes it in a sorted queue exactly if there is one in `q`. */
  lemma DoorInFront(q: seq<Waypoint>, w: Waypoint, all: seq<Waypoint>)
    requires Sorted(all) && q + [w] <= all && w.kind == Exit
    ensures DoorBeforeExit(all) <==> Has(q, Door)
  {
    assert all[|q|] == w;
    if Has(q, Door) {
      var j :| 0 <= j < |q| && q[j].kind == Door;
      assert all[j].kind == Door;
    }
    if DoorBeforeExit(all) {
      var j, k :| 0 <= j < k < |all| && all[j].kind == Door && all[k].kind == Exit;
      assert k == |q|;
      assert q[j] == all[j];
    }
  }

  /** In every interleaving: if EXIT is queued at step i, DOOR precedes it in that and every later
      queue if and only if DOOR had been released before step i, which nobody checks there. */
  lemma ExitAfterDoorIff(events: seq<Event>, i: nat, c: Setup)
    requires i < |events| && QueuesExit(Run(events[..i], c), events[i], c)
    ensures DoorBeforeExit(Run(events, c).queue) <==> Run(events[..i], c).doorReleased
  {
    var s := Run(events[..i], c);
    assert events[..i + 1][..i] == events[..i];
    assert Run(events[..i + 1], c) == React(s, events[i], c);
    ExitJoins(s, events[i], c);
    var w: Waypoint :| w.kind == Exit && React(s, events[i], c).queue == s.queue + [w];
    RunGrows(events, i + 1, c);
    RunKeeps(events, c);
    RunKeeps(events[..i], c);
    DoorInFront(s.queue, w, Run(events, c).queue);
  }

  /** DOOR need not come before EXIT: the exit is queued without asking for the door. */
  lemma ExitMayPrecedeDoor(c: Setup, p: real)
    ensures exists events ::
      var q := Run(events, c).queue; |q| == 2 && q[0].kind == Exit && q[1].kind == Door
  {
    var e := [DoorPose, ExitPose(p), TaskStatus(true, p), LeaderAt(p, c.doorInside)];
    assert e[..3] == [DoorPose, ExitPose(p), TaskStatus(true, p)] && e[..3][..2] == [DoorPose, ExitPose(p)];
    assert e[..3][..2][..1] == [DoorPose] && e[..3][..2][..1][..0] == [];
    var s1 := React(START, DoorPose, c);
    assert Run([DoorPose], c) == s1;
    var s2 := React(s1, ExitPose(p), c);
    assert Run([DoorPose, ExitPose(p)], c) == s2;
    var s3 := React(s2, TaskStatus(true, p), c);
    assert Run(e[..3], c) == s3;
    assert Run(e, c) == React(s3, LeaderAt(p, c.doorInside), c);
  }

  // ----- who is consumed, and when landing is requested -----

  /** The waypoint to be reached next is the terminal one. */
  predicate AtTerminal(s: State) { s.active < |s.queue| && s.queue[s.active].kind == Terminal }

  lemma TerminalIsIndexed(s: State, c: Setup)
    requires Inv(s, c) && s.active < |s.queue|
    ensures AtTerminal(s) <==> s.terminalMode && s.terminalIndex == Some(s.active)
  {
    if AtTerminal(s) {
      assert s.active == |s.queue| - 1;
    } else if s.terminalMode {
      var i :| 0 <= i < |s.queue| && s.queue[i].kind == Terminal;
      assert i == |s.queue| - 1;
    }
  }

  lemma TickReached(s: State, reached: bool, c: Setup)
    requires Inv(s, c)
    ensures var r := Execute(s, reached);
      && (r.landingRequests > s.landingRequests <==> reached && AtTerminal(s) && !s.landingRequested)
      && (r.active > s.active <==> reached && s.active < |s.queue| && !AtTerminal(s))
      && s.landingRequests <= r.landingRequests <= s.landingRequests + 1 && s.active <= r.active <= s.active + 1
  {
    if s.active < |s.queue| { TerminalIsIndexed(s, c); }
  }

  lemma OthersConsumeNothing(s: State, e: Event, c: Setup)
    requires !e.Tick?
    ensures var r := React(s, e, c); r.landingRequests == s.landingRequests && r.active == s.active
  {
  }

  /** Only a tick that finds the active waypoint reached consumes or lands: it lands at the terminal
      waypoint, once, and consumes any other. */
  lemma ReachedIff(s: State, e: Event, c: Setup)
    requires Inv(s, c)
    ensures var r := React(s, e, c);
      && (r.landingRequests > s.landingRequests <==> e == Tick(true) && AtTerminal(s) && !s.landingRequested)
      && (r.active > s.active <==> e == Tick(true) && s.active < |s.queue| && !AtTerminal(s))
      && s.landingRequests <= r.landingRequests <= s.landingRequests + 1 && s.active <= r.active <= s.active + 1
  {
    if e.Tick? { TickReached(s, e.reached, c); } else { OthersConsumeNothing(s, e, c); }
  }

  /** ... at every step of every run. */
  lemma LandsWhenReached(events: seq<Event>, i: nat, c: Setup)
    requires i < |events|
    ensures var s, r := Run(events[..i], c), Run(events[..i + 1], c);
      && (r.landingRequests > s.landingRequests <==> events[i] == Tick(true) && AtTerminal(s) && !s.landingRequested)
      && (r.active > s.active <==> events[i] == Tick(true) && s.active < |s.queue| && !AtTerminal(s))
  {
    RunKeeps(events[..i], c);
    ReachedIff(Run(events[..i], c), events[i], c);
    assert events[..i + 1][..i] == events[..i];
  }

  function AfterTicks(s: State, n: nat): State { if n == 0 then s else Execute(AfterTicks(s, n - 1), true) }

  /** Once TERMINAL is queued, as many reached ticks as waypoints are left bring the landing request. */
  lemma {:induction false} TicksLand(s: State, c: Setup, n: nat)
    requires Inv(s, c) && s.terminalMode && n <= |s.queue| - s.active
    ensures var r := AfterTicks(s, n);
      && Inv(r, c) && r.terminalMode && r.queue == s.queue
      && r.active == (if n < |s.queue| - s.active then s.active + n else |s.queue| - 1)
      && (n == |s.queue| - s.active ==> r.landingRequested)
  {
    if n > 0 {
      TicksLand(s, c, n - 1);
      var f := AfterTicks(s, n - 1);
      TerminalIsIndexed(f, c);
      ExecuteKeeps(f, true, c);
      LastIsTerminal(f, c);
    }
  }

  lemma LastIsTerminal(s: State, c: Setup)
    requires Inv(s, c) && s.terminalMode
    ensures forall i | 0 <= i < |s.queue| :: s.queue[i].kind == Terminal <==> i == |s.queue| - 1
  {
    var i :| 0 <= i < |s.queue| && s.queue[i].kind == Terminal;
    assert i == |s.queue| - 1;
  }

  // ----- what is queued, and by which events -----

  /** The last status in the list is that of a leader outside. */
  ghost predicate LastOutside(events: seq<Event>) {
    exists i :: 0 <= i < |events| && events[i].TaskStatus? && events[i].outside
      && forall j | i < j < |events| :: !events[j].TaskStatus?
  }

  ghost predicate DoorKnown(events: seq<Event>) { exists i :: 0 <= i < |events| && events[i].DoorPose? }
  ghost predicate ExitKnown(events: seq<Event>) { exists i :: 0 <= i < |events| && events[i].ExitPose? }

  /** A landing request that counts. */
  predicate Lands(e: Event) { e.LandingRequest? && e.data && !e.routeEmpty }
  ghost predicate LandingAsked(events: seq<Event>) { exists i :: 0 <= i < |events| && Lands(events[i]) }

  lemma HistoryStep(front: seq<Event>, e: Event)
    ensures DoorKnown(front + [e]) <==> DoorKnown(front) || e.DoorPose?
    ensures ExitKnown(front + [e]) <==> ExitKnown(front) || e.ExitPose?
    ensures LandingAsked(front + [e]) <==> LandingAsked(front) || Lands(e)
  {
    var all := front + [e];
    assert all[|front|] == e && forall i | 0 <= i < |front| :: all[i] == front[i];
  }

  lemma OutsideStep(front: seq<Event>, e: Event)
    ensures LastOutside(front + [e]) <==> if e.TaskStatus? then e.outside else LastOutside(front)
  {
    var all := front + [e];
    assert all[|front|] == e && forall i | 0 <= i < |front| :: all[i] == front[i];
    if LastOutside(front) && !e.TaskStatus? {
      var i :| 0 <= i < |front| && front[i].TaskStatus? && front[i].outside
        && forall j | i < j < |front| :: !front[j].TaskStatus?;
      assert all[i].TaskStatus? && forall j | i < j < |all| :: !all[j].TaskStatus?;
    }
  }

  /** The flags are what the events say. */
  ghost predicate Told(s: State, events: seq<Event>) {
    && (s.haveDoor <==> DoorKnown(events)) && (s.haveExit <==> ExitKnown(events))
    && (s.leaderOutside <==> LastOutside(events)) && (s.terminalMode <==> LandingAsked(events))
  }

  lemma MoveFlags(s: State, progress: real, inside: real, c: Setup)
    ensures var r := LeaderMoved(s, progress, inside, c);
      && r.haveDoor == s.haveDoor && r.haveExit == s.haveExit && r.leaderOutside == s.leaderOutside
      && r.terminalMode == s.terminalMode && r.exitReleased == s.exitReleased
      && (r.doorReleased <==> s.doorReleased || (inside >= c.doorInside && s.haveDoor && !s.terminalMode))
  {
  }

  lemma FlagsStep(s: State, e: Event, c: Setup)
    ensures var r := React(s, e, c);
      && (r.haveDoor <==> s.haveDoor || e.DoorPose?) && (r.haveExit <==> s.haveExit || e.ExitPose?)
      && (r.leaderOutside <==> if e.TaskStatus? then e.outside else s.leaderOutside)
      && (r.terminalMode <==> s.terminalMode || Lands(e))
  {
    if e.LeaderAt? { MoveFlags(s, e.progress, e.inside, c); }
  }

  lemma {:induction false} RunIsTold(events: seq<Event>, c: Setup)
    ensures Told(Run(events, c), events)
    decreases |events|
  {
    if events != [] {
      var front, e := events[..|events| - 1], events[|events| - 1];
      assert events == front + [e];
      RunIsTold(front, c);
      HistoryStep(front, e);
      OutsideStep(front, e);
      FlagsStep(Run(front, c), e, c);
    }
  }

  /** The exit may be queued: it is known, the leader is outside, and no landing has been asked for. */
  ghost predicate ExitDue(events: seq<Event>) { ExitKnown(events) && LastOutside(events) && !LandingAsked(events) }

  lemma ExitStep(s: State, e: Event, c: Setup)
    requires s.haveExit && s.leaderOutside && !s.terminalMode ==> s.exitReleased
    ensures var r := React(s, e, c);
      && (r.exitReleased <==> s.exitReleased || (r.haveExit && r.leaderOutside && !r.terminalMode))
      && (r.haveExit && r.leaderOutside && !r.terminalMode ==> r.exitReleased)
  {
    if e.LeaderAt? { MoveFlags(s, e.progress, e.inside, c); }
  }

  lemma {:induction false} ExitReleasedIff(events: seq<Event>, c: Setup)
    ensures var s := Run(events, c);
      && (s.exitReleased <==> exists n :: 0 <= n <= |events| && ExitDue(events[..n]))
      && (s.haveExit && s.leaderOutside && !s.terminalMode ==> s.exitReleased)
    decreases |events|
  {
    RunIsTold(events, c);
    assert events[..|events|] == events;
    if events == [] {
      assert !ExitDue(events[..0]);
    } else {
      var front := events[..|events| - 1];
      ExitReleasedIff(front, c);
      ExitStep(Run(front, c), events[|events| - 1], c);
      forall n | 0 <= n < |events| ensures front[..n] == events[..n] {}
      if Run(front, c).exitReleased {
        var n :| 0 <= n <= |front| && ExitDue(front[..n]);
        assert ExitDue(events[..n]);
      }
      if n :| 0 <= n <= |events| && ExitDue(events[..n]) {
        if n < |events| { assert ExitDue(front[..n]); }
      }
    }
  }

  /** In every run: EXIT is queued if and only if at some time the exit was known, the leader outside
      and no landing asked for; TERMINAL if and only if a landing was asked for on a route. */
  lemma QueuedIff(events: seq<Event>, c: Setup)
    ensures var q := Run(events, c).queue;
      && (Has(q, Exit) <==> exists n :: 0 <= n <= |events| && ExitDue(events[..n]))
      && (Has(q, Terminal) <==> LandingAsked(events))
  {
    RunKeeps(events, c);
    RunIsTold(events, c);
    ExitReleasedIff(events, c);
  }

  lemma PlaceStep(s: State, e: Event, c: Setup)
    ensures var r := React(s, e, c);
      && (r.exitReleased && !s.exitReleased ==>
            (e.ExitPose? || e.TaskStatus?) && r.queue == s.queue + [Waypoint(Exit, e.progress, e.progress)])
      && (r.terminalMode && !s.terminalMode ==>
            e.LandingRequest? && r.queue == s.queue + [Waypoint(Terminal, e.progress, e.progress)])
  {
    if e.LeaderAt? { MoveFlags(s, e.progress, e.inside, c); }
  }

  /** EXIT and TERMINAL are queued at the route progress that their event brings. */
  lemma ExitAndTerminalPlace(events: seq<Event>, n: nat, c: Setup)
    requires n < |events|
    ensures var s, r := Run(events[..n], c), Run(events[..n + 1], c); var e := events[n];
      && (r.exitReleased && !s.exitReleased ==>
            (e.ExitPose? || e.TaskStatus?) && r.queue == s.queue + [Waypoint(Exit, e.progress, e.progress)])
      && (r.terminalMode && !s.terminalMode ==>
            e.LandingRequest? && r.queue == s.queue + [Waypoint(Terminal, e.progress, e.progress)])
  {
    assert events[..n + 1][..n] == events[..n];
    assert Run(events[..n + 1], c) == React(Run(events[..n], c), events[n], c);
    PlaceStep(Run(events[..n], c), events[n], c);
  }

  /** The leader is deep enough behind a known door, and no landing has been asked for. */
  ghost predicate DoorDue(front: seq<Event>, e: Event, c: Setup) {
    e.LeaderAt? && e.inside >= c.doorInside && DoorKnown(front) && !LandingAsked(front)
  }

  lemma DoorJoins(s: State, progress: real, inside: real, c: Setup)
    ensures var r := LeaderMoved(s, progress, inside, c);
      r.doorReleased && !s.doorReleased ==>
        r.queue == s.queue + [Waypoint(Door, Max(0.0, progress - inside), progress)]
  {
  }

  lemma DoorStep(s: State, e: Event, c: Setup)
    ensures var r := React(s, e, c);
      && (r.doorReleased <==>
            s.doorReleased || (e.LeaderAt? && e.inside >= c.doorInside && s.haveDoor && !s.terminalMode))
      && (r.doorReleased && !s.doorReleased ==>
            e.LeaderAt? && r.queue == s.queue + [Waypoint(Door, Max(0.0, e.progress - e.inside), e.progress)])
  {
    if e.LeaderAt? {
      MoveFlags(s, e.progress, e.inside, c);
      DoorJoins(s, e.progress, e.inside, c);
    }
  }

  /** DOOR is queued if and only if some event finds it due. */
  lemma {:induction false} DoorQueuedIff(events: seq<Event>, c: Setup)
    ensures Run(events, c).doorReleased <==> exists n :: 0 <= n < |events| && DoorDue(events[..n], events[n], c)
    decreases |events|
  {
    if events != [] {
      var last := |events| - 1;
      var front := events[..last];
      DoorQueuedIff(front, c);
      RunIsTold(front, c);
      DoorStep(Run(front, c), events[last], c);
      forall n | 0 <= n < last ensures front[..n] == events[..n] && front[n] == events[n] {}
      if Run(front, c).doorReleased {
        var n :| 0 <= n < last && DoorDue(front[..n], front[n], c);
        assert DoorDue(events[..n], events[n], c);
      }
      if n :| 0 <= n < |events| && DoorDue(events[..n], events[n], c) {
        if n < last { assert DoorDue(front[..n], front[n], c); }
      }
    }
  }

  /** It lies as far back on the route as the leader is behind the door. */
  lemma DoorPlace(events: seq<Event>, n: nat, c: Setup)
    requires n < |events| && !Run(events[..n], c).doorReleased && DoorDue(events[..n], events[n], c)
    ensures var s := Run(events[..n], c); var e := events[n];
      Run(events[..n + 1], c).queue == s.queue + [Waypoint(Door, Max(0.0, e.progress - e.inside), e.progress)]
  {
    RunIsTold(events[..n], c);
    DoorStep(Run(events[..n], c), events[n], c);
    assert events[..n + 1][..n] == events[..n];
  }

  // ----- internal waypoints come, and are counted -----

  /** INTERNAL waypoints may be queued. */
  predicate Open(s: State, c: Setup) {
    && s.haveDoor && s.doorReleased && !s.exitReleased && !s.terminalMode
    && (c.maxInternal > 0 ==> s.internalCount < c.maxInternal)
  }

  /** Ticks, door poses and leader poses short of the release distance past `at`. */
  predicate Quiet(e: Event, at: real, c: Setup) {
    e.Tick? || e.DoorPose? || (e.LeaderAt? && e.progress - at < c.releaseDistance)
  }

  function After(s: State, events: seq<Event>, c: Setup): State {
    if events == [] then s else React(After(s, events[..|events| - 1], c), events[|events| - 1], c)
  }

  lemma QuietStep(s: State, e: Event, at: real, c: Setup)
    requires Open(s, c) && s.pending == Some(at) && Quiet(e, at, c)
    ensures var r := React(s, e, c); Open(r, c) && r.pending == Some(at) && r.queue == s.queue
  {
  }

  lemma {:induction false} PendingStays(s: State, events: seq<Event>, at: real, c: Setup)
    requires Open(s, c) && s.pending == Some(at) && forall i | 0 <= i < |events| :: Quiet(events[i], at, c)
    ensures var r := After(s, events, c); Open(r, c) && r.pending == Some(at) && r.queue == s.queue
    decreases |events|
  {
    if events != [] {
      PendingStays(s, events[..|events| - 1], at, c);
      QuietStep(After(s, events[..|events| - 1], c), events[|events| - 1], at, c);
    }
  }

  /** A leader pose a spacing past the last selection becomes an INTERNAL waypoint, where it was, as soon
      as the leader is the release distance past it, whatever quiet events come in between. */
  lemma InternalComes(s: State, at: real, inside: real, events: seq<Event>, progress: real, deep: real, c: Setup)
    requires Open(s, c) && s.pending == None && c.releaseDistance > 0.0
    requires at - s.lastSelection >= c.spacing && progress - at >= c.releaseDistance
    requires forall i | 0 <= i < |events| :: Quiet(events[i], at, c)
    ensures var r := After(React(s, LeaderAt(at, inside), c), events, c);
      r.queue == s.queue && React(r, LeaderAt(progress, deep), c).queue == s.queue + [Waypoint(Internal, at, progress)]
  {
    var t := React(s, LeaderAt(at, inside), c);
    assert Open(t, c) && t.pending == Some(at) && t.queue == s.queue;
    PendingStays(t, events, at, c);
  }

  /** A leader pose at `at` is event i, and the leader does not turn back from there to event n. */
  predicate SeenAt(events: seq<Event>, i: nat, n: nat, at: real) {
    && i < n <= |events| && events[i].LeaderAt? && events[i].progress == at
    && forall j | i < j < n :: !events[j].Backtrack?
  }

  ghost predicate PendingSeen(s: State, events: seq<Event>) {
    s.pending.Some? ==> exists i :: SeenAt(events, i, |events|, s.pending.value)
  }

  /** `w` was a leader pose, and the pose at which it was released came with no turning back in between. */
  ghost predicate Traced(events: seq<Event>, w: Waypoint) {
    exists i, n :: SeenAt(events, i, n, w.progress) && events[n - 1].LeaderAt? && events[n - 1].progress == w.releasedAt
  }

  ghost predicate AllTraced(q: seq<Waypoint>, events: seq<Event>) {
    forall k | 0 <= k < |q| && q[k].kind == Internal :: Traced(events, q[k])
  }

  lemma SeenOn(front: seq<Event>, e: Event, i: nat, n: nat, at: real)
    requires SeenAt(front, i, n, at)
    ensures SeenAt(front + [e], i, n, at)
    ensures n == |front| && !e.Backtrack? ==> SeenAt(front + [e], i, n + 1, at)
  {
    assert forall j | 0 <= j < |front| :: (front + [e])[j] == front[j];
  }

  lemma TracedOn(q: seq<Waypoint>, front: seq<Event>, e: Event)
    requires AllTraced(q, front)
    ensures AllTraced(q, front + [e])
  {
    forall k | 0 <= k < |q| && q[k].kind == Internal ensures Traced(front + [e], q[k]) {
      var i, n :| SeenAt(front, i, n, q[k].progress)
        && front[n - 1].LeaderAt? && front[n - 1].progress == q[k].releasedAt;
      SeenOn(front, e, i, n, q[k].progress);
      assert (front + [e])[n - 1] == front[n - 1];
    }
  }

  /** What a leader pose leaves pending or queues was pending, or is the pose itself. */
  lemma MoveTraces(s: State, progress: real, inside: real, c: Setup)
    ensures var r := LeaderMoved(s, progress, inside, c);
      && (r.pending.Some? ==> r.pending == s.pending || r.pending == Some(progress))
      && (r.queue == s.queue || (|r.queue| == |s.queue| + 1 && r.queue[..|s.queue|] == s.queue &&
           var w := r.queue[|s.queue|];
           w.kind == Internal ==>
             w.releasedAt == progress && (s.pending == Some(w.progress) || w.progress == progress)))
  {
  }

  lemma OthersTrace(s: State, e: Event, c: Setup)
    requires !e.LeaderAt?
    ensures var r := React(s, e, c);
      && (r.pending.Some? ==> r.pending == s.pending && !e.Backtrack?)
      && (r.queue == s.queue || (|r.queue| == |s.queue| + 1 && r.queue[..|s.queue|] == s.queue
            && r.queue[|s.queue|].kind != Internal))
  {
  }

  lemma PendingSeenStep(s: State, front: seq<Event>, e: Event, c: Setup)
    requires PendingSeen(s, front)
    ensures PendingSeen(React(s, e, c), front + [e])
  {
    var r, all := React(s, e, c), front + [e];
    if e.LeaderAt? { MoveTraces(s, e.progress, e.inside, c); } else { OthersTrace(s, e, c); }
    if r.pending.Some? {
      if r.pending == s.pending {
        var i :| SeenAt(front, i, |front|, s.pending.value);
        SeenOn(front, e, i, |front|, s.pending.value);
      } else {
        assert SeenAt(all, |front|, |all|, e.progress);
      }
    }
  }

  lemma NewTraced(s: State, front: seq<Event>, e: Event, w: Waypoint)
    requires PendingSeen(s, front) && e.LeaderAt? && w.releasedAt == e.progress
    requires s.pending == Some(w.progress) || w.progress == e.progress
    ensures Traced(front + [e], w)
  {
    var all := front + [e];
    if w.progress == e.progress {
      assert SeenAt(all, |front|, |all|, w.progress);
    } else {
      var i :| SeenAt(front, i, |front|, w.progress);
      SeenOn(front, e, i, |front|, w.progress);
    }
  }

  lemma AllTracedMore(q: seq<Waypoint>, r: seq<Waypoint>, events: seq<Event>)
    requires AllTraced(q, events) && |r| == |q| + 1 && r[..|q|] == q
    requires r[|q|].kind == Internal ==> Traced(events, r[|q|])
    ensures AllTraced(r, events)
  {
    forall k | 0 <= k < |r| && r[k].kind == Internal ensures Traced(events, r[k]) {
      if k < |q| { assert r[k] == q[k]; }
    }
  }

  lemma TracedStep(s: State, front: seq<Event>, e: Event, c: Setup)
    requires PendingSeen(s, front) && AllTraced(s.queue, front)
    ensures AllTraced(React(s, e, c).queue, front + [e])
  {
    var r := React(s, e, c);
    TracedOn(s.queue, front, e);
    if e.LeaderAt? { MoveTraces(s, e.progress, e.inside, c); } else { OthersTrace(s, e, c); }
    if r.queue != s.queue {
      if r.queue[|s.queue|].kind == Internal { NewTraced(s, front, e, r.queue[|s.queue|]); }
      AllTracedMore(s.queue, r.queue, front + [e]);
    }
  }

  /** In every run each INTERNAL waypoint is a leader pose, released by a later one (or itself), and the
      leader has not turned back in between. */
  lemma {:induction false} InternalsTraced(events: seq<Event>, c: Setup)
    ensures var s := Run(events, c); AllTraced(s.queue, events) && PendingSeen(s, events)
    decreases |events|
  {
    if events != [] {
      var front, e := events[..|events| - 1], events[|events| - 1];
      assert events == front + [e];
      InternalsTraced(front, c);
      PendingSeenStep(Run(front, c), front, e, c);
      TracedStep(Run(front, c), front, e, c);
    }
  }

  function Internals(q: seq<Waypoint>): nat {
    if q == [] then 0 else Internals(q[..|q| - 1]) + if q[|q| - 1].kind == Internal then 1 else 0
  }

  lemma InternalsMore(q: seq<Waypoint>, w: Waypoint)
    ensures Internals(q + [w]) == Internals(q) + if w.kind == Internal then 1 else 0
  {
    assert (q + [w])[..|q|] == q;
  }

  predicate Counted(s: State, c: Setup) {
    s.internalCount == Internals(s.queue) && (c.maxInternal > 0 ==> s.internalCount <= c.maxInternal)
  }

  lemma MoveCounts(s: State, progress: real, inside: real, c: Setup)
    requires Counted(s, c)
    ensures Counted(LeaderMoved(s, progress, inside, c), c)
  {
    var r := LeaderMoved(s, progress, inside, c);
    if r.queue != s.queue { InternalsMore(s.queue, r.queue[|r.queue| - 1]); }
  }

  lemma ExitCounts(s: State, progress: real, c: Setup)
    requires Counted(s, c)
    ensures Counted(TryReleaseExit(s, progress), c)
  {
    InternalsMore(s.queue, Waypoint(Exit, progress, progress));
  }

  lemma CountStep(s: State, e: Event, c: Setup)
    requires Counted(s, c)
    ensures Counted(React(s, e, c), c)
  {
    match e
    case LeaderAt(progress, inside) => MoveCounts(s, progress, inside, c);
    case ExitPose(progress) => ExitPoseCounts(s, progress, c);
    case TaskStatus(outside, progress) => StatusCounts(s, outside, progress, c);
    case LandingRequest(_, _, progress) => LandCounts(s, progress, c);
    case _ =>
  }

  lemma ExitPoseCounts(s: State, progress: real, c: Setup)
    requires Counted(s, c)
    ensures Counted(React(s, ExitPose(progress), c), c)
  {
    ExitCounts(s.(haveExit := true), progress, c);
  }

  lemma StatusCounts(s: State, outside: bool, progress: real, c: Setup)
    requires Counted(s, c)
    ensures Counted(React(s, TaskStatus(outside, progress), c), c)
  {
    ExitCounts(s.(leaderOutside := outside), progress, c);
  }

  lemma LandCounts(s: State, progress: real, c: Setup)
    requires Counted(s, c)
    ensures Counted(Land(s, progress), c)
  {
    InternalsMore(s.queue, Waypoint(Terminal, progress, progress));
  }

  /** In every run no more INTERNAL waypoints are queued than the setting allows. */
  lemma {:induction false} InternalsCapped(events: seq<Event>, c: Setup)
    ensures var s := Run(events, c);
      Counted(s, c) && (c.maxInternal > 0 ==> Internals(s.queue) <= c.maxInternal)
    decreases |events|
  {
    if events != [] {
      InternalsCapped(events[..|events| - 1], c);
      CountStep(Run(events[..|events| - 1], c), events[|events| - 1], c);
    }
  }

  // ----- the follower node -----

  class Follower {
    var relayWaypoints: seq<Waypoint>
    var activeRelayIndex: nat
    var exitWaypointIndex: Option<nat>
    var terminalWaypointIndex: Option<nat>
    var haveConfirmedDoor: bool
    var doorWaypointReleased: bool
    var haveFinalExit: bool
    var leaderOutsideExit: bool
    var exitWaypointReleased: bool
    var terminalModeActive: bool
    var pendingRelay: Option<real>
    var lastRelaySelectionProgress: real
    var internalRelayCount: nat
    var followerLandingRequested: bool
    ghost var landingRequests: nat
    ghost var arrived: seq<nat>
    const setup: Setup

    ghost function Now(): State
      reads this
    {
      State(relayWaypoints, activeRelayIndex, exitWaypointIndex, terminalWaypointIndex, haveConfirmedDoor,
            doorWaypointReleased, haveFinalExit, leaderOutsideExit, exitWaypointReleased, terminalModeActive,
            pendingRelay, lastRelaySelectionProgress, internalRelayCount, followerLandingRequested,
            landingRequests, arrived)
    }

    constructor (c: Setup)
      ensures Now() == START && setup == c
    {
      setup := c;
      relayWaypoints, activeRelayIndex, exitWaypointIndex, terminalWaypointIndex := [], 0, None, None;
      haveConfirmedDoor, doorWaypointReleased, haveFinalExit, leaderOutsideExit := false, false, false, false;
      exitWaypointReleased, terminalModeActive, pendingRelay := false, false, None;
      lastRelaySelectionProgress, internalRelayCount, followerLandingRequested := 0.0, 0, false;
      landingRequests, arrived := 0, [];
    }

    method AppendRelayWaypoint(w: Waypoint)
      modifies this`relayWaypoints
      ensures relayWaypoints == old(relayWaypoints) + [w]
    {
      relayWaypoints := relayWaypoints + [w];
    }

    method DoorPoseCallback()
      modifies this
      ensures Now() == React(old(Now()), DoorPose, setup)
    {
      if haveConfirmedDoor {
        return;
      }
      haveConfirmedDoor := true;
    }

    method TryReleaseFinalExitWaypoint(progress: real)
      modifies this
      ensures Now() == TryReleaseExit(old(Now()), progress)
    {
      if !haveFinalExit || !leaderOutsideExit || exitWaypointReleased || terminalModeActive {
        return;
      }
      pendingRelay := None;
      exitWaypointIndex := Some(|relayWaypoints|);
      AppendRelayWaypoint(Waypoint(Exit, progress, progress));
      exitWaypointReleased := true;
    }

    method FinalExitPoseCallback(progress: real)
      modifies this
      ensures Now() == React(old(Now()), ExitPose(progress), setup)
    {
      if haveFinalExit {
        return;
      }
      haveFinalExit := true;
      TryReleaseFinalExitWaypoint(progress);
    }

    method LeaderTaskStatusCallback(outside: bool, progress: real)
      modifies this
      ensures Now() == React(old(Now()), TaskStatus(outside, progress), setup)
    {
      leaderOutsideExit := outside;
      if leaderOutsideExit {
        TryReleaseFinalExitWaypoint(progress);
      }
    }

    /** The leader turns back: the pending point is dropped. */
    method PauseRelayRoute()
      modifies this
      ensures Now() == React(old(Now()), Backtrack, setup)
    {
      pendingRelay := None;
    }

    /** The release part of leaderOdomCallback, for an accepted route point. */
    method LeaderOdomCallback(progress: real, inside: real)
      modifies this
      ensures Now() == React(old(Now()), LeaderAt(progress, inside), setup)
    {
      if !haveConfirmedDoor || terminalModeActive {
        return;
      }
      if !doorWaypointReleased {
        if inside < setup.doorInside {
          return;
        }
        var doorProgress := Max(0.0, progress - inside);
        AppendRelayWaypoint(Waypoint(Door, doorProgress, progress));
        doorWaypointReleased := true;
        lastRelaySelectionProgress := doorProgress;
        return;
      }
      if exitWaypointReleased {
        return;
      }
      if setup.maxInternal > 0 && internalRelayCount >= setup.maxInternal {
        return;
      }
      if pendingRelay == None && progress - lastRelaySelectionProgress >= setup.spacing {
        pendingRelay := Some(progress);
      }
      if pendingRelay.Some? && progress - pendingRelay.value >= setup.releaseDistance {
        AppendRelayWaypoint(Waypoint(Internal, pendingRelay.value, progress));
        lastRelaySelectionProgress := pendingRelay.value;
        pendingRelay := None;
        internalRelayCount := internalRelayCount + 1;
      }
    }

    method LeaderLandingRequestCallback(data: bool, routeEmpty: bool, progress: real)
      modifies this
      ensures Now() == React(old(Now()), LandingRequest(data, routeEmpty, progress), setup)
    {
      if !data || terminalModeActive {
        return;
      }
      if routeEmpty {
        return;
      }
      terminalModeActive := true;
      pendingRelay := None;
      terminalWaypointIndex := Some(|relayWaypoints|);
      AppendRelayWaypoint(Waypoint(Terminal, progress, progress));
    }

    /** The queue part of handleDiffPlannerExecution; true if a landing request is published. */
    method HandleDiffPlannerExecution(reached: bool) returns (land: bool)
      modifies this
      ensures Now() == React(old(Now()), Tick(reached), setup)
      ensures land <==> landingRequests == old(landingRequests) + 1
    {
      if activeRelayIndex >= |relayWaypoints| {
        return false;
      }
      var terminalRelay := terminalModeActive && terminalWaypointIndex == Some(activeRelayIndex);
      if !reached {
        return false;
      }
      if terminalRelay {
        if followerLandingRequested {
          return false;
        }
        followerLandingRequested := true;
        landingRequests := landingRequests + 1;
        return true;
      }
      arrived := arrived + [activeRelayIndex];
      activeRelayIndex := activeRelayIndex + 1;
      return false;
    }
  }
}
