/** What the guards of the two-thread rebuild are for: interleavings that do without them. */
module KdRace {
  import opened Geometry
  import opened KdTree
  import opened KdInvariant
  import opened KdLive
  import opened KdStep
  import opened KdExact
  import opened KdRun
  import opened KdBatch
  import opened KdMedian
  import opened KdVoxel
  import opened KdRebuild

  // ----- following a run -----

  /** The calls begun in a run. */
  function Calls(acts: seq<Action>): seq<Call> {
    if acts == [] then [] else With(Calls(acts[..|acts| - 1]), acts[|acts| - 1])
  }

  function With(calls: seq<Call>, a: Action): seq<Call> { if a.Choose? then calls + [a.call] else calls }

  /** Some interleaving leads from `s` to `t` in which the mapping thread begins exactly these calls. */
  ghost predicate Reaches(s: State, t: State, calls: seq<Call>) {
    exists states, acts :: IsRun(states, acts) && states[0] == s && states[|acts|] == t && Calls(acts) == calls
  }

  lemma ReachesSelf(s: State)
    ensures Reaches(s, s, [])
  {
    assert IsRun([s], []) && Calls([]) == [];
  }

  lemma RunsOn(states: seq<State>, acts: seq<Action>, a: Action)
    requires IsRun(states, acts) && Enabled(states[|acts|], a)
    ensures IsRun(states + [Act(states[|acts|], a)], acts + [a]) && Calls(acts + [a]) == With(Calls(acts), a)
  {
    var xs, b := states + [Act(states[|acts|], a)], acts + [a];
    forall i | 0 <= i < |b| ensures Enabled(xs[i], b[i]) && xs[i + 1] == Act(xs[i], b[i]) {
      if i < |acts| { assert xs[i] == states[i] && xs[i + 1] == states[i + 1] && b[i] == acts[i]; }
    }
    assert b[..|b| - 1] == acts;
  }

  lemma Follow(s: State, t: State, calls: seq<Call>, a: Action) returns (u: State)
    requires Reaches(s, t, calls) && Enabled(t, a)
    ensures u == Act(t, a) && Reaches(s, u, With(calls, a))
  {
    var states, acts :| IsRun(states, acts) && states[0] == s && states[|acts|] == t && Calls(acts) == calls;
    u := Act(t, a);
    RunsOn(states, acts, a);
    var xs, b := states + [u], acts + [a];
    assert xs[0] == s && xs[|b|] == u;
  }

  /** A harmless step on the way. */
  lemma FollowSafely(s: State, t: State, calls: seq<Call>, a: Action) returns (u: State)
    requires Reaches(s, t, calls) && Enabled(t, a) && Invisible(t) && Harmless(t, a)
    ensures u == Act(t, a) && Reaches(s, u, With(calls, a)) && Invisible(u)
  {
    u := Follow(s, t, calls, a);
    StepWell(t, a);
    StepMirrors(t, a);
    StepDue(t, a);
  }

  const NOBODY := Searches(0, 0, 0, 0, 0, 0)

  ghost predicate AtRest(s: State, log: seq<Op>) {
    && Invisible(s) && s.phase.Idle? && s.main.Free? && !s.wanted && s.log == log && s.searches == NOBODY
  }

  ghost predicate AtFlatten(s: State, log: seq<Op>) {
    && Invisible(s) && s.phase.Flattening? && s.main.Free? && s.wanted && s.log == log
    && s.searches == NOBODY.(counter := -1) && s.due != multiset{}
  }

  // ----- an add that is logged late -----

  /** The tree that a whole-tree rebuild builds. */
  function Rebuilt(t: Tree, cfg: Config): Tree { BuildTree(Flat(t), cfg) }

  ghost function Asked(s: State, ops: seq<Op>): State
    requires ops != []
  {
    s.(tree := Apply(s.tree, ops[0], true, s.cfg).tree, wanted := true, main := Onward(ops[1..]),
       due := BagStep(s.due, ops[0]))
  }

  lemma MayAsk(s: State, ops: seq<Op>)
    requires s.phase.Idle? && !s.wanted && s.searches == NOBODY
    requires s.main == Direct(ops) && ops != [] && Asks(s.tree, ops[0], s.cfg)
    ensures Enabled(s, StepDirect(true)) && Harmless(s, StepDirect(true)) && Act(s, StepDirect(true)) == Asked(s, ops)
  {
  }

  /** The first operation of an unlocked call asks for a rebuild. */
  lemma AsksFirst(s0: State, s: State, calls: seq<Call>, ops: seq<Op>) returns (u: State)
    requires Reaches(s0, s, calls) && Invisible(s) && s.phase.Idle? && !s.wanted && s.searches == NOBODY
    requires s.main == Direct(ops) && ops != [] && Asks(s.tree, ops[0], s.cfg)
    ensures Reaches(s0, u, calls) && Invisible(u) && u == Asked(s, ops)
  {
    MayAsk(s, ops);
    u := FollowSafely(s0, s, calls, StepDirect(true));
  }

  /** The operation of a call that does not thin. */
  function OnlyOp(call: Call): Op
    requires !call.AddThinned?
  {
    match call case AddPlain(p) => Add(p) case DeleteIn(box) => DeleteBox(box, false)
  }

  /** A call of one operation does so ... */
  lemma AsksAlone(s0: State, s: State, calls: seq<Call>, call: Call) returns (u: State)
    requires Reaches(s0, s, calls) && AtRest(s, s.log) && !call.AddThinned? && Asks(s.tree, OnlyOp(call), s.cfg)
    ensures Reaches(s0, u, calls + [call])
    ensures Invisible(u) && u.phase.Idle? && u.main.Free? && u.wanted && u.searches == NOBODY
    ensures u.log == s.log && u.cfg == s.cfg && u.tree == Apply(s.tree, OnlyOp(call), true, s.cfg).tree
      && u.due == BagStep(s.due, OnlyOp(call))
  {
    u := FollowSafely(s0, s, calls, Choose(call));
    u := AsksFirst(s0, u, calls + [call], [OnlyOp(call)]);
  }

  /** ... and the rebuild thread gets ready to flatten. */
  lemma GetsReady(s0: State, s: State, calls: seq<Call>, call: Call) returns (u: State)
    requires Reaches(s0, s, calls) && AtRest(s, s.log) && !call.AddThinned? && Asks(s.tree, OnlyOp(call), s.cfg)
    requires BagStep(s.due, OnlyOp(call)) != multiset{}
    ensures Reaches(s0, u, calls + [call]) && AtFlatten(u, s.log)
    ensures u.cfg == s.cfg && u.tree == Apply(s.tree, OnlyOp(call), true, s.cfg).tree
      && u.due == BagStep(s.due, OnlyOp(call))
  {
    u := AsksAlone(s0, s, calls, call);
    u := FollowSafely(s0, u, calls + [call], Begin);
    u := FollowSafely(s0, u, calls + [call], Drained);
  }

  lemma FlattensSome(s: State)
    requires Invisible(s) && s.due != multiset{}
    ensures Flat(s.tree) != []
  {
    FlatOk(s.tree);
  }

  lemma Flattens(s0: State, s: State, calls: seq<Call>) returns (u: State)
    requires Reaches(s0, s, calls) && AtFlatten(s, s.log)
    ensures u == Act(s, Flatten) && Reaches(s0, u, calls) && Well(u) && Live(u.tree) == u.due && u.phase.storage != []
    ensures multiset(u.phase.storage) == u.due
  {
    FlattensSome(s);
    FlatOk(s.tree);
    FlattenMirrors(s);
    StepWell(s, Flatten);
    u := Follow(s0, s, calls, Flatten);
  }

  /** The new tree holds what is due, whatever the log says. */
  ghost predicate NewTree(s: State, log: seq<Op>) {
    && Well(s) && s.phase.Replaying? && WF(s.phase.next) && Live(s.phase.next) == Live(s.tree) == s.due
    && s.main.Free? && s.wanted && s.log == log && s.searches == NOBODY
  }

  lemma BuildsNext(s: State)
    requires Well(s) && s.phase.Building? && s.phase.storage != [] && multiset(s.phase.storage) == Live(s.tree) == s.due
    requires s.main.Free? && s.wanted && s.searches == NOBODY
    ensures NewTree(Act(s, Build), s.log)
  {
    BuildOk(s.phase.storage, s.cfg);
    StepWell(s, Build);
  }

  lemma Rebuilds(s0: State, s: State, calls: seq<Call>) returns (u: State)
    requires Reaches(s0, s, calls) && AtFlatten(s, s.log)
    ensures Reaches(s0, u, calls) && NewTree(u, s.log)
    ensures u.phase.next == Rebuilt(s.tree, s.cfg) && u.cfg == s.cfg && u.due == s.due
  {
    var v := Flattens(s0, s, calls);
    BuildsNext(v);
    u := Follow(s0, v, calls, Build);
  }

  /** The swap comes before an add that had chosen the lock. */
  ghost predicate SwappedBefore(s: State, p: Point) {
    && Invisible(s) && s.phase.Finishing? && s.main == Locked([Add(p)]) && !s.wanted && s.log == []
    && s.searches == NOBODY
  }

  lemma SwapsWhileDeciding(s0: State, s: State, calls: seq<Call>, p: Point) returns (u: State)
    requires Reaches(s0, s, calls) && AtFlatten(s, [])
    ensures Reaches(s0, u, calls + [AddPlain(p)]) && SwappedBefore(u, p)
    ensures u.tree == Rebuilt(s.tree, s.cfg) && u.cfg == s.cfg && u.due == s.due
  {
    u := Rebuilds(s0, s, calls);
    u := FollowSafely(s0, u, calls, Choose(AddPlain(p)));
    u := FollowSafely(s0, u, calls + [AddPlain(p)], Next);
    u := FollowSafely(s0, u, calls + [AddPlain(p)], Quiet);
    u := FollowSafely(s0, u, calls + [AddPlain(p)], Swap);
  }

  lemma PerformOne(t: Tree, op: Op, allow: bool, cfg: Config)
    ensures Perform(t, [op], allow, cfg).tree == Apply(t, op, allow, cfg).tree
  {
    assert [op][..0] == [];
  }

  lemma LogsLate(s0: State, s: State, calls: seq<Call>, p: Point) returns (u: State)
    requires Reaches(s0, s, calls) && SwappedBefore(s, p)
    ensures Reaches(s0, u, calls) && AtRest(u, [Add(p)])
    ensures u.tree == Apply(s.tree, Add(p), false, s.cfg).tree && u.cfg == s.cfg && u.due == s.due + multiset{p}
  {
    PerformOne(s.tree, Add(p), false, s.cfg);
    BagRunOne(s.due, Add(p));
    u := FollowSafely(s0, s, calls, StepLocked);
    u := FollowSafely(s0, u, calls, Finish);
    u := FollowSafely(s0, u, calls, Delete);
  }

  lemma TakesStaleOp(s0: State, s: State, calls: seq<Call>, p: Point) returns (u: State)
    requires Reaches(s0, s, calls) && AtFlatten(s, [Add(p)])
    ensures Reaches(s0, u, calls) && u.phase.Running? && u.phase.op == Add(p) && u.log == [] && u.searches == NOBODY
    ensures WF(u.phase.next) && Live(u.phase.next) == u.due == s.due
  {
    u := Rebuilds(s0, s, calls);
    u := Follow(s0, u, calls, Next);
  }

  /** The next rebuild replays what its tree already holds. */
  lemma ReplaysStaleLog(s0: State, s: State, calls: seq<Call>, p: Point) returns (u: State)
    requires Reaches(s0, s, calls) && AtFlatten(s, [Add(p)])
    ensures Reaches(s0, u, calls) && u.phase.Finishing? && u.due == s.due && Live(u.tree) == u.due + multiset{p}
  {
    u := TakesStaleOp(s0, s, calls, p);
    ApplyFollows(u.phase.next, u.phase.op, false, u.cfg);
    u := Follow(s0, u, calls, Replay);
    u := Follow(s0, u, calls, Next);
    u := Follow(s0, u, calls, Quiet);
    u := Follow(s0, u, calls, Swap);
  }

  /** One rebuild later. */
  ghost function AfterRebuild(s: State, first: Op, p: Point): Tree {
    Apply(Rebuilt(Apply(s.tree, first, true, s.cfg).tree, s.cfg), Add(p), false, s.cfg).tree
  }

  lemma RestsWithStaleLog(s: State, first: Call, p: Point) returns (u: State)
    requires Initial(s) && !first.AddThinned? && Asks(s.tree, OnlyOp(first), s.cfg)
    requires BagStep(s.due, OnlyOp(first)) != multiset{}
    ensures Reaches(s, u, [first, AddPlain(p)]) && AtRest(u, [Add(p)])
    ensures u.tree == AfterRebuild(s, OnlyOp(first), p) && u.cfg == s.cfg
      && u.due == BagStep(s.due, OnlyOp(first)) + multiset{p}
  {
    ReachesSelf(s);
    assert [] + [first] == [first] && [first] + [AddPlain(p)] == [first, AddPlain(p)];
    u := GetsReady(s, s, [], first);
    u := SwapsWhileDeciding(s, u, [first], p);
    u := LogsLate(s, u, [first, AddPlain(p)], p);
  }

  lemma RebuildsAgain(s0: State, s: State, calls: seq<Call>, p: Point, second: Call) returns (u: State)
    requires Reaches(s0, s, calls) && AtRest(s, [Add(p)]) && !second.AddThinned?
    requires Asks(s.tree, OnlyOp(second), s.cfg) && BagStep(s.due, OnlyOp(second)) != multiset{}
    ensures Reaches(s0, u, calls + [second]) && u.due == BagStep(s.due, OnlyOp(second))
    ensures Live(u.tree) == u.due + multiset{p}
  {
    u := GetsReady(s0, s, calls, second);
    u := ReplaysStaleLog(s0, u, calls + [second], p);
  }

  /** `first` makes the tree ask for a rebuild; the rebuilt tree, with `p` added under the lock, is
      made to ask for another one by `second`; both leave live points. */
  ghost predicate AsksTwice(s: State, first: Op, p: Point, second: Op) {
    && Asks(s.tree, first, s.cfg) && BagStep(s.due, first) != multiset{}
    && Asks(AfterRebuild(s, first, p), second, s.cfg)
    && BagStep(BagStep(s.due, first) + multiset{p}, second) != multiset{}
  }

  /** Without the first guard: of three calls, the add in the middle is logged between the unlock and the
      clearing of rebuild_flag and replayed by the next rebuild: its point is there once too often. */
  lemma LateLogDuplicates(s: State, first: Call, p: Point, second: Call) returns (u: State)
    requires Initial(s) && !first.AddThinned? && !second.AddThinned?
    requires AsksTwice(s, OnlyOp(first), p, OnlyOp(second))
    ensures Reaches(s, u, [first, AddPlain(p), second])
    ensures u.due == BagStep(BagStep(s.due, OnlyOp(first)) + multiset{p}, OnlyOp(second))
    ensures Live(u.tree) == u.due + multiset{p}
  {
    assert [first, AddPlain(p)] + [second] == [first, AddPlain(p), second];
    u := RestsWithStaleLog(s, first, p);
    u := RebuildsAgain(s, u, [first, AddPlain(p)], p, second);
  }

  // ----- an add that is lost -----

  /** The tree that a thinning, once flattened, is to be finished on. */
  function Halfway(t: Tree, box: Box, cfg: Config): Tree { PushAll(DeleteRange(t, box, true, true, cfg).tree) }

  /** The call is a thinning that deletes and adds `best`; its delete makes the tree ask, and its add
      does not shrink it. */
  ghost predicate AsksInThinning(s: State, call: Call, box: Box, best: Point) {
    && Callable(s.tree, call, s.cfg) && OpsOf(call, s.cfg) == [DeleteBox(box, true), Add(best)]
    && Asks(s.tree, DeleteBox(box, true), s.cfg) && Select(s.due, Outside(box)) != multiset{}
    && StaysLarge(Halfway(s.tree, box, s.cfg), Add(best), s.cfg)
  }

  /** Halfway through: the unlocked delete has asked for a rebuild. */
  lemma AsksInBetween(s: State, call: Call, box: Box, best: Point) returns (u: State)
    requires Initial(s) && AsksInThinning(s, call, box, best)
    ensures Reaches(s, u, [call]) && Invisible(u) && u.phase.Idle? && u.log == [] && u.wanted
    ensures u.main == Direct([Add(best)]) && u.searches == NOBODY && u.due != multiset{}
    ensures u.tree == DeleteRange(s.tree, box, true, true, s.cfg).tree && u.cfg == s.cfg
  {
    var ops := [DeleteBox(box, true), Add(best)];
    assert ops[1..] == [Add(best)] && [] + [call] == [call];
    ReachesSelf(s);
    u := FollowSafely(s, s, [], Choose(call));
    u := AsksFirst(s, u, [call], ops);
  }

  /** The add is still to come, and the tree has been flattened. */
  lemma FlattensInBetween(s: State, call: Call, box: Box, best: Point) returns (u: State)
    requires Initial(s) && AsksInThinning(s, call, box, best)
    ensures Reaches(s, u, [call]) && Invisible(u) && u.phase.Building? && u.phase.storage != [] && u.log == []
    ensures u.main == Direct([Add(best)]) && u.searches == NOBODY
    ensures u.tree == Halfway(s.tree, box, s.cfg) && u.cfg == s.cfg
  {
    u := AsksInBetween(s, call, box, best);
    u := FollowSafely(s, u, [call], Begin);
    u := FollowSafely(s, u, [call], Drained);
    FlattensSome(u);
    u := FollowSafely(s, u, [call], Flatten);
  }

  /** The add then goes into the old tree only. */
  lemma AddsToOldTree(s: State, call: Call, box: Box, best: Point) returns (u: State)
    requires Initial(s) && AsksInThinning(s, call, box, best)
    ensures Reaches(s, u, [call]) && u.phase.Building? && u.phase.storage != [] && u.log == [] && u.searches == NOBODY
    ensures u.due == multiset(u.phase.storage) + multiset{best} && u.main.Free?
  {
    u := FlattensInBetween(s, call, box, best);
    DirectWell(u, false);
    u := Follow(s, u, [call], StepDirect(false));
  }

  /** Without the second guard: a call that thins unlocked has returned, its add came after the flatten,
      and the point it added is lost. */
  lemma UnlockedAddIsLost(s: State, call: Call, box: Box, best: Point) returns (u: State)
    requires Initial(s) && AsksInThinning(s, call, box, best)
    ensures Reaches(s, u, [call]) && u.phase.Finishing? && u.main.Free? && u.due == Live(u.tree) + multiset{best}
  {
    u := AddsToOldTree(s, call, box, best);
    BuildOk(u.phase.storage, u.cfg);
    u := Follow(s, u, [call], Build);
    u := Follow(s, u, [call], Next);
    u := Follow(s, u, [call], Quiet);
    u := Follow(s, u, [call], Swap);
  }
}
