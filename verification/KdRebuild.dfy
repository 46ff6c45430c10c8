/** Rebuilding the whole tree on a second thread: a step of either thread is one action, and every
    interleaving is a list of actions. */
module KdRebuild {
  import opened Geometry
  import opened KdTree
  import opened KdInvariant
  import opened KdLive
  import opened KdStep
  import opened KdOrder
  import opened KdExact
  import opened KdQuery
  import opened KdRun
  import opened KdVoxel
  import opened KdBatch

  /** Where the rebuild thread stands. */
  datatype Phase =
    | Idle
    | Draining                            // rebuild_flag set, waiting for searches to leave
    | Flattening                          // search_mutex_counter == -1
    | Building(storage: seq<Point>)
    | Replaying(next: Tree)               // about to look at the log
    | Running(next: Tree, op: Op)         // one operation taken from the log
    | Waiting(next: Tree)                 // log found empty, waiting for searches to leave
    | Swapping(next: Tree)                // search_mutex_counter == -1
    | Finishing                           // working_flag_mutex released, rebuild_flag still set
    | Freeing                             // deleting the retired tree

  /** Where the mapping thread stands: it reads Rebuild_Ptr once, then works through the operations
      of a call directly, or all together under working_flag_mutex. */
  datatype Main = Free | Direct(ops: seq<Op>) | Locked(ops: seq<Op>)

  /** `deciding`: about to be counted; `counted`, `plain`: inside Search with and without having been
      counted; `...Old`: those still holding a root that has been swapped out. */
  datatype Searches = Searches(counter: int, deciding: nat, counted: nat, countedOld: nat, plain: nat, plainOld: nat)

  /** `wanted` is Rebuild_Ptr == &Root_Node, `flag` rebuild_flag, `log` Rebuild_Logger; `due` is
      what the operations of the mapping thread would have made of a plain bag. */
  datatype State = State(tree: Tree, wanted: bool, flag: bool, log: seq<Op>, phase: Phase, main: Main,
                         searches: Searches, due: Bag, cfg: Config)

  /** What the mapping thread does between two looks at Rebuild_Ptr: one point of Add_Points, with what
      it has found in its voxel if it downsamples, or one box of Delete_Point_Boxes. */
  datatype Call = AddPlain(point: Point) | AddThinned(point: Point, found: seq<Point>) | DeleteIn(box: Box)

  datatype Action =
    | Choose(call: Call)
    | StepDirect(request: bool)
    | StepLocked
    | Look(after: Tree)                   // some query pushes marks down
    | Begin | Drained | Flatten | Build | Next | Replay | Quiet | Swap | Finish | Delete
    | Decide | Enter | Leave(retired: bool) | LeavePlain(retired: bool)

  /** The rebuild thread holds working_flag_mutex. */
  predicate Held(p: Phase) { p.Draining? || p.Flattening? || p.Waiting? || p.Swapping? }

  /** The flattened points are on their way into a new tree. */
  predicate Underway(p: Phase) { p.Building? || p.Replaying? || p.Running? || p.Waiting? || p.Swapping? }

  /** The operation gets as far as the rebuild check of the root. */
  predicate GetsToRoot(t: Tree, op: Op) {
    match op
    case Add(_) => t.Node?
    case DeleteBox(box, _) => Splits(t, box)
    case _ => false
  }

  /** ... and finds a tree there that is out of shape and too large to be rebuilt in place. */
  ghost predicate Asks(t: Tree, op: Op, cfg: Config) {
    var r := Apply(t, op, true, cfg).tree;
    && GetsToRoot(t, op) && r.Node? && r.size == 1 + Size(r.left) + Size(r.right)
    && r.size >= MULTI_THREAD_REBUILD_POINT_NUM && Criterion(r, cfg)
  }

  /** A tree that Rebuild_Ptr points to must not shrink: the source would take the request back. */
  ghost predicate StaysLarge(t: Tree, op: Op, cfg: Config) {
    Size(Apply(t, op, true, cfg).tree) >= MULTI_THREAD_REBUILD_POINT_NUM
  }

  /** `request`: the operation asked, and got rebuild_ptr_mutex_lock. */
  ghost predicate DirectEnabled(s: State, request: bool) {
    && s.main.Direct? && s.main.ops != []
    && (request ==> s.phase.Idle? && s.searches.plain == 0 && Asks(s.tree, s.main.ops[0], s.cfg))
    && (s.wanted ==> StaysLarge(s.tree, s.main.ops[0], s.cfg))
  }

  function OpsOf(call: Call, cfg: Config): seq<Op> {
    match call
    case AddPlain(p) => [Add(p)]
    case AddThinned(p, found) => if cfg.voxel > 0.0 then ThinOps(p, found, VoxelOf(p, cfg.voxel)) else []
    case DeleteIn(box) => [DeleteBox(box, false)]
  }

  /** What is found in the voxel is what is live there. */
  ghost predicate Callable(t: Tree, call: Call, cfg: Config) {
    call.AddThinned? ==>
      cfg.voxel > 0.0 && multiset(call.found) == Select(Live(t), Inside(VoxelOf(call.point, cfg.voxel)))
  }

  lemma CallsAreBoxy(call: Call, cfg: Config)
    ensures Boxy(OpsOf(call, cfg))
  {
  }

  ghost predicate Enabled(s: State, a: Action) {
    match a
    case Choose(call) => s.main.Free? && Callable(s.tree, call, s.cfg)
    case StepDirect(request) => DirectEnabled(s, request)
    case StepLocked => s.main.Locked? && !Held(s.phase)
    case Look(u) => Pushed(s.tree, u)
    case Begin => s.phase.Idle? && s.wanted
    case Drained => s.phase.Draining? && s.searches.counter == 0
    case Flatten => s.phase.Flattening?
    case Build => s.phase.Building? && s.phase.storage != []
    case Next => s.phase.Replaying?
    case Replay => s.phase.Running?
    case Quiet => s.phase.Waiting? && s.searches.counter == 0
    case Swap => s.phase.Swapping?
    case Finish => s.phase.Finishing?
    case Delete => s.phase.Freeing?
    case Decide => true
    case Enter => s.searches.deciding > 0 && s.searches.counter != -1
    case Leave(retired) =>
      && s.searches.counted > 0
      && if retired then s.searches.countedOld > 0 else s.searches.counted > s.searches.countedOld
    case LeavePlain(retired) =>
      && s.searches.plain > 0
      && if retired then s.searches.plainOld > 0 else s.searches.plain > s.searches.plainOld
  }

  /** The mapping thread has got through `ops`; `rest` are still to do. */
  function Onward(rest: seq<Op>): Main { if rest == [] then Free else Direct(rest) }

  /** Without an operation there is nothing to do. */
  function Begun(ops: seq<Op>, wanted: bool): Main { if wanted && ops != [] then Locked(ops) else Onward(ops) }

  ghost function DoDirect(s: State, request: bool): State
    requires s.main.Direct? && s.main.ops != []
  {
    var op := s.main.ops[0];
    s.(tree := Apply(s.tree, op, true, s.cfg).tree, wanted := s.wanted || request,
       main := Onward(s.main.ops[1..]), due := BagStep(s.due, op))
  }

  ghost function DoLocked(s: State): State
    requires s.main.Locked?
  {
    s.(tree := Perform(s.tree, s.main.ops, false, s.cfg).tree, main := Free,
       log := if s.flag then s.log + s.main.ops else s.log, due := BagRun(s.due, s.main.ops))
  }

  /** Everyone still inside Search holds the root that is swapped out. */
  function Retire(q: Searches): Searches {
    Searches(0, q.deciding, q.counted, q.countedOld + q.counted, q.plain, q.plainOld + q.plain)
  }

  ghost function Act(s: State, a: Action): State
    requires Enabled(s, a)
  {
    var q := s.searches;
    match a
    case Choose(call) => s.(main := Begun(OpsOf(call, s.cfg), s.wanted))
    case StepDirect(request) => DoDirect(s, request)
    case StepLocked => DoLocked(s)
    case Look(u) => s.(tree := u)
    case Begin => s.(phase := Draining, flag := true)
    case Drained => s.(phase := Flattening, searches := q.(counter := -1))
    case Flatten => s.(phase := Building(Flat(s.tree)), tree := PushAll(s.tree), searches := q.(counter := 0))
    case Build => s.(phase := Replaying(BuildTree(s.phase.storage, s.cfg)))
    case Next =>
      if s.log == [] then s.(phase := Waiting(s.phase.next))
      else s.(phase := Running(s.phase.next, s.log[0]), log := s.log[1..])
    case Replay => s.(phase := Replaying(Apply(s.phase.next, s.phase.op, false, s.cfg).tree))
    case Quiet => s.(phase := Swapping(s.phase.next), searches := q.(counter := -1))
    case Swap => s.(phase := Finishing, tree := s.phase.next, wanted := false, searches := Retire(q))
    case Finish => s.(phase := Freeing, flag := false)
    case Delete => s.(phase := Idle)
    case Decide => s.(searches := if s.wanted then q.(deciding := q.deciding + 1) else q.(plain := q.plain + 1))
    case Enter => s.(searches := q.(deciding := q.deciding - 1, counter := q.counter + 1, counted := q.counted + 1))
    case Leave(retired) =>
      s.(searches := q.(counter := q.counter - 1, counted := q.counted - 1,
                        countedOld := if retired then q.countedOld - 1 else q.countedOld))
    case LeavePlain(retired) =>
      s.(searches := q.(plain := q.plain - 1,
                        plainOld := if retired then q.plainOld - 1 else q.plainOld))
  }

  // ----- searches -----

  /** Rebuild_Ptr is set from the request until the swap. */
  predicate Committed(p: Phase) { p.Draining? || p.Flattening? || Underway(p) }

  /** search_mutex_counter is -1 exactly while the rebuild thread flattens or swaps, and else the
      number of counted searches; nobody holds a root that was swapped out. */
  predicate Watched(s: State) {
    var q := s.searches;
    && q.counter == (if s.phase.Flattening? || s.phase.Swapping? then -1 else q.counted)
    && (s.phase.Flattening? || s.phase.Swapping? ==> q.counted == 0)
    && q.countedOld == 0 && q.plainOld == 0
    && (Committed(s.phase) ==> s.wanted)
    && (s.wanted ==> q.plain == 0)
  }

  lemma StepWatched(s: State, a: Action)
    requires Enabled(s, a) && Watched(s)
    ensures Watched(Act(s, a))
  {
  }

  // ----- live points -----

  /** The bag that the new tree will hold once the operation in flight and the log are replayed. */
  ghost function Image(s: State): Bag {
    match s.phase
    case Building(storage) => BagRun(multiset(storage), s.log)
    case Replaying(n) => BagRun(Live(n), s.log)
    case Running(n, op) => BagRun(BagStep(Live(n), op), s.log)
    case Waiting(n) => Live(n)
    case Swapping(n) => Live(n)
    case _ => Live(s.tree)
  }

  ghost predicate NextOk(p: Phase) {
    match p
    case Replaying(n) => WF(n)
    case Running(n, op) => WF(n) && !op.DeleteOne?
    case Waiting(n) => WF(n)
    case Swapping(n) => WF(n)
    case _ => true
  }

  ghost predicate Well(s: State) {
    && WF(s.tree) && NextOk(s.phase) && Boxy(s.log)
    && (s.main.Free? || Boxy(s.main.ops))
    && (s.flag <==> !s.phase.Idle? && !s.phase.Freeing?)
    && (s.phase.Waiting? || s.phase.Swapping? ==> s.log == [])
  }

  /** The two trees agree: what the old one holds is what the new one will hold. */
  ghost predicate Mirrors(s: State) { Live(s.tree) == Image(s) }

  /** Some box of the log holds `q`. */
  predicate Hit(log: seq<Op>, q: Point) {
    exists i :: 0 <= i < |log| && log[i].DeleteBox? && InBox(log[i].box, q)
  }

  /** How often the log adds `q` after the last of its boxes that holds `q`. */
  function PutBack(log: seq<Op>, q: Point): nat {
    if log == [] then 0
    else
      var op, before := log[|log| - 1], PutBack(log[..|log| - 1], q);
      match op
      case Add(p) => before + Bit(p == q)
      case DeleteBox(box, _) => if InBox(box, q) then 0 else before
      case _ => before
  }

  /** Read off the log: a point in one of its boxes is put back as often as it was there, and no
      other point is added. */
  ghost predicate LeavesAlone(log: seq<Op>, m: Bag) {
    forall q: Point :: PutBack(log, q) == if Hit(log, q) then m[q] else 0
  }

  /** The guards that the source leaves open: a log that is not empty at flatten time, and an
      operation performed without the lock while a new tree is under way. */
  ghost predicate Harmless(s: State, a: Action)
    requires Enabled(s, a)
  {
    match a
    case Flatten => LeavesAlone(s.log, Live(s.tree))
    case StepDirect(_) => Underway(s.phase) ==> LeavesAlone([s.main.ops[0]], Live(s.tree))
    case _ => true
  }

  lemma HitLast(log: seq<Op>, q: Point)
    requires log != []
    ensures var op := log[|log| - 1];
      Hit(log, q) <==> Hit(log[..|log| - 1], q) || (op.DeleteBox? && InBox(op.box, q))
  {
    var front := log[..|log| - 1];
    if Hit(front, q) {
      var i :| 0 <= i < |front| && front[i].DeleteBox? && InBox(front[i].box, q);
      assert log[i] == front[i];
    }
    if Hit(log, q) && !(log[|log| - 1].DeleteBox? && InBox(log[|log| - 1].box, q)) {
      var i :| 0 <= i < |log| && log[i].DeleteBox? && InBox(log[i].box, q);
      assert front[i] == log[i];
    }
  }

  /** What a log makes of a bag, point by point. */
  lemma {:induction false} RunAt(m: Bag, log: seq<Op>, q: Point)
    ensures BagRun(m, log)[q] == (if Hit(log, q) then 0 else m[q]) + PutBack(log, q)
    decreases |log|
  {
    if log != [] {
      RunAt(m, log[..|log| - 1], q);
      HitLast(log, q);
    }
  }

  /** The condition on the log is exact. */
  lemma LeavesAloneIff(m: Bag, log: seq<Op>)
    ensures BagRun(m, log) == m <==> LeavesAlone(log, m)
  {
    forall q: Point ensures PutBack(log, q) == (if Hit(log, q) then m[q] else 0) <==> BagRun(m, log)[q] == m[q] {
      RunAt(m, log, q);
    }
    if LeavesAlone(log, m) {
      assert forall q :: BagRun(m, log)[q] == m[q];
    }
  }

  lemma BagRunOne(m: Bag, op: Op)
    ensures BagRun(m, [op]) == BagStep(m, op)
  {
    assert [op][..0] == [];
  }

  /** One operation: an add never leaves the points alone, a box delete does if and only if none is in the box. */
  lemma OneLeavesAlone(m: Bag, op: Op)
    ensures LeavesAlone([op], m) <==>
      match op case Add(_) => false case DeleteBox(box, _) => (forall q | q in m :: !InBox(box, q)) case _ => true
  {
    BagRunOne(m, op);
    LeavesAloneIff(m, [op]);
    match op
    case Add(p) => assert (m + multiset{p})[p] == m[p] + 1;
    case DeleteBox(box, _) =>
      if q :| q in m && InBox(box, q) { assert Select(m, Outside(box))[q] == 0; }
    case _ =>
  }

  /** A thinning: if and only if the point it adds is all there was in the voxel. */
  lemma ThinningLeavesAlone(m: Bag, box: Box, p: Point)
    ensures LeavesAlone([DeleteBox(box, true), Add(p)], m) <==> Select(m, Inside(box)) == multiset{p}
  {
    var ops := [DeleteBox(box, true), Add(p)];
    assert ops[..1] == [DeleteBox(box, true)];
    BagRunOne(m, DeleteBox(box, true));
    assert BagRun(m, ops) == Select(m, Outside(box)) + multiset{p};
    LeavesAloneIff(m, ops);
    SelectSplit(m, box);
    Cancel(Select(m, Outside(box)), multiset{p}, Select(m, Inside(box)));
  }

  lemma Cancel(a: Bag, b: Bag, c: Bag)
    ensures a + b == c + a <==> b == c
  {
    assert forall q :: (a + b)[q] == a[q] + b[q] && (c + a)[q] == c[q] + a[q];
    if a + b == c + a { assert forall q :: b[q] == c[q]; }
  }

  lemma {:induction false} RunSplit(m: Bag, a: seq<Op>, b: seq<Op>)
    ensures BagRun(m, a + b) == BagRun(BagRun(m, a), b)
    decreases |b|
  {
    if b == [] {
      assert a + b == a;
    } else {
      var front := b[..|b| - 1];
      RunSplit(m, a, front);
      assert (a + b)[..|a + b| - 1] == a + front;
    }
  }

  lemma RunFirst(m: Bag, ops: seq<Op>)
    requires ops != []
    ensures BagRun(m, ops) == BagRun(BagStep(m, ops[0]), ops[1..])
  {
    RunSplit(m, [ops[0]], ops[1..]);
    assert [ops[0]] + ops[1..] == ops;
    assert [ops[0]][..0] == [];
    assert BagRun(m, [ops[0]]) == BagStep(m, ops[0]);
  }

  lemma DirectWell(s: State, request: bool)
    requires Enabled(s, StepDirect(request)) && Well(s)
    ensures var r := DoDirect(s, request); Well(r) && Live(r.tree) == BagStep(Live(s.tree), s.main.ops[0])
  {
    ApplyFollows(s.tree, s.main.ops[0], true, s.cfg);
  }

  lemma LockedWell(s: State)
    requires Enabled(s, StepLocked) && Well(s)
    ensures var r := DoLocked(s); Well(r) && Live(r.tree) == BagRun(Live(s.tree), s.main.ops)
  {
    PerformFollows(s.tree, s.main.ops, false, s.cfg);
  }

  /** The bookkeeping of a step, apart from the live points. */
  lemma StepWell(s: State, a: Action)
    requires Enabled(s, a) && Well(s)
    ensures Well(Act(s, a))
  {
    match a
    case Choose(call) => CallsAreBoxy(call, s.cfg);
    case StepDirect(request) => DirectWell(s, request);
    case StepLocked => LockedWell(s);
    case Look(u) => PushedOk(s.tree, u);
    case Flatten =>
      PushAllPushed(s.tree);
      PushedOk(s.tree, PushAll(s.tree));
    case Build => BuildOk(s.phase.storage, s.cfg);
    case Replay => ApplyFollows(s.phase.next, s.phase.op, false, s.cfg);
    case _ =>
  }

  /** The step keeps the agreement and does not touch the live points. */
  ghost predicate Silent(s: State, a: Action)
    requires Enabled(s, a)
  {
    Mirrors(Act(s, a)) && Live(Act(s, a).tree) == Live(s.tree)
  }

  lemma BuildMirrors(s: State)
    requires Enabled(s, Build) && Well(s) && Mirrors(s)
    ensures Silent(s, Build)
  {
    BuildOk(s.phase.storage, s.cfg);
  }

  lemma FirstLogged(m: Bag, log: seq<Op>)
    requires log != [] && Boxy(log)
    ensures BagRun(BagStep(m, log[0]), log[1..]) == BagRun(m, log) && Boxy(log[1..]) && !log[0].DeleteOne?
  {
    RunFirst(m, log);
  }

  lemma ImageTakes(s: State, n: Tree)
    requires s.phase == Replaying(n) && Boxy(s.log) && s.log != []
    ensures Image(s.(phase := Running(n, s.log[0]), log := s.log[1..])) == Image(s)
  {
    FirstLogged(Live(n), s.log);
  }

  lemma NextTakes(s: State)
    requires Enabled(s, Next) && Well(s) && s.log != []
    ensures Image(Act(s, Next)) == Image(s)
  {
    ImageTakes(s, s.phase.next);
  }

  lemma NextStops(s: State)
    requires Enabled(s, Next) && s.log == []
    ensures Image(Act(s, Next)) == Image(s)
  {
  }

  lemma NextMirrors(s: State)
    requires Enabled(s, Next) && Well(s) && Mirrors(s)
    ensures Silent(s, Next)
  {
    assert Image(Act(s, Next)) == Image(s) by {
      if s.log != [] { NextTakes(s); } else { NextStops(s); }
    }
  }

  lemma ReplayImage(s: State, next: Tree, op: Op, n: Tree)
    requires s.phase == Running(next, op) && Live(n) == BagStep(Live(next), op)
    ensures Image(s.(phase := Replaying(n))) == BagRun(Live(n), s.log) == Image(s)
  {
  }

  lemma ReplayMirrors(s: State)
    requires Enabled(s, Replay) && Well(s) && Mirrors(s)
    ensures Silent(s, Replay)
  {
    ApplyFollows(s.phase.next, s.phase.op, false, s.cfg);
    ReplayImage(s, s.phase.next, s.phase.op, Apply(s.phase.next, s.phase.op, false, s.cfg).tree);
  }

  /** No other step of the rebuild thread touches a tree: the swap installs an equal bag. */
  lemma RebuildMirrors(s: State, a: Action)
    requires Enabled(s, a) && Well(s) && Mirrors(s)
    requires a.Build? || a.Next? || a.Replay? || a.Quiet? || a.Swap? || a.Begin? || a.Drained? || a.Finish? || a.Delete?
    ensures Silent(s, a)
  {
    match a
    case Build => BuildMirrors(s);
    case Next => NextMirrors(s);
    case Replay => ReplayMirrors(s);
    case _ =>
  }

  lemma FlattenMirrors(s: State)
    requires Enabled(s, Flatten) && Well(s)
    ensures var r := Act(s, Flatten);
      Live(r.tree) == Live(s.tree) && (Mirrors(r) <==> Harmless(s, Flatten))
  {
    FlatOk(s.tree);
    PushAllPushed(s.tree);
    PushedOk(s.tree, PushAll(s.tree));
    LeavesAloneIff(Live(s.tree), s.log);
  }

  lemma DirectMirrors(s: State, request: bool)
    requires Enabled(s, StepDirect(request)) && Well(s) && Mirrors(s)
    ensures Mirrors(Act(s, StepDirect(request))) <==> Harmless(s, StepDirect(request))
  {
    DirectWell(s, request);
    BagRunOne(Live(s.tree), s.main.ops[0]);
    LeavesAloneIff(Live(s.tree), [s.main.ops[0]]);
  }

  /** While a new tree is under way an unlocked add always breaks the agreement, and an unlocked box
      delete breaks it if and only if a live point lies in the box. */
  lemma UnlockedOpIff(s: State, request: bool)
    requires Enabled(s, StepDirect(request)) && Well(s) && Mirrors(s) && Underway(s.phase)
    ensures Mirrors(Act(s, StepDirect(request))) <==>
      match s.main.ops[0]
      case Add(_) => false
      case DeleteBox(box, _) => (forall q | q in Live(s.tree) :: !InBox(box, q))
      case _ => true
  {
    DirectMirrors(s, request);
    OneLeavesAlone(Live(s.tree), s.main.ops[0]);
  }

  /** A flatten that finds a stale log: of one plain add it always breaks the agreement, of one box
      delete if and only if a live point lies in the box, of one thinning unless the point it adds
      is all that is live in the voxel. */
  lemma StaleLogIff(s: State)
    requires Enabled(s, Flatten) && Well(s)
    ensures |s.log| == 1 ==>
      (Mirrors(Act(s, Flatten)) <==>
        match s.log[0]
        case Add(_) => false
        case DeleteBox(box, _) => (forall q | q in Live(s.tree) :: !InBox(box, q))
        case _ => true)
    ensures forall box, p | s.log == [DeleteBox(box, true), Add(p)] ::
      Mirrors(Act(s, Flatten)) <==> Select(Live(s.tree), Inside(box)) == multiset{p}
  {
    FlattenMirrors(s);
    if |s.log| == 1 {
      assert s.log == [s.log[0]];
      OneLeavesAlone(Live(s.tree), s.log[0]);
    }
    forall box, p | s.log == [DeleteBox(box, true), Add(p)]
      ensures LeavesAlone(s.log, Live(s.tree)) <==> Select(Live(s.tree), Inside(box)) == multiset{p}
    {
      ThinningLeavesAlone(Live(s.tree), box, p);
    }
  }

  lemma LockedMirrors(s: State)
    requires Enabled(s, StepLocked) && Well(s) && Mirrors(s)
    ensures Mirrors(Act(s, StepLocked))
  {
    LockedWell(s);
    match s.phase
    case Building(storage) => RunSplit(multiset(storage), s.log, s.main.ops);
    case Replaying(n) => RunSplit(Live(n), s.log, s.main.ops);
    case Running(n, op) => RunSplit(BagStep(Live(n), op), s.log, s.main.ops);
    case _ =>
  }

  /** A step keeps the two trees in agreement exactly when it is harmless. */
  lemma StepMirrors(s: State, a: Action)
    requires Enabled(s, a) && Well(s) && Mirrors(s)
    ensures Mirrors(Act(s, a)) <==> Harmless(s, a)
  {
    match a
    case StepDirect(request) => DirectMirrors(s, request);
    case StepLocked => LockedMirrors(s);
    case Look(u) => PushedOk(s.tree, u);
    case Flatten => FlattenMirrors(s);
    case Choose(_) =>
    case Decide =>
    case Enter =>
    case Leave(_) =>
    case LeavePlain(_) =>
    case _ => RebuildMirrors(s, a);
  }

  /** As long as the trees agree, the live points are those due. */
  lemma StepDue(s: State, a: Action)
    requires Enabled(s, a) && Well(s) && Mirrors(s) && Live(s.tree) == s.due
    ensures var r := Act(s, a); Live(r.tree) == r.due
  {
    match a
    case StepDirect(request) => DirectWell(s, request);
    case StepLocked => LockedWell(s);
    case Look(u) => PushedOk(s.tree, u);
    case Flatten => FlattenMirrors(s);
    case Choose(_) =>
    case Decide =>
    case Enter =>
    case Leave(_) =>
    case LeavePlain(_) =>
    case _ => RebuildMirrors(s, a);
  }

  // ----- whole runs -----

  /** Any interleaving: a list of states linked by enabled actions. */
  ghost predicate IsRun(states: seq<State>, acts: seq<Action>) {
    && |states| == |acts| + 1
    && forall i | 0 <= i < |acts| :: Enabled(states[i], acts[i]) && states[i + 1] == Act(states[i], acts[i])
  }

  ghost predicate Initial(s: State) {
    && WF(s.tree) && !s.wanted && !s.flag && s.log == [] && s.phase.Idle? && s.main.Free?
    && s.searches == Searches(0, 0, 0, 0, 0, 0) && s.due == Live(s.tree)
  }

  /** In every run, and without any guard: no search walks the tree while it is flattened or
      swapped, and none holds a root that was swapped out, so the old tree may be deleted. */
  lemma {:induction false} SearchIsSafe(states: seq<State>, acts: seq<Action>, i: nat)
    requires IsRun(states, acts) && Initial(states[0]) && i < |states|
    ensures Watched(states[i])
    ensures var s := states[i];
      s.phase.Flattening? || s.phase.Swapping? ==> s.searches.counted == 0 && s.searches.plain == 0
  {
    if i > 0 {
      SearchIsSafe(states, acts, i - 1);
      StepWatched(states[i - 1], acts[i - 1]);
    }
  }

  /** A tree with a root, exact ranges and every point on its side. */
  ghost predicate Upright(t: Tree) { t.Node? && WF(t) && Exact(t) && Ordered(t) }

  ghost predicate NextUpright(p: Phase) {
    match p
    case Replaying(n) => Upright(n)
    case Running(n, _) => Upright(n)
    case Waiting(n) => Upright(n)
    case Swapping(n) => Upright(n)
    case _ => true
  }

  lemma ApplyUpright(t: Tree, op: Op, allow: bool, cfg: Config)
    requires Upright(t) && !op.DeleteOne?
    ensures Upright(Apply(t, op, allow, cfg).tree)
  {
    ApplyFollows(t, op, allow, cfg);
    ApplyExact(t, op, allow, cfg);
    match op
    case Add(p) => AddOrdered(t, p, allow, t.axis, cfg);
    case DeleteBox(box, downsample) => DeleteOrdered(t, box, allow, downsample, cfg);
    case Acquire =>
    case Query(u) => if Pushed(t, u) { PushedOrdered(t, u); }
  }

  lemma {:induction false} PerformUpright(t: Tree, ops: seq<Op>, allow: bool, cfg: Config)
    requires Upright(t) && Boxy(ops)
    ensures Upright(Perform(t, ops, allow, cfg).tree)
    decreases |ops|
  {
    if ops != [] {
      PerformUpright(t, ops[..|ops| - 1], allow, cfg);
      ApplyUpright(Perform(t, ops[..|ops| - 1], allow, cfg).tree, ops[|ops| - 1], allow, cfg);
    }
  }

  lemma PushedUpright(t: Tree, u: Tree)
    requires Upright(t) && Pushed(t, u)
    ensures Upright(u)
  {
    PushedOk(t, u);
    PushedExact(t, u);
    PushedOrdered(t, u);
  }

  lemma BuildUpright(storage: seq<Point>, cfg: Config)
    requires storage != []
    ensures Upright(BuildTree(storage, cfg))
  {
    BuildOk(storage, cfg);
    BuildExact(storage, cfg);
    BuildOrdered(storage, cfg);
  }

  lemma StepUpright(s: State, a: Action)
    requires Enabled(s, a) && Well(s) && Upright(s.tree) && NextUpright(s.phase)
    ensures var r := Act(s, a); Upright(r.tree) && NextUpright(r.phase)
  {
    match a
    case StepDirect(_) => ApplyUpright(s.tree, s.main.ops[0], true, s.cfg);
    case StepLocked => PerformUpright(s.tree, s.main.ops, false, s.cfg);
    case Look(u) => PushedUpright(s.tree, u);
    case Flatten =>
      PushAllPushed(s.tree);
      PushedUpright(s.tree, PushAll(s.tree));
    case Build => BuildUpright(s.phase.storage, s.cfg);
    case Replay => ApplyUpright(s.phase.next, s.phase.op, false, s.cfg);
    case _ =>
  }

  /** In every run from an upright tree, guarded or not, the tree and the one under way stay upright:
      there is always a root to read, and ranges are exact. */
  lemma {:induction false} RunsStayUpright(states: seq<State>, acts: seq<Action>, i: nat)
    requires IsRun(states, acts) && Initial(states[0]) && Upright(states[0].tree) && i < |states|
    ensures Well(states[i]) && Upright(states[i].tree) && NextUpright(states[i].phase)
  {
    if i > 0 {
      RunsStayUpright(states, acts, i - 1);
      StepWell(states[i - 1], acts[i - 1]);
      StepUpright(states[i - 1], acts[i - 1]);
    }
  }

  ghost predicate Invisible(s: State) { Well(s) && Mirrors(s) && Live(s.tree) == s.due }

  /** The rebuild is invisible in every run of harmless steps. */
  lemma {:induction false} RebuildInvisible(states: seq<State>, acts: seq<Action>, i: nat)
    requires IsRun(states, acts) && Initial(states[0]) && i < |states|
    requires forall j | 0 <= j < i :: Harmless(states[j], acts[j])
    ensures Invisible(states[i])
  {
    if i > 0 {
      RebuildInvisible(states, acts, i - 1);
      StepWell(states[i - 1], acts[i - 1]);
      StepMirrors(states[i - 1], acts[i - 1]);
      StepDue(states[i - 1], acts[i - 1]);
    }
  }

  /** What the interleaving has to avoid: an operation logged after the swap but before rebuild_flag
      is cleared, and an unlocked operation while a new tree is under way. */
  ghost predicate Guarded(s: State, a: Action) {
    && (a.StepLocked? ==> !s.phase.Finishing?)
    && (a.StepDirect? ==> !Underway(s.phase))
  }

  /** Operations are being collected for the new tree. */
  predicate Collecting(p: Phase) { p.Building? || p.Replaying? || p.Running? }

  /** The log is empty outside a rebuild, as the source's own check at the start of one expects. */
  predicate LogClear(s: State) {
    (s.flag <==> !s.phase.Idle? && !s.phase.Freeing?)
    && (Collecting(s.phase) || s.log == [])
  }

  lemma StepKeepsLogClear(s: State, a: Action)
    requires Enabled(s, a) && LogClear(s) && Guarded(s, a)
    ensures LogClear(Act(s, a))
  {
  }

  lemma GuardedIsHarmless(s: State, a: Action)
    requires Enabled(s, a) && LogClear(s) && Guarded(s, a)
    ensures Harmless(s, a)
  {
  }

  lemma {:induction false} LogIsClear(states: seq<State>, acts: seq<Action>, i: nat)
    requires IsRun(states, acts) && Initial(states[0]) && i < |states|
    requires forall j | 0 <= j < i :: Guarded(states[j], acts[j])
    ensures LogClear(states[i])
  {
    if i > 0 {
      LogIsClear(states, acts, i - 1);
      StepKeepsLogClear(states[i - 1], acts[i - 1]);
    }
  }

  /** In every guarded interleaving of adds, box deletes, queries and rebuilds, the live points are
      exactly those due, and a swap changes none of them. */
  lemma GuardedRunsAreInvisible(states: seq<State>, acts: seq<Action>, i: nat)
    requires IsRun(states, acts) && Initial(states[0]) && i < |states|
    requires forall j | 0 <= j < i :: Guarded(states[j], acts[j])
    ensures Invisible(states[i])
  {
    forall j | 0 <= j < i ensures Harmless(states[j], acts[j]) {
      LogIsClear(states, acts, j);
      GuardedIsHarmless(states[j], acts[j]);
    }
    RebuildInvisible(states, acts, i);
  }

  /** A call that performs one operation only never finds itself unlocked in a rebuild. */
  ghost predicate OneAtATime(s: State) {
    s.main.Direct? ==> |s.main.ops| <= 1 && (s.main.ops != [] ==> !s.wanted)
  }

  lemma StepOneAtATime(s: State, a: Action)
    requires Enabled(s, a) && OneAtATime(s) && (a.Choose? ==> |OpsOf(a.call, s.cfg)| <= 1)
    ensures OneAtATime(Act(s, a))
  {
  }

  lemma {:induction false} PlainCalls(states: seq<State>, acts: seq<Action>, i: nat)
    requires IsRun(states, acts) && Initial(states[0]) && i < |states|
    requires forall j | 0 <= j < i :: acts[j].Choose? ==> |OpsOf(acts[j].call, states[j].cfg)| <= 1
    ensures OneAtATime(states[i]) && Watched(states[i])
  {
    if i > 0 {
      PlainCalls(states, acts, i - 1);
      StepOneAtATime(states[i - 1], acts[i - 1]);
      StepWatched(states[i - 1], acts[i - 1]);
    }
  }

  /** Plain adds and box deletes: the rebuild is invisible as soon as swap, unlock and the clearing
      of rebuild_flag count as one step. */
  lemma PlainRunsAreInvisible(states: seq<State>, acts: seq<Action>, i: nat)
    requires IsRun(states, acts) && Initial(states[0]) && i < |states|
    requires forall j | 0 <= j < i :: acts[j].Choose? ==> |OpsOf(acts[j].call, states[j].cfg)| <= 1
    requires forall j | 0 <= j < i :: acts[j].StepLocked? ==> !states[j].phase.Finishing?
    ensures Invisible(states[i])
  {
    forall j | 0 <= j < i ensures Guarded(states[j], acts[j]) { PlainCalls(states, acts, j); }
    GuardedRunsAreInvisible(states, acts, i);
  }
}
