# Proofs about the mapping tree, the leader/follower relay and the velocity shaper

A Dafny model of three parts of the repository, and proofs about it. `dafny verify dfyconfig.toml`
checks the whole project.

**The incremental k-d tree** (`ikd_Tree.cpp`, `ikd_Tree.h`). A point index that deletes lazily, keeps
boxes and counters incrementally, rebuilds subtrees when they get unbalanced and rebuilds itself as a
whole on a second thread. The model has two layers. `KdTree` gives every operation as a function on a
tree value, branch by branch, with pending pushes, marks, ranges and counters. `KdNode` and `KdMap`
are the linked nodes and the `KD_TREE` object, changed in place; each method is proved to do to the
nodes what the function of the same name does to the value they stand for. The invariant is in
`KdInvariant`: a push flag over an existing child either carries a deletion or is a stale flag over a
leaf added later; ranges enclose the live points, and are exact in runs without `Delete_by_point`.
What the operations mean for a plain bag of points is in `KdLive`; order and conservation in `KdOrder`,
exact ranges in `KdExact`, balance in `KdBalance`, whole runs in `KdRun`, single deletions in `KdErase`,
queries in `KdQuery`, Euclidean distance in `Norm`; `KdLean` has the share of deleted points and the
division axes, `KdRecord` what reaches `Points_deleted`, `KdMedian` the clouds that examples need. The
nearest search is in `ManualHeap` (the array heap), `Nearest` (the pruned descent) and `Ranking`
(against brute force). `KdVoxel` and `KdBatch` are `Add_Points` and `Delete_Point_Boxes` with voxel
thinning and the operation log. `KdRebuild` is the two-thread rebuild as a state machine, one action
per step of a thread, `KdCalls` ties the calls of `KdMap` to it, log and record included, `KdRace` and
`KdRaceRuns` are the interleavings its guards exclude, and `ManualQueue` is its ring buffer.

**The tree's client**, `lasermap_fov_segment`, is `MapCube`.

**The follower** (`leader_safe_path_follower.cpp`): `Route` is the trimmed polyline with running arc
length, `Relay` the waypoint queue driven by callbacks in any order.

**The controller** (`cxr_egoctrl_v1.cpp`): `SpeedEnvelope` is the velocity shaper, `Flight` the state
machine of callbacks and ticks around it, `Guidance` what its commands lead to and what they follow,
`Controller` the object, each of whose methods is one step of that machine.

Reals stand for floats, `None` for INFINITY. Square roots, `hypot`, `atan2` and `nth_element` are
parameters with the library's contract. Clocks, messages and what this thread reads of flags that the
other thread writes are parameters, and the results hold for all their values.

What the proofs found:

- An operation executed between the unlock of `working_flag_mutex` and `rebuild_flag = false`
  (ikd_Tree.cpp:301-302) is logged into a rebuild that is over; the next rebuild replays it, and an
  added point is there once too often (`KdRace.LateLogDuplicates`, with a run from Build in
  `KdRaceRuns.LateLogHappens`). The message printed at ikd_Tree.cpp:212-214 is the symptom;
  `KdRebuild.StaleLogIff` says which logs do harm.
- A thinning deletes and adds without the lock if no rebuild was wanted when it looked; if its delete
  asks for a rebuild of the whole tree and the flatten comes before its add, the add is lost at the
  swap (`KdRace.UnlockedAddIsLost`, with a run from Build in `KdRaceRuns.UnlockedAddHappens`).
  `KdRebuild.StepMirrors` says exactly which steps are harmless, `KdRebuild.UnlockedOpIff` which
  unlocked operations.
- `Delete_by_point` follows the division axis to the right on a tie, where `BuildTree` may have left
  the point on the left (`KdErase.TieHidesPoint`), and takes any live point within EPSS that it meets.
  `KdErase.DeletePointIff` gives the exact condition on the path to the point.
- `Delete_by_point` leaves the range of a node too large when the range needs the point it takes
  (`KdErase.StaysExactIff`, with a run from Build in `KdErase.RidgeGoesStale`), and a box delete may then
  rebuild the root to null (`KdRun.RootLostIff`, `KdRun.RidgeLosesRoot`; on any tree exactly when
  `KdExact.DeleteEmptiesIff` says).
- A thinning that covers a subtree drops the points deleted before in it from the record
  (`KdRecord.SwallowHappens`; exactly which: `KdRecord.DeleteDue`).
- The map cube deletes more than it leaves behind if the detection range exceeds twice the side
  (`MapCube.SetupDecides`).
- The exit waypoint may be queued before the door (`Relay.ExitMayPrecedeDoor`): exactly if the door has
  not been released by then, which is not checked (`Relay.ExitAfterDoorIff`).
- A sample spacing of 1e-6 or less lets a look-back leave the route (`Route.LookBackIff`).
- A push on a full `MANUAL_Q` overwrites the oldest operation (`ManualQueue.Queue.Push`).
- A landing request that comes while hold is active moves the hold point (`Flight.HoldPointMovesIff`).
- A hold release undoes a landing request until the next hold or landing request
  (`Flight.LandingHoldsIff`).
- `operator <` of the search heap is no order (`ManualHeap.LessCycles`); it follows the distances
  exactly under the condition of `ManualHeap.LessMeans`, which the nearest search assumes.

## Model

| member | source | states |
|---|---|---|
| Geometry.BoxDistBelow | src/FAST_LIO/include/ikd-Tree/ikd_Tree.cpp:1381-1391 | the squared distance from a point to a node range is a lower bound for the distance to every point of the range |
| KdTree.SortingSelects | src/FAST_LIO/include/ikd-Tree/ikd_Tree.cpp:599-613 | the contract used for nth_element can be met: a concrete selection satisfies it for every list, rank and axis |
| KdInvariant.LiveCount | src/FAST_LIO/include/ikd-Tree/ikd_Tree.cpp:129-145 | TreeSize minus invalid_point_num is the number of live points at every node, and a node is marked deleted exactly when it has none |
| KdInvariant.Encloses | src/FAST_LIO/include/ikd-Tree/ikd_Tree.cpp:1184-1308 | every live point of a subtree lies in the range of its root |
| KdInvariant.PushDownOk | src/FAST_LIO/include/ikd-Tree/ikd_Tree.cpp:1110-1181 | Push_Down keeps the invariant and both bags of points at every depth; a push flag survives only over a missing child |
| KdLive.UpdateOk | src/FAST_LIO/include/ikd-Tree/ikd_Tree.cpp:1184-1308 | Update restores the invariant of a node from its children and its live points are its own plus theirs |
| KdLive.BuildOk | src/FAST_LIO/include/ikd-Tree/ikd_Tree.cpp:574-622 | BuildTree holds a permutation of the given points, all live, with nothing marked |
| KdLive.FlatOk | src/FAST_LIO/include/ikd-Tree/ikd_Tree.cpp:1326-1352 | flatten stores exactly the live points, with pushes pending anywhere |
| KdLive.RebuildOk | src/FAST_LIO/include/ikd-Tree/ikd_Tree.cpp:625-645 | Rebuild changes no live point |
| KdLive.AddOk | src/FAST_LIO/include/ikd-Tree/ikd_Tree.cpp:818-866 | Add_by_point adds exactly the one point, with pushes pending anywhere and whether or not it rebuilds |
| KdLive.DeleteOk | src/FAST_LIO/include/ikd-Tree/ikd_Tree.cpp:648-710 | Delete_by_range removes exactly the live points of the half-open box and returns their number |
| KdLive.DeletePointOk | src/FAST_LIO/include/ikd-Tree/ikd_Tree.cpp:713-760 | Delete_by_point removes nothing or one live point that same_point takes for the given one |
| KdOrder.BuriedOk | src/FAST_LIO/include/ikd-Tree/ikd_Tree.cpp:1326-1352 | at one multiplicity: what flatten stores and what it records together are what the subtree held, if nothing was ever thinned out |
| KdOrder.AddAccounts | src/FAST_LIO/include/ikd-Tree/ikd_Tree.cpp:818-866 | Add_by_point loses and duplicates no point: stored plus recorded grow by exactly the new point |
| KdOrder.DeleteAccounts | src/FAST_LIO/include/ikd-Tree/ikd_Tree.cpp:648-710 | Delete_by_range loses and duplicates no point between the tree and Points_deleted |
| KdOrder.BuildOrdered | src/FAST_LIO/include/ikd-Tree/ikd_Tree.cpp:574-622 | left <= pivot <= right along the division axis at every node of a built tree |
| KdOrder.AddOrdered | src/FAST_LIO/include/ikd-Tree/ikd_Tree.cpp:818-866 | Add_by_point keeps left <= pivot <= right at every node, marked points included |
| KdOrder.DeleteOrdered | src/FAST_LIO/include/ikd-Tree/ikd_Tree.cpp:648-710 | Delete_by_range keeps left <= pivot <= right at every node |
| KdOrder.DeletePointOrdered | src/FAST_LIO/include/ikd-Tree/ikd_Tree.cpp:713-760 | Delete_by_point keeps left <= pivot <= right at every node |
| KdExact.ExactIsTight | src/FAST_LIO/include/ikd-Tree/ikd_Tree.cpp:1184-1308 | an exact range is the bounding box of the live points: it holds them all and each of its six sides is touched by one |
| KdExact.AddExact | src/FAST_LIO/include/ikd-Tree/ikd_Tree.cpp:818-866 | Add_by_point keeps every range exact |
| KdExact.DeleteExact | src/FAST_LIO/include/ikd-Tree/ikd_Tree.cpp:648-710 | Delete_by_range keeps every range exact |
| KdExact.CoverIsExact | src/FAST_LIO/include/ikd-Tree/ikd_Tree.cpp:656-668 | a box holds all live points of a subtree if and only if the full-cover test succeeds on its range |
| KdExact.DeleteNeverEmpties | src/FAST_LIO/include/ikd-Tree/ikd_Tree.cpp:648-710 | with exact ranges no box delete, and no rebuild inside it, makes the root null |
| KdExact.DeleteEmptiesIff | src/FAST_LIO/include/ikd-Tree/ikd_Tree.cpp:648-710 | whatever the ranges: a box delete makes an existing subtree null if and only if the box holds all its live points and the rebuilds on the way, counted from the tree and the box alone, leave no node |
| KdExact.StaleRootIff | src/FAST_LIO/include/ikd-Tree/ikd_Tree.cpp:648-710 | a test on the root alone, when only its own range may be too large: a delete of all live points makes it null if and only if the box does not cover that range and the size is above 10 and below 1500 |
| KdBalance.BuildSizes | src/FAST_LIO/include/ikd-Tree/ikd_Tree.cpp:578-617 | the sons of a built node have floor((n-1)/2) and ceil((n-1)/2) points |
| KdLean.BuildSplitsLongest | src/FAST_LIO/include/ikd-Tree/ikd_Tree.cpp:582-598 | a built node divides along an axis on which two of its points are as far apart as any two are on any axis |
| KdLean.AddCycles | src/FAST_LIO/include/ikd-Tree/ikd_Tree.cpp:818-830 | without rebuilding an added leaf divides along the axis after that of its father |
| KdBalance.BuildCalm | src/FAST_LIO/include/ikd-Tree/ikd_Tree.cpp:1090-1107 | no node of a built tree satisfies Criterion_Check, for 6/11 <= balance < 1 and delete parameter >= 0 |
| KdBalance.BuildHeight | src/FAST_LIO/include/ikd-Tree/ikd_Tree.cpp:574-622 | the height h of a built tree of n points satisfies 2^(h-1) <= n < 2^h |
| KdBalance.AddBalanced | src/FAST_LIO/include/ikd-Tree/ikd_Tree.cpp:860-863 | Add_by_point leaves every node of more than 10 and fewer than 1500 points with each son's share within [1-b, b] |
| KdBalance.DeleteBalanced | src/FAST_LIO/include/ikd-Tree/ikd_Tree.cpp:704-707 | Delete_by_range keeps the same balance at every node |
| KdBalance.BalancedIsShallow | src/FAST_LIO/include/ikd-Tree/ikd_Tree.cpp:1090-1107 | a balanced subtree is logarithmically deep: beyond depth 11, each level costs a factor b of its size |
| KdRun.RunSound | src/FAST_LIO/include/ikd-Tree/ikd_Tree.cpp:353-365 | in every run from one Build, through adds, box and point deletes, record hand-outs and queries: the invariant, the order and the balance hold at every node |
| KdRun.RunShallow | src/FAST_LIO/include/ikd-Tree/ikd_Tree.cpp:1090-1107 | in every run every subtree of fewer than 1500 points, wherever it hangs, is logarithmically deep |
| KdLean.RunLean | src/FAST_LIO/include/ikd-Tree/ikd_Tree.cpp:1090-1107 | in every run of adds, box deletes and queries no subtree of more than 10 and fewer than 1500 points that is not deleted as a whole holds more than the configured share of deleted points |
| KdRun.RunRefinesBag | src/FAST_LIO/include/ikd-Tree/ikd_Tree.cpp:414-571 | in every run of adds, box deletes and queries the live points are those of a plain bag, ranges stay exact and the root never becomes null |
| KdRun.RootLostIff | src/FAST_LIO/include/ikd-Tree/ikd_Tree.cpp:704-707 | why point deletes are not among them: Build, Delete_by_point of the root, then a box that holds all other points end with a null root if and only if the box does not hold that point and the size is above 10 and below 1500 |
| KdRun.RidgeLosesRoot | src/FAST_LIO/include/ikd-Tree/ikd_Tree.cpp:713-760 | such clouds exist, for every nth_element and every delete parameter below 1 |
| KdRun.RunConserves | src/FAST_LIO/include/ikd-Tree/ikd_Tree.cpp:559-571 | in every run without downsampling: inserted = live + marked in the tree + Points_deleted + already handed out, as bags |
| KdRecord.DeleteDue | src/FAST_LIO/include/ikd-Tree/ikd_Tree.cpp:648-710 | Delete_by_range without downsampling makes exactly the points it deletes due for recording; with downsampling none, and what was due in subtrees that the box covers no longer is |
| KdRecord.RunRecords | src/FAST_LIO/include/ikd-Tree/ikd_Tree.cpp:1326-1352 | in every run, thinning included: handed out, recorded and still due are exactly the points deleted other than by downsampling, less those that a thinning swallowed |
| KdRecord.SwallowHappens | src/FAST_LIO/include/ikd-Tree/ikd_Tree.cpp:656-668 | a run from Build of three points in which a deleted point is swallowed: it is neither recorded nor due |
| KdErase.ErasesWhatItMeets | src/FAST_LIO/include/ikd-Tree/ikd_Tree.cpp:713-760 | Delete_by_point removes exactly the first live point on its way down that same_point takes for the given one, and nothing if there is none |
| KdErase.DeletePointIff | src/FAST_LIO/include/ikd-Tree/ikd_Tree.cpp:713-760 | a live point p is removed, alone, if and only if on the path to some live occurrence of p no live node above is another point within EPSS, and no node that has the occurrence on its left ties with p on its division axis |
| KdErase.DeletePointExact | src/FAST_LIO/include/ikd-Tree/ikd_Tree.cpp:713-760 | by that condition: if no other stored point shares a coordinate with the live point p or matches it within EPSS, exactly p is removed |
| KdErase.TieHidesPoint | src/FAST_LIO/include/ikd-Tree/ikd_Tree.cpp:574-622 | right after Build of three points, two of them tied on the longest axis: Delete_by_point of one of the two removes nothing, for every nth_element |
| KdErase.AddThenDelete | src/FAST_LIO/include/ikd-Tree/ikd_Tree.cpp:818-866 | Delete_by_point undoes an Add_by_point that rebuilt nothing, if no live point within EPSS is another point |
| KdErase.StaysExactIff | src/FAST_LIO/include/ikd-Tree/ikd_Tree.cpp:713-760 | Delete_by_point leaves every range exact if it takes no point, or one whose node has a range that is the bounding box of its other live points as well, or has no others; without rebuilding only then |
| KdErase.RidgeGoesStale | src/FAST_LIO/include/ikd-Tree/ikd_Tree.cpp:717-722 | a range that ends too large: after Build of eleven points and Delete_by_point of one of them, for every nth_element |
| KdQuery.PushedOk | src/FAST_LIO/include/ikd-Tree/ikd_Tree.cpp:1110-1181 | a query that pushes marks down anywhere keeps the invariant and both bags |
| KdQuery.RangeSearchOk | src/FAST_LIO/include/ikd-Tree/ikd_Tree.cpp:1016-1044 | Search_by_range returns the live points of the half-open box, each exactly as often as it is live, and only pushes marks |
| KdQuery.RadiusSearchOk | src/FAST_LIO/include/ikd-Tree/ikd_Tree.cpp:1047-1087 | Search_by_radius returns each live point at distance <= radius exactly as often as it is live and nothing else; for a negative radius nothing else than points within its square; marks are only pushed |
| Norm.Triangle | src/FAST_LIO/include/ikd-Tree/ikd_Tree.cpp:1052-1062 | the triangle inequality behind the centre and half-diagonal tests |
| KdNode.Node.PushDown | src/FAST_LIO/include/ikd-Tree/ikd_Tree.cpp:1110-1181 | in place: the node, its sons and their marks become what the value function says, nothing below the sons changes |
| KdNode.Node.LiveRange | src/FAST_LIO/include/ikd-Tree/ikd_Tree.cpp:1190-1308 | the branches of Update compute the hull of whatever is not deleted, or of everything if all is |
| KdNode.Node.Update | src/FAST_LIO/include/ikd-Tree/ikd_Tree.cpp:1184-1308 | counters, marks, range and radius of a node recomputed in place from its sons |
| KdNode.Node.CriterionCheck | src/FAST_LIO/include/ikd-Tree/ikd_Tree.cpp:1090-1107 | the rebuild test on the fields is the test on the model |
| KdNode.Flatten | src/FAST_LIO/include/ikd-Tree/ikd_Tree.cpp:1326-1352 | appends the live points in order, records the deleted ones, pushes every mark down |
| KdNode.BoundsOf | src/FAST_LIO/include/ikd-Tree/ikd_Tree.cpp:582-592 | the loop over Storage[l..r] computes the bounding box of that part |
| KdNode.BuildTree | src/FAST_LIO/include/ikd-Tree/ikd_Tree.cpp:574-622 | builds the subtree of Storage[l..r] from fresh nodes and reorders only that part of the array |
| KdNode.Rebuild | src/FAST_LIO/include/ikd-Tree/ikd_Tree.cpp:625-645 | replaces a subtree of fewer than 1500 points by the tree built from its live points; leaves a larger one to the other thread |
| KdNode.AddByPoint | src/FAST_LIO/include/ikd-Tree/ikd_Tree.cpp:818-866 | the linked nodes after the call stand for the tree of the value function; Points_deleted grows by what it says |
| KdNode.DeleteByRange | src/FAST_LIO/include/ikd-Tree/ikd_Tree.cpp:648-710 | the same for Delete_by_range, with its count |
| KdNode.DeleteByPoint | src/FAST_LIO/include/ikd-Tree/ikd_Tree.cpp:713-760 | the same for Delete_by_point |
| KdNode.SearchByRange | src/FAST_LIO/include/ikd-Tree/ikd_Tree.cpp:1016-1044 | the hits are appended in order and the nodes are as after the pushes of the query |
| KdNode.SearchByRadius | src/FAST_LIO/include/ikd-Tree/ikd_Tree.cpp:1047-1087 | the same for the ball |
| ManualHeap.LessMeans | src/FAST_LIO/include/ikd-Tree/ikd_Tree.h:102-105 | operator < tells how two distances lie, either way round, if and only if they are equal, at least 1e-10 apart, or in the order of x |
| ManualHeap.ToleranceMisorders | src/FAST_LIO/include/ikd-Tree/ikd_Tree.h:102-105 | operator < puts the nearer candidate above the farther one if and only if they are less than 1e-10 apart and the farther one has the smaller x |
| ManualHeap.LessCycles | src/FAST_LIO/include/ikd-Tree/ikd_Tree.h:102-105 | within the tolerance operator < is no order: three candidates in a circle |
| ManualHeap.TopIsFarthest | src/FAST_LIO/include/ikd-Tree/ikd_Tree.h:126-126 | the top of the heap is a farthest element |
| ManualHeap.Heap.MoveDown | src/FAST_LIO/include/ikd-Tree/ikd_Tree.h:143-156 | the sift with a hole restores the heap order and keeps the bag of elements |
| ManualHeap.Heap.FloatUp | src/FAST_LIO/include/ikd-Tree/ikd_Tree.h:158-170 | the sift upwards with a hole restores the heap order and keeps the bag of elements |
| ManualHeap.Heap.Pop | src/FAST_LIO/include/ikd-Tree/ikd_Tree.h:118-124 | removes exactly the top and leaves a heap |
| ManualHeap.Heap.Push | src/FAST_LIO/include/ikd-Tree/ikd_Tree.h:128-134 | adds exactly the element if there is capacity and leaves a heap |
| Nearest.Replace | src/FAST_LIO/include/ikd-Tree/ikd_Tree.cpp:885-892 | a nearer candidate in place of the top leaves k nearest of all candidates seen |
| Nearest.OutOfReach | src/FAST_LIO/include/ikd-Tree/ikd_Tree.cpp:869-873 | a subtree that the first two tests prune holds no candidate |
| Nearest.SkipSon | src/FAST_LIO/include/ikd-Tree/ikd_Tree.cpp:893-1010 | a son whose range is no nearer than the top of a full queue may be skipped |
| Nearest.Offer | src/FAST_LIO/include/ikd-Tree/ikd_Tree.cpp:885-892 | the queue holds k nearest of what it has seen and the new candidate |
| Nearest.SearchSons | src/FAST_LIO/include/ikd-Tree/ikd_Tree.cpp:893-1010 | whatever the order of visits and the pruning, both sons are absorbed into the queue |
| Nearest.Search | src/FAST_LIO/include/ikd-Tree/ikd_Tree.cpp:869-1013 | the queue then holds k nearest of what it had seen and of the candidates of the subtree; the tree only has marks pushed down |
| Ranking.Drain | src/FAST_LIO/include/ikd-Tree/ikd_Tree.cpp:388-396 | popping the queue to the front of the answer lists exactly its elements, nearest first |
| Ranking.BruteForce | src/FAST_LIO/include/ikd-Tree/ikd_Tree.cpp:367-397 | any ascending listing of k nearest has the distances of the first k of any ascending listing of all |
| Ranking.AnswersBruteForce | src/FAST_LIO/include/ikd-Tree/ikd_Tree.cpp:367-397 | the returned distances are the first k of a brute-force scan, all of them if there are fewer |
| KdMap.Map.NearestSearch | src/FAST_LIO/include/ikd-Tree/ikd_Tree.cpp:367-397 | returns, nearest first, k nearest live points within the limit, or all if fewer |
| KdMap.LimitIsRadius | src/FAST_LIO/include/ikd-Tree/ikd_Tree.cpp:869-873 | the limit on squared distances admits exactly the points no farther than max_dist |
| KdVoxel.VoxelsPartition | src/FAST_LIO/include/ikd-Tree/ikd_Tree.cpp:424-429 | the boxes floor(x/s)*s .. +s partition space: a point lies in exactly the voxels that are its own |
| KdVoxel.VoxelIsCell | src/FAST_LIO/include/ikd-Tree/ikd_Tree.cpp:424-429 | a voxel is a cell of the grid around its point: the corner a whole number of steps, each side one step |
| KdVoxel.ClosestOk | src/FAST_LIO/include/ikd-Tree/ikd_Tree.cpp:435-443 | the loop picks a point nearest to the voxel centre among the new point and those found |
| KdVoxel.ClosestIsFirst | src/FAST_LIO/include/ikd-Tree/ikd_Tree.cpp:435-443 | of equally near points the loop prefers the new one, then the one found first |
| KdVoxel.ThinBag | src/FAST_LIO/include/ikd-Tree/ikd_Tree.cpp:430-449 | after one thinning the voxel holds exactly one point, no farther than any former or the new one from the point half a voxel size above its corner on every axis; all other voxels are as before |
| KdVoxel.ThinKeepsOne | src/FAST_LIO/include/ikd-Tree/ikd_Tree.cpp:414-489 | one thinning keeps at most one point per voxel |
| KdBatch.PerformFollows | src/FAST_LIO/include/ikd-Tree/ikd_Tree.cpp:414-489 | any list of adds and box deletes does to the tree what it does to a plain bag, whether rebuilds are allowed or not |
| KdBatch.InsertInFollows | src/FAST_LIO/include/ikd-Tree/ikd_Tree.cpp:444-485 | what is logged for the rebuild thread is what is done to the tree |
| KdBatch.InsertFollows | src/FAST_LIO/include/ikd-Tree/ikd_Tree.cpp:414-489 | one point of Add_Points thins its voxel, or is added, in the live points of the tree |
| KdBatch.ThinningKeepsOne | src/FAST_LIO/include/ikd-Tree/ikd_Tree.cpp:414-489 | if every voxel held at most one live point, the same holds after the whole list, whichever branch each point takes |
| KdBatch.AddingAddsAll | src/FAST_LIO/include/ikd-Tree/ikd_Tree.cpp:414-489 | without downsampling exactly the listed points are added |
| KdBatch.AddingKeepsRoot | src/FAST_LIO/include/ikd-Tree/ikd_Tree.cpp:446-447 | through the whole list there is a root whose division_axis can be read |
| KdBatch.DeleteBoxesOk | src/FAST_LIO/include/ikd-Tree/ikd_Tree.cpp:536-556 | Delete_Point_Boxes removes exactly the live points of the union of the boxes and counts each once, overlaps or not |
| KdCalls.InsertAllLogs | src/FAST_LIO/include/ikd-Tree/ikd_Tree.cpp:444-485 | through Add_Points the log only grows; if the rebuild thread was seen collecting at every point, replaying what was logged does to the live points what was done to the tree; if at none, nothing was logged |
| KdCalls.DeleteBoxesLog | src/FAST_LIO/include/ikd-Tree/ikd_Tree.cpp:536-556 | the same of Delete_Point_Boxes |
| KdCalls.InsertIsCall | src/FAST_LIO/include/ikd-Tree/ikd_Tree.cpp:414-489 | one point of Add_Points is one call of the two-thread state machine, log included: its locked step or all its unlocked ones, with what the search found |
| KdCalls.DeleteIsCall | src/FAST_LIO/include/ikd-Tree/ikd_Tree.cpp:536-556 | one box of Delete_Point_Boxes is one such call |
| KdCalls.InsertCounts | src/FAST_LIO/include/ikd-Tree/ikd_Tree.cpp:444-449 | with downsampling a point counts unless its voxel keeps the one point it has, nearer to the centre; without downsampling none does |
| KdCalls.InsertAllRecord | src/FAST_LIO/include/ikd-Tree/ikd_Tree.cpp:414-489 | nothing that Add_Points removes is ever recorded in Points_deleted, and without downsampling nothing is lost to the record |
| KdCalls.DeleteBoxesRecord | src/FAST_LIO/include/ikd-Tree/ikd_Tree.cpp:536-556 | exactly the points that Delete_Point_Boxes deletes are recorded, or held in the tree for recording |
| KdMap.Map.Build | src/FAST_LIO/include/ikd-Tree/ikd_Tree.cpp:353-365 | the tree of the given cloud from fresh nodes, or no tree |
| KdMap.Map.PickClosest | src/FAST_LIO/include/ikd-Tree/ikd_Tree.cpp:435-443 | the loop over the points found in the voxel computes the chosen point |
| KdMap.Map.AddPoints | src/FAST_LIO/include/ikd-Tree/ikd_Tree.cpp:414-489 | tree, removed points, log and counter after the list are those of the specification, for any values of the shared flags read on the way; the root stays, and the log tells what was done as in `KdCalls.InsertAllLogs` |
| KdMap.Map.DeletePointBoxes | src/FAST_LIO/include/ikd-Tree/ikd_Tree.cpp:536-556 | tree, removed points, log and count after the boxes are those of the specification, and the log tells what was done as in `KdCalls.DeleteBoxesLog` |
| KdMap.Map.BoxSearch | src/FAST_LIO/include/ikd-Tree/ikd_Tree.cpp:400-404 | returns exactly the live points of the half-open box and leaves record and log alone |
| KdMap.Map.RadiusSearch | src/FAST_LIO/include/ikd-Tree/ikd_Tree.cpp:407-411 | returns exactly the live points of the ball, for a negative radius none outside it, and leaves record and log alone |
| KdMap.Map.AcquireRemovedPoints | src/FAST_LIO/include/ikd-Tree/ikd_Tree.cpp:559-571 | hands out both records in order and clears them |
| ManualQueue.Queue.Push | src/FAST_LIO/include/ikd-Tree/ikd_Tree.cpp:1428-1434 | appends while fewer than Q_LEN elements are queued; from then on, however many are counted, it overwrites every position that shares the cell |
| ManualQueue.Queue.Pop | src/FAST_LIO/include/ikd-Tree/ikd_Tree.cpp:1408-1415 | removes the oldest element |
| ManualQueue.Queue.Front | src/FAST_LIO/include/ikd-Tree/ikd_Tree.cpp:1418-1420 | the oldest element |
| ManualQueue.SamePlace | src/FAST_LIO/include/ikd-Tree/ikd_Tree.cpp:1428-1434 | two positions of the queue share a cell of the ring exactly when they are whole rings apart |
| KdRebuild.StepWatched | src/FAST_LIO/include/ikd-Tree/ikd_Tree.cpp:225-242 | every step keeps: the search counter is -1 exactly while the tree is flattened or swapped, otherwise the number of counted searches |
| KdRebuild.SearchIsSafe | src/FAST_LIO/include/ikd-Tree/ikd_Tree.cpp:269-304 | in every interleaving: no search is inside while the tree is flattened or swapped, and none holds a root that was swapped out and will be deleted |
| KdRebuild.RunsStayUpright | src/FAST_LIO/include/ikd-Tree/ikd_Tree.cpp:201-316 | in every interleaving, harmless or not, from a tree with a root, exact ranges and left <= pivot <= right: the tree and the new one under way keep all three |
| KdRebuild.StepMirrors | src/FAST_LIO/include/ikd-Tree/ikd_Tree.cpp:243-268 | a step of either thread keeps live(old tree) = live(new tree) + operation in flight + queued log if and only if it is harmless, which is read off the operations and the live points |
| KdRebuild.LeavesAloneIff | src/FAST_LIO/include/ikd-Tree/ikd_Tree.cpp:254-264 | replaying a log changes nothing if and only if every point in one of its boxes is added back as often as it was there, and no other point is added |
| KdRebuild.UnlockedOpIff | src/FAST_LIO/include/ikd-Tree/ikd_Tree.cpp:444-449 | while a new tree is under way, an unlocked add always breaks the agreement and an unlocked box delete breaks it if and only if a live point lies in the box |
| KdRebuild.StaleLogIff | src/FAST_LIO/include/ikd-Tree/ikd_Tree.cpp:212-214 | a flatten with a log left over: of one add it always breaks the agreement, of one box delete if and only if a live point lies in the box, of one thinning unless the point it adds is all that is live in the voxel |
| KdRebuild.RebuildInvisible | src/FAST_LIO/include/ikd-Tree/ikd_Tree.cpp:201-316 | in every interleaving of harmless steps the live points are exactly those due and the swap changes none |
| KdRebuild.GuardedRunsAreInvisible | src/FAST_LIO/include/ikd-Tree/ikd_Tree.cpp:201-316 | two guards on the interleaving make every step harmless, and the log is empty whenever a rebuild starts, as the check at its start expects |
| KdRebuild.PlainRunsAreInvisible | src/FAST_LIO/include/ikd-Tree/ikd_Tree.cpp:201-316 | calls of one operation each need only the first guard: nothing is logged between the unlock and the clearing of rebuild_flag |
| KdRace.LateLogDuplicates | src/FAST_LIO/include/ikd-Tree/ikd_Tree.cpp:301-302 | without the first guard: on every tree that one call and, once rebuilt and added to, a second one make ask for a rebuild, an interleaving of the two calls and a plain add between them after which the added point is there once too often |
| KdRaceRuns.LateLogHappens | src/FAST_LIO/include/ikd-Tree/ikd_Tree.cpp:625-631 | such a tree exists: after Build of 3005 points, the calls delete a box, add a point, delete another box can leave the point there twice |
| KdRace.UnlockedAddIsLost | src/FAST_LIO/include/ikd-Tree/ikd_Tree.cpp:444-449 | without the second guard: for every thinning call whose delete makes the tree ask for a rebuild, an interleaving in which that call returns and the point it added is lost at the swap |
| KdRaceRuns.UnlockedAddHappens | src/FAST_LIO/include/ikd-Tree/ikd_Tree.cpp:704-707 | such a tree exists: after the same Build, the one call of Add_Points with downsampling for the centre of a voxel, with what Search_by_range finds there, can lose the centre |
| MapCube.DifferenceIff | src/FAST_LIO/src/laserMapping.cpp:262-275 | the boxes collected over the shifted axes have union exactly old cube minus new cube if and only if the move is at most the side, or nothing moves |
| MapCube.SetupDecides | src/FAST_LIO/src/laserMapping.cpp:261-275 | in terms of the settings: if and only if the detection range is at most twice the side, or nothing moves |
| MapCube.TrackKeepsCube | src/FAST_LIO/src/laserMapping.cpp:235-276 | in every run of sensor positions the map stays a cube of the configured side |
| MapCube.SegmentFollows | src/FAST_LIO/src/laserMapping.cpp:258-276 | for 0 < 3 * detection range < side, one call: nothing within the detection range of the sensor is deleted, a sensor inside the old cube is inside the new one, and one half the range deep is then the whole range deep |
| MapCube.CubeSurroundsSensor | src/FAST_LIO/src/laserMapping.cpp:235-276 | in every run of positions less than half the detection range apart, the cube surrounds the sensor by more than the detection range after every call |
| MapCube.RemovesDifference | src/FAST_LIO/include/ikd-Tree/ikd_Tree.cpp:536-556 | deleting the boxes removes exactly the points of old cube minus new cube, overlaps counted once |
| MapCube.MapEdges | src/FAST_LIO/src/laserMapping.cpp:250-257 | the distances to the six edges, and whether any axis has to move |
| MapCube.MoveCube | src/FAST_LIO/src/laserMapping.cpp:258-276 | the per-axis loop computes the moved cube and the slabs it leaves |
| MapCube.Mapper.FovSegment | src/FAST_LIO/src/laserMapping.cpp:235-282 | one call moves the cube, deletes exactly the live points of old cube minus new cube and counts them |
| Route.Tracker.AppendAcceptedRoutePoint | src/control/src/leader_safe_path_follower.cpp:507-522 | refuses a point nearer than the spacing, else appends it with its running progress and trims the front exactly as far as the length limit asks; progress differences, route length and follower index stay consistent |
| Route.Tracker.Trim | src/control/src/leader_safe_path_follower.cpp:516-520 | drops front points while more than two are left and the length is too long, each of them needed, and moves the follower index along |
| Route.LookBackOk | src/control/src/leader_safe_path_follower.cpp:424-440 | looking back by d >= 0 finds a place on the polyline at progress max(first, last - d) |
| Route.ProgressIsPlace | src/control/src/leader_safe_path_follower.cpp:424-440 | progress pins down the place: two places on the polyline at the same progress are the same position |
| Route.LookBackIff | src/control/src/leader_safe_path_follower.cpp:428-428 | the look-back stays on the polyline for every route and distance if and only if the sample spacing exceeds 1e-6 |
| Route.TargetOnRoute | src/control/src/leader_safe_path_follower.cpp:421-440 | for both look-backs on a live tracker: the target is the place on the polyline at progress max(first, last - distance) |
| Route.Tracker.GetRouteTargetBehindEnd | src/control/src/leader_safe_path_follower.cpp:421-440 | fails only on an empty route; else returns the look-back of max(0, distance) with its progress |
| Route.Tracker.GetLaggedTarget | src/control/src/leader_safe_path_follower.cpp:835-857 | succeeds exactly on a route of two points and the release length; returns the look-back of the follow distance and an index in range |
| Route.Tracker.NearestBetween | src/control/src/leader_safe_path_follower.cpp:882-892 | the first of the nearest route points between two indices |
| Route.AheadArc | src/control/src/leader_safe_path_follower.cpp:894-915 | the look-ahead walks exactly its distance along the route and on towards the lagged target, or reaches that target first |
| Route.AheadReach | src/control/src/leader_safe_path_follower.cpp:894-915 | the tracking target is never farther from the follower than the look-ahead, up to 1e-6 |
| Route.Tracker.TrackingReach | src/control/src/leader_safe_path_follower.cpp:873-939 | on a live tracker, whatever window is tracked: the target is within the look-ahead of the follower |
| Route.Tracker.GetRouteTrackingTarget | src/control/src/leader_safe_path_follower.cpp:873-916 | the follower index moves to the nearest point not past the lagged one and stays in range; the target lies ahead of it along the route |
| Route.Tracker.GetRelayRouteTarget | src/control/src/leader_safe_path_follower.cpp:918-939 | tracks only the part of the route between the previous relay point and this one: the window is exact, the index stays in it and is nearest, the target lies ahead of it |
| Relay.RunKeeps | src/control/src/leader_safe_path_follower.cpp:344-460 | in every interleaving of callbacks the queue invariant holds |
| Relay.RelayOrder | src/control/src/leader_safe_path_follower.cpp:656-695 | in every interleaving: DOOR, EXIT, TERMINAL at most once, nothing after TERMINAL; INTERNAL after DOOR and not after EXIT, a spacing past the selection before it, released only when the leader is the release distance past it |
| Relay.LandingLast | src/control/src/leader_safe_path_follower.cpp:1597-1628 | landing is requested at most once, and only when every waypoint before the terminal one was consumed, one by one and in order |
| Relay.LandsWhenReached | src/control/src/leader_safe_path_follower.cpp:1570-1628 | at every step of every run: a landing is requested if and only if a tick finds the terminal waypoint reached and none was requested yet; a waypoint is consumed if and only if a tick finds it reached and it is not the terminal one |
| Relay.TicksLand | src/control/src/leader_safe_path_follower.cpp:1570-1628 | once TERMINAL is queued, as many reached ticks as waypoints are left bring the landing request |
| Relay.QueuedIff | src/control/src/leader_safe_path_follower.cpp:344-460 | in every run EXIT is queued if and only if at some time the exit was known, the leader outside by its last status and no landing asked for; TERMINAL if and only if a landing was asked for on a route |
| Relay.DoorQueuedIff | src/control/src/leader_safe_path_follower.cpp:656-680 | DOOR is queued if and only if a leader pose deep enough behind a known door came before any landing was asked for |
| Relay.DoorPlace | src/control/src/leader_safe_path_follower.cpp:656-680 | it is queued as far back on the route as the leader is behind the door |
| Relay.ExitAndTerminalPlace | src/control/src/leader_safe_path_follower.cpp:344-460 | EXIT and TERMINAL are queued at the route progress that their event brings |
| Relay.InternalComes | src/control/src/leader_safe_path_follower.cpp:680-695 | a leader pose a spacing past the last selection becomes an INTERNAL waypoint as soon as the leader is the release distance past it |
| Relay.InternalsTraced | src/control/src/leader_safe_path_follower.cpp:656-695 | in every run each INTERNAL waypoint is a leader pose, released by a later one, and the leader has not turned back in between |
| Relay.InternalsCapped | src/control/src/leader_safe_path_follower.cpp:680-695 | in every run no more INTERNAL waypoints are queued than the setting allows |
| Relay.QueueGrows | src/control/src/leader_safe_path_follower.cpp:385-392 | the queue only grows at its end, and not at all after TERMINAL |
| Relay.ExitMayPrecedeDoor | src/control/src/leader_safe_path_follower.cpp:344-356 | what the code does not promise: an interleaving in which EXIT is queued before DOOR |
| Relay.ExitAfterDoorIff | src/control/src/leader_safe_path_follower.cpp:344-356 | over all event lists: if EXIT is queued at step i, a DOOR precedes it in that and every later queue if and only if DOOR had been released before step i |
| Relay.Follower.TryReleaseFinalExitWaypoint | src/control/src/leader_safe_path_follower.cpp:344-356 | queues EXIT once, when the exit is known, the leader is outside and no landing is under way |
| Relay.Follower.FinalExitPoseCallback | src/control/src/leader_safe_path_follower.cpp:358-368 | remembers the first exit pose only |
| Relay.Follower.LeaderTaskStatusCallback | src/control/src/leader_safe_path_follower.cpp:794-803 | follows the leader's stage and releases the exit when it is outside |
| Relay.Follower.LeaderOdomCallback | src/control/src/leader_safe_path_follower.cpp:656-695 | releases DOOR, then pending points, by the two distances |
| Relay.Follower.LeaderLandingRequestCallback | src/control/src/leader_safe_path_follower.cpp:442-460 | queues TERMINAL once, behind everything already queued |
| Relay.Follower.HandleDiffPlannerExecution | src/control/src/leader_safe_path_follower.cpp:1483-1628 | consumes the active waypoint when it is reached and publishes a landing request at the terminal one only |
| SpeedEnvelope.LimitOk | src/control/src/cxr_egoctrl_v1.cpp:586-592 | a limited vector is no longer than the limit, or than the 1e-6 below which nothing is cut |
| SpeedEnvelope.ReverseOk | src/control/src/cxr_egoctrl_v1.cpp:595-603 | the reverse clamp never lengthens the velocity |
| SpeedEnvelope.ReverseBounds | src/control/src/cxr_egoctrl_v1.cpp:595-603 | the clamp cuts the backward speed in the body frame down to exactly max_reverse_speed, or leaves it, and keeps the sideways speed |
| SpeedEnvelope.SlewOk | src/control/src/cxr_egoctrl_v1.cpp:615-625 | the slew limit keeps the speed bound and bounds the step |
| SpeedEnvelope.SlewAdvances | src/control/src/cxr_egoctrl_v1.cpp:615-625 | a step that is cut down has the full length allowed, and all of it is gained on the target |
| SpeedEnvelope.ClimbIsNearest | src/control/src/cxr_egoctrl_v1.cpp:593-625 | of all vertical commands within the limit and one step, the one nearest to the raw velocity |
| SpeedEnvelope.ShapeOk | src/control/src/cxr_egoctrl_v1.cpp:582-626 | every tracking command is in the envelope and within the slew limits of the command before it |
| SpeedEnvelope.ShapeTransparent | src/control/src/cxr_egoctrl_v1.cpp:582-626 | a raw velocity within every limit is passed on as it is |
| SpeedEnvelope.LimitScales | src/control/src/cxr_egoctrl_v1.cpp:586-592 | a velocity above the limit keeps its direction and gets exactly the limit as its speed |
| SpeedEnvelope.TakeOffIff | src/control/src/cxr_egoctrl_v1.cpp:537-548 | the take-off command is in the envelope for every position if and only if max_cmd_speed_xy covers 0.2 * sqrt 2 |
| Flight.HoldIsSlow | src/control/src/cxr_egoctrl_v1.cpp:503-523 | the fallback hold asks for at most 0.2 m/s across and 0.15 m/s up or down |
| Flight.GateOpensOnce | src/control/src/cxr_egoctrl_v1.cpp:214-257 | in every run of callbacks and ticks a reference is only ever followed behind the height gate, and the gate never closes again |
| Flight.HoldPointMovesIff | src/control/src/cxr_egoctrl_v1.cpp:352-422 | while hold stays active the latched point moves if and only if a landing request comes when the vehicle is elsewhere: repeated holds, poses and ticks leave it |
| Flight.HoldPointStays | src/control/src/cxr_egoctrl_v1.cpp:352-394 | through every run without a release or a landing request, hold stays active at the same point in the same frame |
| Flight.LandingStopsTracking | src/control/src/cxr_egoctrl_v1.cpp:396-422 | after a landing request, through every run without a hold release, each tick holds or publishes nothing |
| Flight.LandingHoldsIff | src/control/src/cxr_egoctrl_v1.cpp:352-525 | over all event lists after a landing request, once a pose has come: every tick, at any time and in any mode, holds or publishes nothing if and only if the last hold or landing request in the list is no release |
| Flight.RunEnvelope | src/control/src/cxr_egoctrl_v1.cpp:427-672 | in every run from the start: whatever a tick publishes as a velocity is in the envelope or is the slow hold, and an armed tracking command is within slew rate times dt of the command before it |
| Guidance.TrackingClosesIn | src/control/src/cxr_egoctrl_v1.cpp:571-660 | an armed tracking tick within the limits: after dt at the published velocity, the reference moving on at its own, the squared distance is (1 - 0.7 dt)^2 times what it was, no larger up to dt = 2 / 0.7; with no error exactly the reference velocity is published |
| Guidance.TicksSlew | src/control/src/cxr_egoctrl_v1.cpp:446-448 | two armed tracking ticks in a row: the velocity changes by no more than the slew rates times the time between them |
| Guidance.ClimbingClosesIn | src/control/src/cxr_egoctrl_v1.cpp:533-556 | a climbing tick leads back to the start and to the take-off height on every axis |
| Guidance.HoldingClosesIn | src/control/src/cxr_egoctrl_v1.cpp:481-523 | a holding tick publishes the point held, or a velocity that leads back to it |
| Guidance.FeedOk | src/control/src/cxr_egoctrl_v1.cpp:640-655 | the feed-forward acceleration stays within its limits, and is passed on where it was |
| Guidance.TracksFreshReference | src/control/src/cxr_egoctrl_v1.cpp:321-350 | in every run a tracking tick follows the last reference that came, no older than the timeout, after a pose above the enable height |
| Guidance.ReferenceIsTracked | src/control/src/cxr_egoctrl_v1.cpp:557-569 | and it is tracked: a reference behind the open gate, while no hold is active, by every tick within the timeout |
| Guidance.PoseIsLast | src/control/src/cxr_egoctrl_v1.cpp:214-257 | in every run the pose is the last one that came, and the gate is open once one came from above the enable height |
| Guidance.LatchesLastPose | src/control/src/cxr_egoctrl_v1.cpp:352-422 | after any events a request that latches holds the last autopilot position if that is consistent, else the last odometry position |
| Controller.Ctrl.Control | src/control/src/cxr_egoctrl_v1.cpp:427-672 | one cycle on the fields is the step of that state machine, in its state and in what it publishes, and what it publishes is in the envelope |

## Left out

- Rebuilding an inner subtree on the second thread: the ancestor update loop, `working_flag`, `father_ptr` and PUSH_DOWN log entries (ikd_Tree.cpp:289-296, 1128-1178).
- `Add_by_range`, `Add_Point_Boxes` and ADD_BOX: the mapper never calls them.
- DELETE_POINT in the log: its effect depends on the shape of the tree, so the two-thread model has adds and box deletes only.
- `Delete_Points`: the loop around `Delete_by_point`, one call per point.
- Rebuild_Ptr taken back when the tree it points to shrinks below 1500 points (ikd_Tree.cpp:705, 861): the state machine has no step for an unlocked operation that shrinks a wanted tree so far.
- A whole-tree rebuild of a tree without a live point: the source dereferences a null pointer (ikd_Tree.cpp:287); the state machine has no step there.
- The search of a thinning and the look at Rebuild_Ptr after it are one step of the state machine.
- Data races inside one tree operation, and memory order: an operation, a query and a flatten are one step each, and Rebuild_Ptr is set only while no uncounted search runs.
- The sequential runs of `KdRun`: a subtree of 1500 points or more that asks for a rebuild is left as it is on this thread.
- `alpha_bal`, `alpha_del`, `tree_range`, `MANUAL_Q::back`, mutex creation, `usleep`, printing.
- Float rounding, NaN and integer overflow of counters.
- Scalar fields of a node are one record in `KdNode.Node`, so that a step is one write; `delete` of nodes is not modelled.
- KdRebuild.RebuildInvisible: takes the log as a sequence, which MANUAL_Q is while fewer than Q_LEN operations wait, and does not follow Multithread_Points_deleted.
- KdMap.Map.NearestSearch: assumes that no two candidates are confused by the tolerance of `operator <`: equal squared distances, or 1e-10 apart, or in the order of x (`ManualHeap.LessMeans` shows that this is exactly what the comparison needs).
- KdRun.RunConserves: for runs without downsampling, since thinned points are dropped from the records on purpose.
- KdMap.Map.AddPoints: with downsampling it assumes exact ranges, which `Delete_by_point` does not keep; `KdRun.RidgeLosesRoot` shows a delete that then leaves no root to read, `KdExact.DeleteEmptiesIff` when one does.
- KdBatch.InsertFollows: assumes a positive voxel size, as the floor division does.
- KdNode.DeleteByPoint: the returned count is for the proof only, the source returns nothing.
- KdQuery.RadiusSearchOk: for a negative radius only what the hits cannot be, not which points are found.
- Route.AheadArc: like Route.AheadReach, assumes a sample spacing above 1e-6, as `Route.LookBackIff` shows it must for the look-back.
- Relay.Follower.HandleDiffPlannerExecution: whether the active waypoint is reached and dwelled on is an input; recovery goals, dynamic obstacles and retries are not modelled.
- Relay.Follower.LeaderOdomCallback: which leader poses become route points, and when the leader has turned back, are inputs (leader_safe_path_follower.cpp:524-653).
- The follower's legacy direct control and continuous following, stuck recovery, markers and publishers.
- Controller.Ctrl.Control: yaw, the pose-consistency gate and the AUTO.LAND service are inputs or left out; cosine and sine of the yaw are two numbers with c*c + s*s = 1.
- SpeedEnvelope.ShapeOk: a step shorter than 1e-6 is not cut down by the source, so the step bound is the larger of the slew step and 1e-6.
- The Kalman filter, IMU and plane fitting, drivers, configuration and launch files.
