# ZeroRobo quad planner and tile tactics

ZeroRobo is a Robocode robot. Its planner cuts the arena into a layout of
4 columns and 3 rows of cells ("quads"). Each time the radar reports the
robot it follows, the planner:

- maps its own position and the enemy's to cells;
- once it has reached the cell it committed to, picks a new neighbouring
  cell, avoiding its own cell, the enemy's cell and the previous target;
- drives to the centre of the new cell.

It locks onto the first robot it scans and ignores every other robot. It
keeps a snapshot of the enemy for aiming, and fires only while the gun is
cold and nearly on target.

The four tile tactics are alternative policies for the choice of cell. Each
tactic has a filter that accepts or rejects a candidate cell, and a selection
that picks one of the accepted cells:

- escape: the cell farthest from the enemy, never the one picked last time;
- circle: the cells diagonally next to the enemy, taking the first;
- ram: only our own cell, taking the first;
- random: any cell.

The model has these modules:

- `IntPoints` (`int_point.dfy`): the mutable integer point class `IntPoint`,
  with in-place add and subtract, copy, Java `equals` and `hashCode`. Its
  value type `Cell` is what the planner and tactics work on.
- `Grid` (`grid.dfy`): the cell of a position, the centre of a cell, and the
  round trip between them. Java's `(int)` cast is truncation, and Java's
  integer division is used for the integer cell size.
- `Behaviour` (`zero_robo_behaviour.dfy`): the class `ZeroRoboBehaviour`
  with the planner's fields. It holds the scan handler, the candidate
  enumeration `nextQuad`, the removal of the previous target, the fallback
  to cell (0,0), the target commit and the fire gate.
- `TileTactics` (`tile_tactics.dfy`): the four tactics. They form a closed
  datatype. The escape tactic is a class, because it remembers its last
  pick.
- `TilePlanning` (`tile_planning.dfy`): one planning step driven by a
  tactic, assembled from the two-method tactic contract. The step is
  `nextQuad`, then the tactic's filter, then removal of the previous
  target, then the tactic's selection or the (0,0) fallback. The class that
  performs this composition in the robot (`TileBehaviour`) is not part of
  this model. The step is stated from the tactic contract, and for the
  random tactic it is proved to agree with the planner's own step.

Positions and arena sizes are real numbers. Positions are inputs: the
trigonometry that computes them is not modelled. Java's `new Random()` is a
nondeterministic choice of a valid index.

## Model

| member | source | states |
|---|---|---|
| `IntPoints.IntPoint.constructor` | src/net/zerobone/zerorobo/utils/IntPoint.java:11-14 | the new point holds the given coordinates |
| `IntPoints.IntPoint.Add` | src/net/zerobone/zerorobo/utils/IntPoint.java:16-19 | each coordinate becomes the old coordinate plus the argument's old coordinate; when the argument is this same object, both coordinates double |
| `IntPoints.IntPoint.Subtract` | src/net/zerobone/zerorobo/utils/IntPoint.java:21-24 | each coordinate becomes the old coordinate minus the argument's old coordinate; when aliased, both coordinates become zero |
| `IntPoints.IntPoint.Copy` | src/net/zerobone/zerorobo/utils/IntPoint.java:26-28 | the copy is a fresh object holding the same coordinates |
| `IntPoints.IntPoint.Equals` | src/net/zerobone/zerorobo/utils/IntPoint.java:30-41 | true exactly when the other object is a non-null `IntPoint` with the same coordinates |
| `IntPoints.IntPoint.HashCode` | src/net/zerobone/zerorobo/utils/IntPoint.java:43-46 | the hash is a 32-bit int congruent to `31 * (31 + x) + y` modulo 2^32 |
| `IntPoints.EqualsReflexive` | src/net/zerobone/zerorobo/utils/IntPoint.java:30-41 | every point equals itself |
| `IntPoints.EqualsSymmetric` | src/net/zerobone/zerorobo/utils/IntPoint.java:30-41 | `p.equals(q)` has the same value as `q.equals(p)` |
| `IntPoints.EqualsImpliesEqualHash` | src/net/zerobone/zerorobo/utils/IntPoint.java:30-46 | equal points have equal hash codes |
| `IntPoints.AddThenSubtract` | src/net/zerobone/zerorobo/utils/IntPoint.java:16-24 | adding a distinct point and then subtracting it restores the original coordinates and leaves the other point unchanged |
| `IntPoints.AddThenSubtractAliased` | src/net/zerobone/zerorobo/utils/IntPoint.java:16-24 | with aliasing the round trip fails: the point ends at (0,0) |
| `IntPoints.ShiftCopy` | src/net/zerobone/zerorobo/utils/IntPoint.java:16-28 | shifting a copy gives the sum and leaves the original unchanged |
| `IntPoints.SquaredDistance` | src/net/zerobone/zerorobo/behaviour/tiletactics/EscapeTactic.java:26 | the squared distance is non-negative and is zero exactly for equal cells |
| `IntPoints.SquaredDistanceOnCopy` | src/net/zerobone/zerorobo/behaviour/tiletactics/EscapeTactic.java:21-26 | copy, subtract and sum of squares gives the squared distance of the two points' values, zero exactly when they are `equals` |
| `Grid.TruncToInt` | src/net/zerobone/zerorobo/behaviour/ZeroRoboBehaviour.java:226-227 | the `(int)` cast: for a non-negative value, the integer `n` with `n <= r < n + 1`; for a negative value, rounding toward zero |
| `Grid.CellSize` | src/net/zerobone/zerorobo/behaviour/ZeroRoboBehaviour.java:234-235 | the integer cell size `w` satisfies `w * parts <= extent < (w + 1) * parts` |
| `Grid.AxisIndex` | src/net/zerobone/zerorobo/behaviour/ZeroRoboBehaviour.java:222-227 | a non-negative coordinate lies in `[i * span, (i + 1) * span)`, where span is the real cell size |
| `Grid.AxisCenter` | src/net/zerobone/zerorobo/behaviour/ZeroRoboBehaviour.java:234-239 | with a positive integer cell size, the centre lies strictly inside the integer-sized cell |
| `Grid.GetRobotQuad` | src/net/zerobone/zerorobo/behaviour/ZeroRoboBehaviour.java:220-230 | a position with non-negative coordinates lies inside the real-sized cell returned |
| `Grid.GetCenterOfQuad` | src/net/zerobone/zerorobo/behaviour/ZeroRoboBehaviour.java:232-242 | the centre lies strictly inside the integer-sized cell along both axes |
| `Grid.SlightlyNegativeMapsToFirstCell` | src/net/zerobone/zerorobo/behaviour/ZeroRoboBehaviour.java:222-227 | because the cast truncates toward zero, a coordinate less than one cell below zero maps to index 0 |
| `Grid.PositionInArenaIsInGrid` | src/net/zerobone/zerorobo/behaviour/ZeroRoboBehaviour.java:220-230 | a position inside the arena maps to a cell of the 4 x 3 layout |
| `Grid.RoundTripOnEvenArena` | src/net/zerobone/zerorobo/behaviour/ZeroRoboBehaviour.java:220-242 | if the width is a multiple of 4 and the height a multiple of 3, the centre of every layout cell maps back to that cell |
| `Grid.RoundTripOnWideArena` | src/net/zerobone/zerorobo/behaviour/ZeroRoboBehaviour.java:220-242 | on any arena at least 24 wide and 12 high, the centre of every layout cell maps back to that cell despite the truncated cell size |
| `Grid.RoundTripFailsOnTinyArena` | src/net/zerobone/zerorobo/behaviour/ZeroRoboBehaviour.java:232-242 | on a 7 x 3 arena the centre of cell (3,0) maps to cell (2,0), so the round trip needs the arena to be large enough |
| `Behaviour.NextQuad` | src/net/zerobone/zerorobo/behaviour/ZeroRoboBehaviour.java:244-286 | a cell is in the list exactly when it is on the layout, at most one step from our cell in each direction, and neither our cell nor the enemy's; the list is in column-then-row order with no repeats |
| `Behaviour.RemoveFirstEqual` | src/net/zerobone/zerorobo/behaviour/ZeroRoboBehaviour.java:146-157 | the first cell equal to the target is removed and nothing else; with a null or absent target the list is unchanged |
| `Behaviour.RemovedFirstMembers` | src/net/zerobone/zerorobo/behaviour/ZeroRoboBehaviour.java:148-155 | on a list without repeats, after the removal the list keeps its order and holds exactly the cells other than the target |
| `Behaviour.PlanFromCandidates` | src/net/zerobone/zerorobo/behaviour/ZeroRoboBehaviour.java:142-164 | the chosen cell is (0,0) when every candidate was the previous target; otherwise it is a candidate other than the previous target |
| `Behaviour.CandidateExistsInGrid` | src/net/zerobone/zerorobo/behaviour/ZeroRoboBehaviour.java:244-286 | when our cell is on the layout, some candidate other than the previous target always exists |
| `Behaviour.FallbackOnlyOffGrid` | src/net/zerobone/zerorobo/behaviour/ZeroRoboBehaviour.java:159-164 | when our cell is on the layout, the (0,0) fallback never fires |
| `Behaviour.PlanningNeverRepeatsTarget` | src/net/zerobone/zerorobo/behaviour/ZeroRoboBehaviour.java:138-166 | when planning runs, the previous target is null or our own cell, and the new target differs from it, the fallback included |
| `Behaviour.RemovalIsNoOpWhenPlanning` | src/net/zerobone/zerorobo/behaviour/ZeroRoboBehaviour.java:138-157 | when planning runs the removal of the previous target removes nothing, because the previous target is null or our cell, and `nextQuad` never offers our cell |
| `Behaviour.FireGate` | src/net/zerobone/zerorobo/behaviour/ZeroRoboBehaviour.java:92 | the gate is open exactly when the gun heat is at most 1e-5 and the gun turn remaining lies strictly between -10 and 10 |
| `Behaviour.ZeroRoboBehaviour.constructor` | src/net/zerobone/zerorobo/behaviour/ZeroRoboBehaviour.java:18-27 | there is no target, no tracked name and no enemy snapshot, and the invariant holds |
| `Behaviour.ZeroRoboBehaviour.UpdateShooting` | src/net/zerobone/zerorobo/behaviour/ZeroRoboBehaviour.java:100-110 | the enemy position, velocity, heading and distance are replaced by the scan's; the target and the tracked name are unchanged |
| `Behaviour.ZeroRoboBehaviour.SetTargetQuad` | src/net/zerobone/zerorobo/behaviour/ZeroRoboBehaviour.java:170-178 | the target cell is set and the target position is its centre; the enemy fields are unchanged |
| `Behaviour.ZeroRoboBehaviour.OnRobotScannedEvent` | src/net/zerobone/zerorobo/behaviour/ZeroRoboBehaviour.java:112-168 | a scan of a robot other than the tracked one changes nothing. An accepted scan locks the name and replaces the snapshot. The target is kept until our cell is the committed cell. Otherwise the new target is a planned target for our cell and the enemy's, and the target position is its centre. The invariant (target position is the centre of the target cell) is preserved |
| `Behaviour.ZeroRoboBehaviour.FireDecision` | src/net/zerobone/zerorobo/behaviour/ZeroRoboBehaviour.java:68-96 | a bullet is fired exactly when an enemy is tracked, the gun heat is at most 1e-5, and the gun turn remaining lies strictly between -10 and 10 |
| `TileTactics.CircleAccept` | src/net/zerobone/zerorobo/behaviour/tiletactics/CircleTactic.java:17-29 | the circle filter accepts exactly the cells one step from the enemy's cell along both axes |
| `TileTactics.CircleRejections` | src/net/zerobone/zerorobo/behaviour/tiletactics/CircleTactic.java:27 | the circle filter rejects the enemy's own cell, its orthogonal neighbours, and every cell two or more away along either axis |
| `TileTactics.CircleAcceptSymmetric` | src/net/zerobone/zerorobo/behaviour/tiletactics/CircleTactic.java:17-23 | the circle filter ignores our own cell, and mirroring a cell through the enemy's cell does not change the answer |
| `TileTactics.RamAcceptsOwnCellOnly` | src/net/zerobone/zerorobo/behaviour/tiletactics/RamTactic.java:17-19 | the ram filter `RamAccept` accepts exactly our own cell, and its answer does not depend on the enemy's cell |
| `TileTactics.RandomAccept` | src/net/zerobone/zerorobo/behaviour/tiletactics/RandomTactic.java:18-20 | the random filter accepts every cell |
| `TileTactics.LastFarthestIsUnique` | src/net/zerobone/zerorobo/behaviour/tiletactics/EscapeTactic.java:29-43 | the last index of maximum distance is unique, so the escape selection is determined by the list |
| `TileTactics.FarthestQuadIndex` | src/net/zerobone/zerorobo/behaviour/tiletactics/EscapeTactic.java:16-43 | on a non-empty list, the result indexes a cell whose squared distance to the enemy is the greatest; because of `>=`, it is the last such index |
| `TileTactics.EscapeTactic.constructor` | src/net/zerobone/zerorobo/behaviour/tiletactics/EscapeTactic.java:11 | the escape tactic starts with no previous pick |
| `TileTactics.EscapeTactic.GetNextQuad` | src/net/zerobone/zerorobo/behaviour/tiletactics/EscapeTactic.java:14-49 | the result is the last farthest cell of the list, it becomes the previous pick, and from then on the filter rejects it |
| `TileTactics.EscapeTactic.AcceptAvailableQuad` | src/net/zerobone/zerorobo/behaviour/tiletactics/EscapeTactic.java:51-59 | the escape filter rejects exactly the previous pick, and accepts every cell before any pick |
| `TileTactics.AcceptAvailableQuad` | src/net/zerobone/zerorobo/behaviour/ITileTactic.java:11 | the filter of the tactic in use: escape rejects exactly its previous pick, circle accepts exactly the enemy's diagonal neighbours, ram exactly our own cell, random every cell |
| `TileTactics.GetNextQuad` | src/net/zerobone/zerorobo/behaviour/ITileTactic.java:9 | the selection of any tactic returns a cell of the non-empty list. Circle and ram return the first cell. Escape returns the last farthest cell and remembers it. Only escape changes state |
| `TilePlanning.Filter` | src/net/zerobone/zerorobo/behaviour/ITileTactic.java:11 | a cell survives the filter exactly when it is in the list and the tactic accepts it; the filter keeps the order |
| `TilePlanning.RandomFilterKeepsAll` | src/net/zerobone/zerorobo/behaviour/tiletactics/RandomTactic.java:18-20 | the random tactic's filter returns the list unchanged |
| `TilePlanning.RamAcceptsNoCandidate` | src/net/zerobone/zerorobo/behaviour/tiletactics/RamTactic.java:17-19 | the ram filter accepts only our own cell, which `nextQuad` never offers, so it accepts no candidate |
| `TilePlanning.CircleAcceptedCandidates` | src/net/zerobone/zerorobo/behaviour/tiletactics/CircleTactic.java:17-29 | the candidates the circle filter accepts are exactly those diagonally next to the enemy's cell |
| `TilePlanning.RandomAgreesWithPlanner` | src/net/zerobone/zerorobo/behaviour/tiletactics/RandomTactic.java:13-20 | with the random tactic, a step falls back exactly when the planner falls back, and otherwise it may pick exactly the cells the planner may pick |
| `TilePlanning.PickableQuads` | src/net/zerobone/zerorobo/behaviour/ITileTactic.java:11 | the cells left after the filter and the removal are exactly the candidates the tactic accepts, other than the previous target, in scan order |
| `TilePlanning.SelectOrFallback` | src/net/zerobone/zerorobo/behaviour/ITileTactic.java:9 | with no cell left the result is (0,0) and no tactic state changes. Otherwise the result is a remaining cell: the first one for circle and ram, the last farthest one for escape, which remembers it. Only escape changes state, and only when it selects |
| `TilePlanning.LastFarthestIsLatest` | src/net/zerobone/zerorobo/behaviour/tiletactics/EscapeTactic.java:29-43 | in a list in scan order, the last farthest cell is at least as far as every cell and comes after every other cell just as far |
| `TilePlanning.PlanWithTactic` | src/net/zerobone/zerorobo/behaviour/ITileTactic.java:9-11 | the step falls back to (0,0) exactly when the tactic accepts no candidate, and then no tactic state changes. Otherwise it picks an accepted candidate. Escape picks the farthest, the last in scan order among equally far ones, and remembers it. Circle picks the first in scan order. Ram always falls back. Random makes a planned target of the planner's own step |

## Left out

- Trigonometry is not modelled: the enemy position computed from a scan (`calculateEnemyPosition`), the power, speed and lead arithmetic of `processShooting`, `go`, `getFutureX`/`getFutureY` and `absoluteBearing`. These are floating-point computations over `Math` calls, so both positions are inputs of `OnRobotScannedEvent`.
- Colours, `onPaint`, the radar spin and the event loop of `execute` are not modelled. They are host I/O. `FireDecision` models only the condition under which `execute` and `processShooting` fire.
- Host-adapter classes, event wrapper classes, `Point.java` and `Utils.java` are not part of this model. A scan is a plain record of name, bearing, distance, heading and velocity.
- `IntPoints.IntPoint.Add`: does not model Java's 32-bit wrap-around of the coordinates, because cell coordinates stay within the small 4 x 3 layout and its neighbours.
- `IntPoints.IntPoint.Subtract`: does not model 32-bit wrap-around, for the same reason.
- `TileTactics.FarthestQuadIndex`: the squared distance is unbounded, not a 32-bit int. Squared distances of layout cells are far below the 32-bit range.
- `java.util.Random` is not modelled. Both random picks are a nondeterministic choice of a valid index.
- Cells in the planner's lists are values, not shared `IntPoint` references. No list element is changed after it is created: `nextQuad` creates fresh points, and the escape tactic subtracts on copies. So reference aliasing inside lists is not modelled.
- `Grid.GetRobotQuad`: does not clamp a position to the layout, exactly as the source does. A coordinate at or beyond the far edge (x >= width or y >= height) gives a cell off the layout. A coordinate less than one cell below zero truncates to index 0 (`SlightlyNegativeMapsToFirstCell`). The contract states the cell only for non-negative coordinates; `PositionInArenaIsInGrid` states when the cell is on the layout.
- `Grid.RoundTripOnWideArena`: proved only for arenas at least 24 x 12. `Grid.RoundTripFailsOnTinyArena` shows that a size condition is needed. Robocode arenas are far larger.
- `TileBehaviour`, the class that composes `nextQuad` with a tactic, is not part of this model. `TilePlanning.PlanWithTactic` states the composition through the tactic contract in `ITileTactic.java`, including the (0,0) fallback of the planner.
- The random tactic's filter takes only the cell, not the 4-argument signature of the tactic contract. Its base class is not part of this model, so the model treats that filter as accepting every cell for every call.
