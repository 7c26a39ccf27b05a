/**
 * The robot's quad planner: it locks onto the first robot it scans, keeps
 * a snapshot of that enemy, and, whenever it stands in the cell it last
 * committed to, picks a new neighbouring cell to drive to.
 */
module Behaviour {

  import opened Optional
  import opened IntPoints
  import opened Grid

  /** What a radar scan reports about another robot. */
  datatype ScannedRobot = ScannedRobot(name: string, bearing: real, distance: real, heading: real, velocity: real)

  /**
   * A cell `nextQuad` offers from `myQuad`: on the layout, at most one step
   * away in each direction, and neither our own cell nor the enemy's.
   */
  predicate IsCandidate(c: Cell, myQuad: Cell, enemyQuad: Cell)
  {
    && InGrid(c)
    && -1 <= c.x - myQuad.x <= 1
    && -1 <= c.y - myQuad.y <= 1
    && c != myQuad
    && c != enemyQuad
  }

  /** Scan order of `nextQuad`: by column, then by row, both ascending. */
  predicate Precedes(a: Cell, b: Cell)
  {
    a.x < b.x || (a.x == b.x && a.y < b.y)
  }

  predicate StrictlyOrdered(s: seq<Cell>)
  {
    forall i, j :: 0 <= i < j < |s| ==> Precedes(s[i], s[j])
  }

  /**
   * `nextQuad`: the candidate cells around `myQuad`, clamped to the layout,
   * each exactly once and in scan order.
   */
  method NextQuad(myQuad: Cell, enemyQuad: Cell) returns (quads: seq<Cell>)
    ensures forall c :: c in quads <==> IsCandidate(c, myQuad, enemyQuad)
    ensures StrictlyOrdered(quads)
    ensures forall i, j :: 0 <= i < j < |quads| ==> quads[i] != quads[j]
  {
    var x := myQuad.x - 1;
    if x < 0 { x := 0; }
    var startY := myQuad.y - 1;
    if startY < 0 { startY := 0; }
    var maxX := myQuad.x + 1;
    if maxX >= Columns { maxX := Columns - 1; }
    var maxY := myQuad.y + 1;
    if maxY >= Rows { maxY := Rows - 1; }
    ghost var startX := x;
    quads := [];
    while x <= maxX
      invariant startX <= x
      invariant forall c :: c in quads <==> IsCandidate(c, myQuad, enemyQuad) && c.x < x
      invariant StrictlyOrdered(quads)
    {
      var y := startY;
      while y <= maxY
        invariant startX <= x <= maxX
        invariant startY <= y
        invariant forall c :: c in quads <==> IsCandidate(c, myQuad, enemyQuad) && (c.x < x || (c.x == x && c.y < y))
        invariant forall c :: c in quads ==> Precedes(c, Cell(x, y))
        invariant StrictlyOrdered(quads)
      {
        var possibleTarget := Cell(x, y);
        if possibleTarget == enemyQuad || possibleTarget == myQuad {
          y := y + 1;
          continue;
        }
        quads := quads + [possibleTarget];
        y := y + 1;
      }
      x := x + 1;
    }
  }

  /**
   * `r` is `quads` with the first cell equal to `target` taken out; when
   * `target` is null or absent, `r` is `quads` itself.
   */
  ghost predicate RemovedFirst(quads: seq<Cell>, target: Option<Cell>, r: seq<Cell>)
  {
    if target.Some? && target.value in quads then
      exists i :: 0 <= i < |quads| && quads[i] == target.value && target.value !in quads[..i] && r == quads[..i] + quads[i + 1..]
    else
      r == quads
  }

  /**
   * The anti-oscillation step of the planner: walk the list and remove the
   * first cell equal to the current target, then stop.
   */
  method RemoveFirstEqual(quads: seq<Cell>, target: Option<Cell>) returns (r: seq<Cell>)
    ensures RemovedFirst(quads, target, r)
    ensures |r| == if target.Some? && target.value in quads then |quads| - 1 else |quads|
  {
    r := quads;
    if |r| != 0 {
      var i := 0;
      while i < |r|
        invariant 0 <= i <= |r|
        invariant r == quads
        invariant target.Some? ==> target.value !in quads[..i]
      {
        if Some(r[i]) == target {
          r := r[..i] + r[i + 1..];
          return;
        }
        i := i + 1;
      }
    }
  }

  /** Every candidate is the previous target: after its removal none is left. */
  ghost predicate NoCandidateBesides(myQuad: Cell, enemyQuad: Cell, previous: Option<Cell>)
  {
    forall c :: IsCandidate(c, myQuad, enemyQuad) ==> Some(c) == previous
  }

  /**
   * The cells a planning step may commit to: cell (0,0) when no candidate
   * other than the previous target exists, otherwise any candidate other
   * than the previous target.
   */
  ghost predicate IsPlannedTarget(next: Cell, myQuad: Cell, enemyQuad: Cell, previous: Option<Cell>)
  {
    if NoCandidateBesides(myQuad, enemyQuad, previous) then
      next == Cell(0, 0)
    else
      IsCandidate(next, myQuad, enemyQuad) && Some(next) != previous
  }

  /** Removing one cell from a list without repetitions leaves no copy of it. */
  lemma {:induction false} RemovedCellIsGone(quads: seq<Cell>, i: int)
    requires StrictlyOrdered(quads) && 0 <= i < |quads|
    ensures forall c :: c in quads[..i] + quads[i + 1..] ==> c in quads && c != quads[i]
  {
    forall c | c in quads[..i] + quads[i + 1..]
      ensures c in quads && c != quads[i]
    {
      var j :| 0 <= j < |quads[..i] + quads[i + 1..]| && (quads[..i] + quads[i + 1..])[j] == c;
      if j < i {
        assert c == quads[j] && Precedes(quads[j], quads[i]);
      } else {
        assert c == quads[j + 1] && Precedes(quads[i], quads[j + 1]);
      }
    }
  }

  /** Removing the cell at index `i` keeps every cell at another index. */
  lemma RemovedAtKeepsOthers(quads: seq<Cell>, i: int, c: Cell)
    requires 0 <= i < |quads|
    requires c in quads && c != quads[i]
    ensures c in quads[..i] + quads[i + 1..]
  {
    var j :| 0 <= j < |quads| && quads[j] == c;
    if j < i {
      assert (quads[..i] + quads[i + 1..])[j] == c;
    } else {
      assert (quads[..i] + quads[i + 1..])[j - 1] == c;
    }
  }

  /** Removing the cell at index `i` keeps the scan order. */
  lemma RemovedAtKeepsOrder(quads: seq<Cell>, i: int)
    requires StrictlyOrdered(quads) && 0 <= i < |quads|
    ensures StrictlyOrdered(quads[..i] + quads[i + 1..])
  {
    var r := quads[..i] + quads[i + 1..];
    forall a, b | 0 <= a < b < |r|
      ensures Precedes(r[a], r[b])
    {
      var a' := if a < i then a else a + 1;
      var b' := if b < i then b else b + 1;
      assert r[a] == quads[a'] && r[b] == quads[b'];
    }
  }

  /**
   * Removing the first copy of `target` from a list in scan order keeps the
   * scan order and leaves exactly the cells other than `target`.
   */
  lemma RemovedFirstMembers(quads: seq<Cell>, target: Option<Cell>, r: seq<Cell>)
    requires StrictlyOrdered(quads)
    requires RemovedFirst(quads, target, r)
    ensures StrictlyOrdered(r)
    ensures forall c :: c in r <==> c in quads && Some(c) != target
  {
    if target.Some? && target.value in quads {
      var i :| 0 <= i < |quads| && quads[i] == target.value && target.value !in quads[..i] && r == quads[..i] + quads[i + 1..];
      RemovedCellIsGone(quads, i);
      RemovedAtKeepsOrder(quads, i);
      forall c | c in quads && Some(c) != target
        ensures c in r
      {
        RemovedAtKeepsOthers(quads, i, c);
      }
    }
  }

  /**
   * The candidate list, thinned by the removal of the previous target,
   * yields a planned target: (0,0) when it became empty, any of its cells
   * otherwise.
   */
  lemma PlanFromCandidates(quads: seq<Cell>, myQuad: Cell, enemyQuad: Cell, previous: Option<Cell>, r: seq<Cell>, next: Cell)
    requires forall c :: c in quads <==> IsCandidate(c, myQuad, enemyQuad)
    requires StrictlyOrdered(quads)
    requires RemovedFirst(quads, previous, r)
    requires if |r| == 0 then next == Cell(0, 0) else next in r
    ensures IsPlannedTarget(next, myQuad, enemyQuad, previous)
  {
    RemovedFirstMembers(quads, previous, r);
    if |r| == 0 {
      forall c | IsCandidate(c, myQuad, enemyQuad)
        ensures Some(c) == previous
      {
        assert c !in r;
      }
    } else {
      assert IsCandidate(next, myQuad, enemyQuad) && Some(next) != previous;
    }
  }

  /**
   * With our own cell on the layout there are always two candidates, so a
   * candidate other than the previous target always exists.
   */
  lemma CandidateExistsInGrid(myQuad: Cell, enemyQuad: Cell, previous: Option<Cell>)
    requires InGrid(myQuad)
    ensures !NoCandidateBesides(myQuad, enemyQuad, previous)
  {
    var dx := if myQuad.x < Columns - 1 then 1 else -1;
    var dy := if myQuad.y < Rows - 1 then 1 else -1;
    var a := Cell(myQuad.x + dx, myQuad.y);
    var b := Cell(myQuad.x, myQuad.y + dy);
    var c := Cell(myQuad.x + dx, myQuad.y + dy);
    var pick :=
      if a != enemyQuad && Some(a) != previous then a
      else if b != enemyQuad && Some(b) != previous then b
      else c;
    assert IsCandidate(pick, myQuad, enemyQuad) && Some(pick) != previous;
  }

  /** While our own cell is on the layout, the (0,0) fallback never fires. */
  lemma FallbackOnlyOffGrid(next: Cell, myQuad: Cell, enemyQuad: Cell, previous: Option<Cell>)
    requires InGrid(myQuad)
    requires IsPlannedTarget(next, myQuad, enemyQuad, previous)
    ensures IsCandidate(next, myQuad, enemyQuad) && Some(next) != previous
  {
    CandidateExistsInGrid(myQuad, enemyQuad, previous);
  }

  /**
   * Planning only runs when there is no target yet or we stand on it; the
   * cell it then commits to is never the one it committed to before, the
   * fallback included.
   */
  lemma PlanningNeverRepeatsTarget(next: Cell, myQuad: Cell, enemyQuad: Cell, previous: Option<Cell>)
    requires previous.None? || previous == Some(myQuad)
    requires IsPlannedTarget(next, myQuad, enemyQuad, previous)
    ensures Some(next) != previous
  {
    if NoCandidateBesides(myQuad, enemyQuad, previous) {
      if InGrid(myQuad) {
        CandidateExistsInGrid(myQuad, enemyQuad, previous);
      }
      assert !InGrid(myQuad);
    }
  }

  /**
   * When planning runs, the previous target is null or our own cell, and
   * `nextQuad` never offers our own cell: the removal step removes nothing.
   */
  lemma RemovalIsNoOpWhenPlanning(quads: seq<Cell>, myQuad: Cell, enemyQuad: Cell, previous: Option<Cell>, r: seq<Cell>)
    requires forall c :: c in quads <==> IsCandidate(c, myQuad, enemyQuad)
    requires previous.None? || previous == Some(myQuad)
    requires RemovedFirst(quads, previous, r)
    ensures r == quads
  {
  }

  function Abs(v: real): real
  {
    if v < 0.0 then -v else v
  }

  /** The fire condition of `processShooting`: the gun has cooled down and is nearly on target. */
  predicate FireGate(gunHeat: real, gunTurnRemaining: real): (open: bool)
    ensures open <==> gunHeat <= 0.00001 && -10.0 < gunTurnRemaining < 10.0
  {
    gunHeat <= 0.00001 && Abs(gunTurnRemaining) < 10.0
  }

  /** The planner and enemy tracker of the robot. */
  class ZeroRoboBehaviour {

    const battleFieldWidth: real
    const battleFieldHeight: real

    var targetPosition: Option<Position>
    var targetQuad: Option<Cell>
    var trackingTankName: Option<string>

    var enemyPosition: Option<Position>
    var enemyVelocity: real
    var enemyHeading: real
    var distanceToEnemy: real

    /**
     * The target position is always the centre of the target cell, a
     * target exists only once an enemy is tracked, and the enemy position
     * is known exactly when an enemy is tracked (so shooting never reads a
     * missing position).
     */
    ghost predicate Valid()
      reads this
    {
      TargetValid() && (enemyPosition.Some? <==> trackingTankName.Some?)
    }

    /** The part of `Valid` about the target, which holds between the steps of a scan too. */
    ghost predicate TargetValid()
      reads this
    {
      && battleFieldWidth > 0.0 && battleFieldHeight > 0.0
      && (targetQuad.Some? <==> targetPosition.Some?)
      && (targetQuad.Some? ==> targetPosition.value == GetCenterOfQuad(targetQuad.value, battleFieldWidth, battleFieldHeight))
      && (targetQuad.Some? ==> trackingTankName.Some?)
    }

    constructor (width: real, height: real)
      requires width > 0.0 && height > 0.0
      ensures Valid()
      ensures battleFieldWidth == width && battleFieldHeight == height
      ensures targetPosition == None && targetQuad == None && trackingTankName == None
      ensures enemyPosition == None && enemyVelocity == 0.0 && enemyHeading == 0.0 && distanceToEnemy == 0.0
    {
      battleFieldWidth := width;
      battleFieldHeight := height;
      targetPosition := None;
      targetQuad := None;
      trackingTankName := None;
      enemyPosition := None;
      enemyVelocity := 0.0;
      enemyHeading := 0.0;
      distanceToEnemy := 0.0;
    }

    /** `getRobotQuad` on this robot's arena. */
    function QuadOf(p: Position): Cell
      requires battleFieldWidth > 0.0 && battleFieldHeight > 0.0
    {
      GetRobotQuad(p, battleFieldWidth, battleFieldHeight)
    }

    /** `updateShooting`: replace the enemy snapshot with the scanned values. */
    method UpdateShooting(event: ScannedRobot, newEnemyPosition: Position)
      requires TargetValid() && trackingTankName.Some?
      modifies this
      ensures Valid()
      ensures enemyPosition == Some(newEnemyPosition)
      ensures enemyVelocity == event.velocity && enemyHeading == event.heading && distanceToEnemy == event.distance
      ensures targetQuad == old(targetQuad) && targetPosition == old(targetPosition)
      ensures trackingTankName == old(trackingTankName)
    {
      enemyPosition := Some(newEnemyPosition);
      enemyVelocity := event.velocity;
      enemyHeading := event.heading;
      distanceToEnemy := event.distance;
    }

    /** `setTargetQuad`: commit to cell `q` and drive to its centre. */
    method SetTargetQuad(q: Cell)
      requires Valid() && trackingTankName.Some?
      modifies this
      ensures Valid()
      ensures targetQuad == Some(q)
      ensures targetPosition == Some(GetCenterOfQuad(q, battleFieldWidth, battleFieldHeight))
      ensures trackingTankName == old(trackingTankName) && enemyPosition == old(enemyPosition)
      ensures enemyVelocity == old(enemyVelocity) && enemyHeading == old(enemyHeading)
      ensures distanceToEnemy == old(distanceToEnemy)
    {
      targetQuad := Some(q);
      targetPosition := Some(GetCenterOfQuad(q, battleFieldWidth, battleFieldHeight));
    }

    /**
     * `onRobotScannedEvent`. Our own position and the enemy's position
     * (computed from the scan by trigonometry) are given.
     */
    method OnRobotScannedEvent(event: ScannedRobot, myPosition: Position, newEnemyPosition: Position)
      requires Valid()
      modifies this
      ensures Valid()
      // lock-on: a scan of another robot than the tracked one changes nothing
      ensures old(trackingTankName).Some? && old(trackingTankName).value != event.name ==> unchanged(this)
      // an accepted scan: the first scanned name is locked and the snapshot replaced
      ensures old(trackingTankName).None? || old(trackingTankName).value == event.name ==>
                && trackingTankName == Some(event.name)
                && enemyPosition == Some(newEnemyPosition)
                && enemyVelocity == event.velocity && enemyHeading == event.heading
                && distanceToEnemy == event.distance
      // not yet in the committed cell: the target stays
      ensures (old(trackingTankName).None? || old(trackingTankName).value == event.name) &&
              old(targetQuad).Some? && old(targetQuad).value != QuadOf(myPosition) ==>
                targetQuad == old(targetQuad) && targetPosition == old(targetPosition)
      // planning: the new target is a planned target for our cell and the enemy's
      ensures (old(trackingTankName).None? || old(trackingTankName).value == event.name) &&
              (old(targetQuad).None? || old(targetQuad).value == QuadOf(myPosition)) ==>
                && targetQuad.Some?
                && IsPlannedTarget(targetQuad.value, QuadOf(myPosition), QuadOf(newEnemyPosition), old(targetQuad))
                && targetPosition == Some(GetCenterOfQuad(targetQuad.value, battleFieldWidth, battleFieldHeight))
    {
      if trackingTankName.Some? && trackingTankName.value != event.name {
        return;
      }
      if trackingTankName.None? {
        trackingTankName := Some(event.name);
      }

      UpdateShooting(event, newEnemyPosition);

      var myQuad := QuadOf(myPosition);
      var enemyQuad := QuadOf(newEnemyPosition);

      if targetQuad.Some? && targetQuad.value != myQuad {
        return;
      }

      var nextQuads := NextQuad(myQuad, enemyQuad);
      var remaining := RemoveFirstEqual(nextQuads, targetQuad);

      var nextQuad: Cell;
      if |remaining| == 0 {
        nextQuad := Cell(0, 0);
      } else {
        // `new Random().nextInt(size)`: any valid index
        var k :| 0 <= k < |remaining|;
        nextQuad := remaining[k];
      }
      PlanFromCandidates(nextQuads, myQuad, enemyQuad, targetQuad, remaining, nextQuad);

      SetTargetQuad(nextQuad);
    }

    /**
     * The shooting decision of `execute` and `processShooting`: a bullet is
     * fired only while an enemy is tracked and the fire gate is open.
     */
    method FireDecision(gunHeat: real, gunTurnRemaining: real) returns (fire: bool)
      ensures fire <==> trackingTankName.Some? && gunHeat <= 0.00001 && -10.0 < gunTurnRemaining < 10.0
    {
      fire := false;
      if trackingTankName.Some? {
        fire := FireGate(gunHeat, gunTurnRemaining);
      }
    }
  }
}
