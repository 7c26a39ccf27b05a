/**
 * A planning step driven by a tile tactic, following the two-method
 * contract every tactic implements: the candidate cells of `nextQuad` are
 * thinned by the tactic's filter and by the removal of the previous
 * target, and the tactic's selection picks one of the survivors; with no
 * survivor the step falls back to cell (0,0), as the planner does.
 */
module TilePlanning {

  import opened Optional
  import opened IntPoints
  import opened Grid
  import opened Behaviour
  import opened TileTactics

  /** The cells of `quads` the tactic accepts, in their original order. */
  function Filter(t: Tactic, quads: seq<Cell>, myQuad: Cell, enemyQuad: Cell): (r: seq<Cell>)
    reads State(t)
    ensures forall c :: c in r <==> c in quads && AcceptAvailableQuad(t, c, myQuad, enemyQuad)
    ensures |r| <= |quads|
    ensures StrictlyOrdered(quads) ==> StrictlyOrdered(r)
  {
    if |quads| == 0 then
      []
    else
      var rest := Filter(t, quads[1..], myQuad, enemyQuad);
      assert forall c :: c in quads <==> c == quads[0] || c in quads[1..];
      assert StrictlyOrdered(quads) ==> forall c :: c in rest ==> Precedes(quads[0], c);
      if AcceptAvailableQuad(t, quads[0], myQuad, enemyQuad) then [quads[0]] + rest else rest
  }

  /** The random tactic's filter keeps every cell. */
  lemma {:induction false} RandomFilterKeepsAll(quads: seq<Cell>, myQuad: Cell, enemyQuad: Cell)
    ensures Filter(Random, quads, myQuad, enemyQuad) == quads
  {
    if |quads| != 0 {
      RandomFilterKeepsAll(quads[1..], myQuad, enemyQuad);
      assert [quads[0]] + quads[1..] == quads;
    }
  }

  /**
   * A cell the step may pick: a candidate of `nextQuad` that the tactic
   * accepts and that is not the previous target.
   */
  ghost predicate Accepted(t: Tactic, c: Cell, myQuad: Cell, enemyQuad: Cell, previous: Option<Cell>)
    reads State(t)
  {
    IsCandidate(c, myQuad, enemyQuad) && AcceptAvailableQuad(t, c, myQuad, enemyQuad) && Some(c) != previous
  }

  /**
   * The ram tactic accepts only our own cell, which `nextQuad` never
   * offers: it accepts no candidate at all.
   */
  lemma RamAcceptsNoCandidate(c: Cell, myQuad: Cell, enemyQuad: Cell, previous: Option<Cell>)
    ensures !Accepted(Ram, c, myQuad, enemyQuad, previous)
  {
  }

  /**
   * The circle tactic accepts the candidates that are diagonal neighbours of
   * both our cell and the enemy's cell.
   */
  lemma CircleAcceptedCandidates(c: Cell, myQuad: Cell, enemyQuad: Cell, previous: Option<Cell>)
    ensures Accepted(Circle, c, myQuad, enemyQuad, previous) <==>
              && IsCandidate(c, myQuad, enemyQuad) && Some(c) != previous
              && UnitApart(enemyQuad.x, c.x) && UnitApart(enemyQuad.y, c.y)
  {
  }

  /**
   * With the random tactic, the cells a step may pick are those of the
   * planner's own step: fallback exactly when the planner falls back, and
   * otherwise the same candidates.
   */
  lemma RandomAgreesWithPlanner(next: Cell, myQuad: Cell, enemyQuad: Cell, previous: Option<Cell>)
    ensures (exists c :: Accepted(Random, c, myQuad, enemyQuad, previous)) <==> !NoCandidateBesides(myQuad, enemyQuad, previous)
    ensures IsPlannedTarget(next, myQuad, enemyQuad, previous) <==>
              if NoCandidateBesides(myQuad, enemyQuad, previous) then next == Cell(0, 0)
              else Accepted(Random, next, myQuad, enemyQuad, previous)
  {
    if !NoCandidateBesides(myQuad, enemyQuad, previous) {
      var c :| IsCandidate(c, myQuad, enemyQuad) && Some(c) != previous;
      assert Accepted(Random, c, myQuad, enemyQuad, previous);
    }
  }

  /**
   * The first half of a step: the candidates of `nextQuad`, thinned by the
   * tactic's filter and by the removal of the previous target. Nothing
   * changes.
   */
  method PickableQuads(t: Tactic, myQuad: Cell, enemyQuad: Cell, previous: Option<Cell>) returns (remaining: seq<Cell>)
    ensures StrictlyOrdered(remaining)
    ensures forall c :: c in remaining <==> Accepted(t, c, myQuad, enemyQuad, previous)
  {
    var candidates := NextQuad(myQuad, enemyQuad);
    var accepted := Filter(t, candidates, myQuad, enemyQuad);
    remaining := RemoveFirstEqual(accepted, previous);
    RemovedFirstMembers(accepted, previous, remaining);
  }

  /**
   * The second half of a step: the tactic's selection from the remaining
   * cells, or cell (0,0) when none remains.
   */
  method SelectOrFallback(t: Tactic, remaining: seq<Cell>, myQuad: Cell, enemyQuad: Cell) returns (next: Cell)
    requires StrictlyOrdered(remaining)
    modifies State(t)
    ensures |remaining| == 0 ==> next == Cell(0, 0)
    ensures |remaining| != 0 ==> next in remaining
    ensures t.Escape? && |remaining| != 0 ==>
              && t.escape.previousPoint == Some(next)
              && exists k :: IsLastFarthest(remaining, enemyQuad, k) && next == remaining[k]
    ensures (t.Circle? || t.Ram?) && |remaining| != 0 ==> next == remaining[0]
    ensures !t.Escape? || |remaining| == 0 ==> unchanged(State(t))
  {
    if |remaining| == 0 {
      next := Cell(0, 0);
    } else {
      next := GetNextQuad(t, remaining, myQuad, enemyQuad);
    }
  }

  /**
   * In a list in scan order, the last farthest cell comes after every other
   * cell just as far.
   */
  lemma LastFarthestIsLatest(quads: seq<Cell>, enemyQuad: Cell, k: int)
    requires StrictlyOrdered(quads) && IsLastFarthest(quads, enemyQuad, k)
    ensures forall c :: c in quads ==>
              && SquaredDistance(c, enemyQuad) <= SquaredDistance(quads[k], enemyQuad)
              && (SquaredDistance(c, enemyQuad) == SquaredDistance(quads[k], enemyQuad) ==> c == quads[k] || Precedes(c, quads[k]))
  {
    forall c | c in quads
      ensures SquaredDistance(c, enemyQuad) == SquaredDistance(quads[k], enemyQuad) ==> c == quads[k] || Precedes(c, quads[k])
    {
      var j :| 0 <= j < |quads| && quads[j] == c;
      if j < k {
        assert Precedes(quads[j], quads[k]);
      }
    }
  }

  /**
   * One planning step with tactic `t`, from our cell, the enemy's cell and
   * the previous target. The filter reads the tactic's state before the
   * selection may change it.
   */
  method PlanWithTactic(t: Tactic, myQuad: Cell, enemyQuad: Cell, previous: Option<Cell>) returns (next: Cell)
    modifies State(t)
    // fallback exactly when no candidate is accepted
    ensures (forall c :: !old(Accepted(t, c, myQuad, enemyQuad, previous))) ==> next == Cell(0, 0)
    ensures (exists c :: old(Accepted(t, c, myQuad, enemyQuad, previous))) ==> old(Accepted(t, next, myQuad, enemyQuad, previous))
    // on the fallback no tactic state changes
    ensures (forall c :: !old(Accepted(t, c, myQuad, enemyQuad, previous))) ==> unchanged(State(t))
    // escape: the farthest accepted candidate, the last in scan order among
    // equally far ones, remembered as the previous pick
    ensures t.Escape? && (exists c :: old(Accepted(t, c, myQuad, enemyQuad, previous))) ==>
              && t.escape.previousPoint == Some(next)
              && forall c :: old(Accepted(t, c, myQuad, enemyQuad, previous)) ==>
                   && SquaredDistance(c, enemyQuad) <= SquaredDistance(next, enemyQuad)
                   && (SquaredDistance(c, enemyQuad) == SquaredDistance(next, enemyQuad) ==> c == next || Precedes(c, next))
    // circle: the first accepted candidate in scan order
    ensures t.Circle? ==> forall c :: Accepted(t, c, myQuad, enemyQuad, previous) ==> c == next || Precedes(next, c)
    // ram: nothing is ever accepted
    ensures t.Ram? ==> next == Cell(0, 0)
    // random: exactly the planner's own step
    ensures t.Random? ==> IsPlannedTarget(next, myQuad, enemyQuad, previous)
    ensures !t.Escape? ==> unchanged(State(t))
  {
    var remaining := PickableQuads(t, myQuad, enemyQuad, previous);
    assert forall c :: c in remaining <==> old(Accepted(t, c, myQuad, enemyQuad, previous));
    next := SelectOrFallback(t, remaining, myQuad, enemyQuad);
    if t.Escape? && |remaining| != 0 {
      var k :| IsLastFarthest(remaining, enemyQuad, k) && next == remaining[k];
      LastFarthestIsLatest(remaining, enemyQuad, k);
    }
    if t.Ram? {
      RamAcceptsNoCandidate(next, myQuad, enemyQuad, previous);
    }
    if t.Random? {
      RandomAgreesWithPlanner(next, myQuad, enemyQuad, previous);
    }
  }
}
