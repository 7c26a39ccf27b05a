/**
 * The four tile tactics. Each one has two operations: a filter that says
 * whether a candidate cell is acceptable, and a selection that picks the
 * next cell from a non-empty list of accepted cells. The set of tactics is
 * closed, so they are one datatype with a case per tactic.
 */
module TileTactics {

  import opened Optional
  import opened IntPoints

  // ---------------------------------------------------------------- Circle

  /** One step away along an axis. */
  predicate UnitApart(a: int, b: int)
  {
    a - b == 1 || b - a == 1
  }

  /** A square of a non-negative integer is 0, 1, or at least 4. */
  lemma SquareGaps(n: int)
    requires n >= 0
    ensures n == 0 ==> n * n == 0
    ensures n == 1 ==> n * n == 1
    ensures n >= 2 ==> n * n >= 4
  {
    if n >= 2 {
      assert n * n >= 2 * n;
    }
  }

  /**
   * `CircleTactic.acceptAvailableQuad`: the absolute offsets from the
   * enemy's cell, squared and summed, must be 2. That holds exactly for the
   * four cells diagonally adjacent to the enemy's cell.
   */
  predicate CircleAccept(quad: Cell, myQuad: Cell, enemyQuad: Cell): (accepted: bool)
    ensures accepted <==> UnitApart(enemyQuad.x, quad.x) && UnitApart(enemyQuad.y, quad.y)
  {
    var diffX := enemyQuad.x - quad.x;
    var diffY := enemyQuad.y - quad.y;
    var absX := if diffX < 0 then -diffX else diffX;
    var absY := if diffY < 0 then -diffY else diffY;
    SquareGaps(absX);
    SquareGaps(absY);
    absX * absX + absY * absY == 2
  }

  /**
   * The circle tactic rejects the enemy's own cell, the cells orthogonally
   * next to it, and every cell two or more columns or rows away from it.
   */
  lemma CircleRejections(myQuad: Cell, enemyQuad: Cell, d: int)
    ensures !CircleAccept(enemyQuad, myQuad, enemyQuad)
    ensures d == 1 || d == -1 ==>
              !CircleAccept(Cell(enemyQuad.x + d, enemyQuad.y), myQuad, enemyQuad) &&
              !CircleAccept(Cell(enemyQuad.x, enemyQuad.y + d), myQuad, enemyQuad)
    ensures forall quad: Cell :: (quad.x - enemyQuad.x >= 2 || enemyQuad.x - quad.x >= 2 ||
                                  quad.y - enemyQuad.y >= 2 || enemyQuad.y - quad.y >= 2) ==>
              !CircleAccept(quad, myQuad, enemyQuad)
  {
  }

  /**
   * The circle filter ignores our own cell and the signs of the offsets:
   * mirroring a cell through the enemy's cell does not change the answer.
   */
  lemma CircleAcceptSymmetric(quad: Cell, myQuad: Cell, otherQuad: Cell, enemyQuad: Cell)
    ensures CircleAccept(quad, myQuad, enemyQuad) == CircleAccept(quad, otherQuad, enemyQuad)
    ensures CircleAccept(quad, myQuad, enemyQuad) ==
            CircleAccept(Cell(2 * enemyQuad.x - quad.x, 2 * enemyQuad.y - quad.y), myQuad, enemyQuad)
  {
  }

  // ------------------------------------------------------------------- Ram

  /** `RamTactic.acceptAvailableQuad`: only our own cell is acceptable. */
  predicate RamAccept(quad: Cell, myQuad: Cell, enemyQuad: Cell)
  {
    quad == myQuad
  }

  /** The ram filter accepts exactly our own cell, whatever the enemy's cell. */
  lemma RamAcceptsOwnCellOnly(quad: Cell, myQuad: Cell, enemyQuad: Cell, otherEnemyQuad: Cell)
    ensures RamAccept(quad, myQuad, enemyQuad) <==> quad == myQuad
    ensures RamAccept(quad, myQuad, enemyQuad) == RamAccept(quad, myQuad, otherEnemyQuad)
  {
  }

  // ---------------------------------------------------------------- Random

  /**
   * `RandomTactic.acceptAvailableQuad`: every cell is acceptable. Unlike the
   * others it takes only the cell, not our cell or the enemy's.
   */
  predicate RandomAccept(quad: Cell): (accepted: bool)
    ensures accepted
  {
    true
  }

  // ---------------------------------------------------------------- Escape

  /**
   * Index `k` is the last index of `quads` whose cell is farthest from the
   * enemy's cell: none is farther, and none after it is as far.
   */
  predicate IsLastFarthest(quads: seq<Cell>, enemyQuad: Cell, k: int)
  {
    && 0 <= k < |quads|
    && (forall j :: 0 <= j < |quads| ==> SquaredDistance(quads[j], enemyQuad) <= SquaredDistance(quads[k], enemyQuad))
    && (forall j :: k < j < |quads| ==> SquaredDistance(quads[j], enemyQuad) < SquaredDistance(quads[k], enemyQuad))
  }

  /** The last farthest index is unique. */
  lemma LastFarthestIsUnique(quads: seq<Cell>, enemyQuad: Cell, k1: int, k2: int)
    requires IsLastFarthest(quads, enemyQuad, k1) && IsLastFarthest(quads, enemyQuad, k2)
    ensures k1 == k2
  {
    // each is at least as far as the other, so they tie, and a tie after
    // either index is ruled out by its second clause
    assert SquaredDistance(quads[k1], enemyQuad) <= SquaredDistance(quads[k2], enemyQuad);
    assert SquaredDistance(quads[k2], enemyQuad) <= SquaredDistance(quads[k1], enemyQuad);
  }

  /**
   * The scan of `EscapeTactic.getNextQuad`: a running maximum of the squared
   * distance to the enemy's cell, where `>=` lets a later tie win.
   */
  method FarthestQuadIndex(quads: seq<Cell>, enemyQuad: Cell) returns (farthestQuadIndex: int)
    requires |quads| > 0
    ensures IsLastFarthest(quads, enemyQuad, farthestQuadIndex)
  {
    farthestQuadIndex := 0;
    var maxDistance := SquaredDistance(quads[0], enemyQuad);
    var i := 1;
    while i < |quads|
      invariant 1 <= i <= |quads|
      invariant 0 <= farthestQuadIndex < i
      invariant maxDistance == SquaredDistance(quads[farthestQuadIndex], enemyQuad)
      invariant forall j :: 0 <= j < i ==> SquaredDistance(quads[j], enemyQuad) <= maxDistance
      invariant forall j :: farthestQuadIndex < j < i ==> SquaredDistance(quads[j], enemyQuad) < maxDistance
    {
      var currentDistance := SquaredDistance(quads[i], enemyQuad);
      if currentDistance >= maxDistance {
        maxDistance := currentDistance;
        farthestQuadIndex := i;
      }
      i := i + 1;
    }
  }

  /** The escape tactic; it remembers the cell it picked last. */
  class EscapeTactic {

    var previousPoint: Option<Cell>

    constructor ()
      ensures previousPoint == None
    {
      previousPoint := None;
    }

    /**
     * `acceptAvailableQuad`: every cell except the one picked last; before
     * any pick, every cell.
     */
    predicate AcceptAvailableQuad(quad: Cell, myQuad: Cell, enemyQuad: Cell): (accepted: bool)
      reads this
      ensures accepted <==> previousPoint != Some(quad)
      ensures previousPoint.None? ==> accepted
    {
      if Some(quad) == previousPoint then false else Some(quad) != previousPoint
    }

    /**
     * `getNextQuad`: the last cell farthest from the enemy's cell, which
     * becomes the cell the filter rejects from then on. The list itself is
     * not changed.
     */
    method GetNextQuad(availableQuads: seq<Cell>, myQuad: Cell, enemyQuad: Cell) returns (r: Cell)
      requires |availableQuads| > 0
      modifies this
      ensures exists k :: IsLastFarthest(availableQuads, enemyQuad, k) && r == availableQuads[k]
      ensures previousPoint == Some(r)
      ensures !AcceptAvailableQuad(r, myQuad, enemyQuad)
    {
      var k := FarthestQuadIndex(availableQuads, enemyQuad);
      previousPoint := Some(availableQuads[k]);
      r := previousPoint.value;
    }
  }

  // -------------------------------------------------------------- Dispatch

  /** The tactic in use; only the escape tactic carries state. */
  datatype Tactic = Escape(escape: EscapeTactic) | Circle | Ram | Random

  /** The objects a tactic reads and may change. */
  function State(t: Tactic): set<object>
  {
    if t.Escape? then {t.escape} else {}
  }

  /**
   * `acceptAvailableQuad` of the tactic in use: escape rejects only its
   * previous pick, circle accepts the enemy's diagonal neighbours, ram our
   * own cell, random every cell.
   */
  predicate AcceptAvailableQuad(t: Tactic, quad: Cell, myQuad: Cell, enemyQuad: Cell): (accepted: bool)
    reads State(t)
    ensures t.Escape? ==> (accepted <==> t.escape.previousPoint != Some(quad))
    ensures t.Circle? ==> (accepted <==> UnitApart(enemyQuad.x, quad.x) && UnitApart(enemyQuad.y, quad.y))
    ensures t.Ram? ==> (accepted <==> quad == myQuad)
    ensures t.Random? ==> accepted
  {
    match t
    case Escape(e) => e.AcceptAvailableQuad(quad, myQuad, enemyQuad)
    case Circle => CircleAccept(quad, myQuad, enemyQuad)
    case Ram => RamAccept(quad, myQuad, enemyQuad)
    case Random => RandomAccept(quad)
  }

  /**
   * `getNextQuad` of the tactic in use. The circle and ram tactics take the
   * first cell, the random tactic any cell, the escape tactic the last
   * farthest one. Only the escape tactic changes state.
   */
  method GetNextQuad(t: Tactic, availableQuads: seq<Cell>, myQuad: Cell, enemyQuad: Cell) returns (r: Cell)
    requires |availableQuads| > 0
    modifies State(t)
    ensures r in availableQuads
    ensures t.Circle? || t.Ram? ==> r == availableQuads[0]
    ensures t.Escape? ==> exists k :: IsLastFarthest(availableQuads, enemyQuad, k) && r == availableQuads[k]
    ensures t.Escape? ==> t.escape.previousPoint == Some(r)
  {
    match t
    case Escape(e) =>
      r := e.GetNextQuad(availableQuads, myQuad, enemyQuad);
    case Circle =>
      r := availableQuads[0];
    case Ram =>
      r := availableQuads[0];
    case Random =>
      // `new Random().nextInt(size)`: any valid index
      var k :| 0 <= k < |availableQuads|;
      r := availableQuads[k];
  }
}
