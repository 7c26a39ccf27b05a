/**
 * The integer grid point of the robot: a mutable pair of coordinates with
 * in-place addition and subtraction, a copy operation and value equality.
 * `Cell` is the value such a point holds; the planner and the tactics work
 * on cells.
 */
module IntPoints {

  /** The value of an `IntPoint`: a column `x` and a row `y`. */
  datatype Cell = Cell(x: int, y: int)

  /** Component-wise difference, as `IntPoint.subtract` computes it. */
  function Minus(a: Cell, b: Cell): Cell
  {
    Cell(a.x - b.x, a.y - b.y)
  }

  /** Component-wise sum, as `IntPoint.add` computes it. */
  function Plus(a: Cell, b: Cell): Cell
  {
    Cell(a.x + b.x, a.y + b.y)
  }

  /**
   * The squared Euclidean distance between two cells, computed as the
   * tactics do: subtract, then add the squares of the components.
   */
  function SquaredDistance(a: Cell, b: Cell): (d: int)
    ensures d >= 0
    ensures d == 0 <==> a == b
  {
    var diff := Minus(a, b);
    assert diff.x * diff.x >= 0 && diff.y * diff.y >= 0;
    assert diff.x != 0 ==> diff.x * diff.x > 0;
    assert diff.y != 0 ==> diff.y * diff.y > 0;
    diff.x * diff.x + diff.y * diff.y
  }

  const JavaIntModulus: int := 0x1_0000_0000
  const JavaIntMin: int := -0x8000_0000

  /** Reduces an integer to Java's 32-bit `int` range, wrapping around as Java's arithmetic does. */
  function WrapToJavaInt(n: int): (r: int)
    ensures JavaIntMin <= r < JavaIntMin + JavaIntModulus
    ensures (n - r) % JavaIntModulus == 0
  {
    (n - JavaIntMin) % JavaIntModulus + JavaIntMin
  }

  /** A point on the grid whose coordinates are updated in place. */
  class IntPoint {

    var x: int
    var y: int

    constructor (x: int, y: int)
      ensures this.x == x && this.y == y
    {
      this.x := x;
      this.y := y;
    }

    /** The coordinates this point currently holds. */
    function Value(): Cell
      reads this
    {
      Cell(x, y)
    }

    /**
     * Adds `point` to this point in place. When `point` is this very object,
     * both coordinates double.
     */
    method Add(point: IntPoint)
      modifies this
      ensures x == old(x) + old(point.x) && y == old(y) + old(point.y)
      ensures Value() == Plus(old(Value()), old(point.Value()))
    {
      x := x + point.x;
      y := y + point.y;
    }

    /**
     * Subtracts `point` from this point in place. When `point` is this very
     * object, both coordinates become zero.
     */
    method Subtract(point: IntPoint)
      modifies this
      ensures x == old(x) - old(point.x) && y == old(y) - old(point.y)
      ensures Value() == Minus(old(Value()), old(point.Value()))
    {
      x := x - point.x;
      y := y - point.y;
    }

    /** A new point with the same coordinates. */
    method Copy() returns (c: IntPoint)
      ensures fresh(c)
      ensures c.Value() == Value()
    {
      c := new IntPoint(x, y);
    }

    /**
     * Java's `equals`: true for this very object, and for any other
     * `IntPoint` with the same coordinates; false for null and for objects
     * of any other class.
     */
    function Equals(o: object?): (r: bool)
      reads this, o
      ensures r <==> o is IntPoint && (o as IntPoint).Value() == Value()
    {
      this == o || (o is IntPoint && x == (o as IntPoint).x && y == (o as IntPoint).y)
    }

    /**
     * Java's `Objects.hash(x, y)`: the list hash `31 * (31 * 1 + x) + y`
     * in 32-bit arithmetic.
     */
    function HashCode(): (h: int)
      reads this
      ensures JavaIntMin <= h < JavaIntMin + JavaIntModulus
      ensures (31 * (31 + x) + y - h) % JavaIntModulus == 0
    {
      WrapToJavaInt(31 * (31 + x) + y)
    }
  }

  /** `equals` is reflexive. */
  lemma EqualsReflexive(p: IntPoint)
    ensures p.Equals(p)
  {
  }

  /** `equals` is symmetric. */
  lemma EqualsSymmetric(p: IntPoint, q: IntPoint)
    ensures p.Equals(q) == q.Equals(p)
  {
  }

  /** Equal points have equal hash codes, as Java's contract for `hashCode` demands. */
  lemma EqualsImpliesEqualHash(p: IntPoint, q: IntPoint)
    requires p.Equals(q)
    ensures p.HashCode() == q.HashCode()
  {
  }

  /**
   * Adding a distinct point and then subtracting it again restores the
   * original coordinates and leaves the other point alone.
   */
  method AddThenSubtract(p: IntPoint, q: IntPoint)
    requires p != q
    modifies p
    ensures p.Value() == old(p.Value())
    ensures q.Value() == old(q.Value())
  {
    p.Add(q);
    p.Subtract(q);
  }

  /**
   * With aliasing the round trip fails: adding a point to itself doubles
   * it, and subtracting it from itself then yields the origin.
   */
  method AddThenSubtractAliased(p: IntPoint)
    modifies p
    ensures p.Value() == Cell(0, 0)
  {
    p.Add(p);
    p.Subtract(p);
  }

  /**
   * A copy is independent of its original: shifting the copy leaves the
   * original's coordinates unchanged.
   */
  method ShiftCopy(p: IntPoint, offset: IntPoint) returns (c: IntPoint)
    ensures fresh(c)
    ensures c.Value() == Plus(p.Value(), offset.Value())
  {
    c := p.Copy();
    c.Add(offset);
  }

  /**
   * The squared distance idiom of the escape tactic: copy the point,
   * subtract the enemy's cell from the copy, and add the squares of the
   * components. Neither argument changes.
   */
  method SquaredDistanceOnCopy(p: IntPoint, enemy: IntPoint) returns (d: int)
    ensures d == SquaredDistance(p.Value(), enemy.Value())
    ensures d >= 0 && (d == 0 <==> p.Equals(enemy))
  {
    var current := p.Copy();
    current.Subtract(enemy);
    d := current.x * current.x + current.y * current.y;
  }
}
