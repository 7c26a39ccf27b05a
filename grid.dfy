/**
 * The quad layout: the arena is cut into 4 columns and 3 rows of cells.
 * A position maps to the cell that contains it (with the cell size as a
 * real number), and a cell maps back to its centre (with the cell size
 * truncated to an integer first, as the robot does).
 */
module Grid {

  import opened IntPoints

  /** Number of columns of the layout. */
  const Columns: int := 4
  /** Number of rows of the layout. */
  const Rows: int := 3

  /** A point of the arena, in the arena's own (non-integer) coordinates. */
  datatype Position = Position(x: real, y: real)

  /** The cell lies on the 4 x 3 layout. */
  predicate InGrid(q: Cell)
  {
    0 <= q.x < Columns && 0 <= q.y < Rows
  }

  /** Java's `(int)` cast of a double: truncation toward zero. */
  function TruncToInt(r: real): (n: int)
    ensures 0.0 <= r ==> 0 <= n && n as real <= r < n as real + 1.0
    ensures r < 0.0 ==> n <= 0 && n as real - 1.0 < r <= n as real
  {
    if r >= 0.0 then r.Floor else -((-r).Floor)
  }

  /** The size of one cell along an axis as a real number (`width / 4`). */
  function CellSpan(extent: real, parts: int): (s: real)
    requires extent > 0.0 && parts > 0
    ensures s > 0.0 && s * parts as real == extent
  {
    extent / parts as real
  }

  /**
   * The size of one cell along an axis as an integer (`(int) width / 4`).
   * For a non-negative extent Java's truncating division agrees with
   * Dafny's.
   */
  function CellSize(extent: real, parts: int): (w: int)
    requires extent > 0.0 && parts > 0
    ensures 0 <= w && (w * parts) as real <= extent < ((w + 1) * parts) as real
  {
    var t := TruncToInt(extent);
    TruncatedQuotientBracket(t, parts, extent);
    t / parts
  }

  /** The index along one axis of the cell that contains coordinate `v`. */
  function AxisIndex(v: real, extent: real, parts: int): (i: int)
    requires extent > 0.0 && parts > 0
    ensures 0.0 <= v ==> 0 <= i && i as real * CellSpan(extent, parts) <= v < (i + 1) as real * CellSpan(extent, parts)
  {
    var s := CellSpan(extent, parts);
    var n := TruncToInt(v / s);
    if 0.0 <= v then
      QuotientBracket(v, s, n);
      n
    else
      n
  }

  /** The coordinate along one axis of the centre of cell `i`. */
  function AxisCenter(i: int, extent: real, parts: int): (c: real)
    requires extent > 0.0 && parts > 0
    ensures CellSize(extent, parts) > 0 ==>
              (i * CellSize(extent, parts)) as real < c < ((i + 1) * CellSize(extent, parts)) as real
  {
    var w := CellSize(extent, parts);
    (i * w) as real + w as real / 2.0
  }

  /** `getRobotQuad`: the cell of the layout that contains position `p`. */
  function GetRobotQuad(p: Position, width: real, height: real): (q: Cell)
    requires width > 0.0 && height > 0.0
    ensures 0.0 <= p.x ==> q.x as real * CellSpan(width, Columns) <= p.x < (q.x + 1) as real * CellSpan(width, Columns)
    ensures 0.0 <= p.y ==> q.y as real * CellSpan(height, Rows) <= p.y < (q.y + 1) as real * CellSpan(height, Rows)
  {
    Cell(AxisIndex(p.x, width, Columns), AxisIndex(p.y, height, Rows))
  }

  /**
   * `getCenterOfQuad`: the centre of cell `q`, computed with the cell size
   * truncated to an integer. It lies strictly inside the integer-sized cell.
   */
  function GetCenterOfQuad(q: Cell, width: real, height: real): (c: Position)
    requires width > 0.0 && height > 0.0
    ensures CellSize(width, Columns) > 0 ==>
              (q.x * CellSize(width, Columns)) as real < c.x < ((q.x + 1) * CellSize(width, Columns)) as real
    ensures CellSize(height, Rows) > 0 ==>
              (q.y * CellSize(height, Rows)) as real < c.y < ((q.y + 1) * CellSize(height, Rows)) as real
  {
    Position(AxisCenter(q.x, width, Columns), AxisCenter(q.y, height, Rows))
  }

  /** For `t` the integer part of `extent`, `t / p` is the integer part of `extent / p`. */
  lemma TruncatedQuotientBracket(t: int, p: int, extent: real)
    requires t >= 0 && p > 0 && t as real <= extent < t as real + 1.0
    ensures 0 <= t / p && ((t / p) * p) as real <= extent < ((t / p + 1) * p) as real
  {
    var q, r := t / p, t % p;
    assert t == q * p + r && 0 <= r < p;
    assert (q + 1) * p == q * p + p;
  }

  /** From `n <= v / s < n + 1` to `n * s <= v < (n + 1) * s`. */
  lemma QuotientBracket(v: real, s: real, n: int)
    requires s > 0.0 && n as real <= v / s < (n + 1) as real
    ensures n as real * s <= v < (n + 1) as real * s
  {
    assert (v / s) * s == v;
    MultiplyPreservesOrder(n as real, v / s, s);
    MultiplyPreservesStrictOrder(v / s, (n + 1) as real, s);
  }

  /** From `w * p <= s * p < (w + 1) * p` to `w <= s < w + 1`. */
  lemma DivideBracket(w: int, p: int, s: real, extent: real)
    requires p > 0 && (w * p) as real <= extent < ((w + 1) * p) as real && s * p as real == extent
    ensures w as real <= s < (w + 1) as real
  {
    CastOfProduct(w, p);
    CastOfProduct(w + 1, p);
    if s < w as real {
      MultiplyPreservesStrictOrder(s, w as real, p as real);
    }
    if s >= (w + 1) as real {
      MultiplyPreservesOrder((w + 1) as real, s, p as real);
    }
  }

  lemma CastOfProduct(a: int, b: int)
    ensures (a * b) as real == a as real * b as real
  {
  }

  lemma MultiplyPreservesOrder(a: real, b: real, s: real)
    requires a <= b && s > 0.0
    ensures a * s <= b * s
  {
  }

  lemma MultiplyPreservesStrictOrder(a: real, b: real, s: real)
    requires a < b && s > 0.0
    ensures a * s < b * s
  {
  }

  /** A positive factor cancels from a strict inequality. */
  lemma CancelPositiveFactor(a: real, b: real, s: real)
    requires s > 0.0 && a * s < b * s
    ensures a < b
  {
    assert (b - a) * s == b * s - a * s;
  }

  /** A point of `[i * s, ...)` below `(j + 1) * s` has `i <= j`. */
  lemma BracketStartsBelow(v: real, s: real, i: int, j: int)
    requires s > 0.0
    requires i as real * s <= v < (j + 1) as real * s
    ensures i <= j
  {
    CancelPositiveFactor(i as real, (j + 1) as real, s);
  }

  /** A positive factor cancels from an equality. */
  lemma CancelFromEquality(a: real, b: real, s: real)
    requires s > 0.0 && a * s == b * s
    ensures a == b
  {
    assert (a - b) * s == a * s - b * s;
  }

  /** The intervals `[n * s, (n + 1) * s)` are disjoint. */
  lemma UniqueBracket(v: real, s: real, i: int, j: int)
    requires s > 0.0
    requires i as real * s <= v < (i + 1) as real * s
    requires j as real * s <= v < (j + 1) as real * s
    ensures i == j
  {
    BracketStartsBelow(v, s, i, j);
    BracketStartsBelow(v, s, j, i);
  }

  /** A coordinate in `[i * s, (i + 1) * s)` and below `parts * s` has `i < parts`. */
  lemma IndexBelowParts(i: int, parts: int, s: real, v: real, extent: real)
    requires s > 0.0 && s * parts as real == extent
    requires i as real * s <= v < extent
    ensures i < parts
  {
    if i >= parts {
      MultiplyPreservesOrder(parts as real, i as real, s);
    }
  }

  /** A coordinate between `i * s` and `(i + 1) * s` lies in cell `i`. */
  lemma AxisIndexOfBracketed(v: real, extent: real, parts: int, i: int)
    requires extent > 0.0 && parts > 0 && 0 <= i
    requires i as real * CellSpan(extent, parts) <= v < (i + 1) as real * CellSpan(extent, parts)
    ensures AxisIndex(v, extent, parts) == i
  {
    var s := CellSpan(extent, parts);
    assert 0.0 <= v by { MultiplyPreservesOrder(0.0, i as real, s); }
    UniqueBracket(v, s, AxisIndex(v, extent, parts), i);
  }

  /** A position inside the arena maps to a cell of the layout. */
  lemma PositionInArenaIsInGrid(p: Position, width: real, height: real)
    requires width > 0.0 && height > 0.0
    requires 0.0 <= p.x < width && 0.0 <= p.y < height
    ensures InGrid(GetRobotQuad(p, width, height))
  {
    var q := GetRobotQuad(p, width, height);
    IndexBelowParts(q.x, Columns, CellSpan(width, Columns), p.x, width);
    IndexBelowParts(q.y, Rows, CellSpan(height, Rows), p.y, height);
  }

  /**
   * The cast truncates toward zero, so a coordinate less than one cell
   * below zero still lands in cell 0.
   */
  lemma SlightlyNegativeMapsToFirstCell(v: real, extent: real, parts: int)
    requires extent > 0.0 && parts > 0
    requires -CellSpan(extent, parts) < v < 0.0
    ensures AxisIndex(v, extent, parts) == 0
  {
    var s := CellSpan(extent, parts);
    assert (v / s) * s == v;
    CancelPositiveFactor(-1.0, v / s, s);
    CancelPositiveFactor(v / s, 0.0, s);
  }

  /** When the extent divides evenly, the centre of cell `i` maps back to `i`. */
  lemma AxisRoundTripExact(i: int, cells: int, parts: int)
    requires 0 <= i && cells > 0 && parts > 0
    ensures AxisIndex(AxisCenter(i, (cells * parts) as real, parts), (cells * parts) as real, parts) == i
  {
    var extent := (cells * parts) as real;
    CastOfProduct(cells, parts);
    assert TruncToInt(extent) == cells * parts;
    assert (cells * parts) / parts == cells;
    assert CellSize(extent, parts) == cells;
    var s := CellSpan(extent, parts);
    assert s * parts as real == cells as real * parts as real;
    CancelFromEquality(s, cells as real, parts as real);
    var c := AxisCenter(i, extent, parts);
    assert c == i as real * cells as real + cells as real / 2.0;
    AxisIndexOfBracketed(c, extent, parts, i);
  }

  /** The integer cell size is the real one rounded down. */
  lemma CellSizeBracketsSpan(extent: real, parts: int)
    requires extent > 0.0 && parts > 0
    ensures CellSize(extent, parts) as real <= CellSpan(extent, parts) < (CellSize(extent, parts) + 1) as real
  {
    DivideBracket(CellSize(extent, parts), parts, CellSpan(extent, parts), extent);
  }

  /**
   * With an integer cell size `w` and a real one `s` in `[w, w + 1)`, the
   * centre `i * w + w / 2` lies in `[i * s, (i + 1) * s)` as long as
   * `2 * i <= w`.
   */
  lemma CenterWithinSpan(i: int, w: int, s: real)
    requires 0 <= i && 2 * i <= w && s > 0.0 && w as real <= s < (w + 1) as real
    ensures i as real * s <= (i * w) as real + w as real / 2.0 < (i + 1) as real * s
  {
    var c := (i * w) as real + w as real / 2.0;
    CastOfProduct(i, w);
    if i > 0 {
      MultiplyPreservesStrictOrder(s, (w + 1) as real, i as real);
      assert (w + 1) as real * i as real == w as real * i as real + i as real;
      assert 2.0 * i as real <= w as real;
    }
    assert i as real * s <= c;
    if w > 0 {
      MultiplyPreservesOrder(w as real, s, (i + 1) as real);
      assert w as real * (i + 1) as real == w as real * i as real + w as real;
    }
  }

  /**
   * When the integer cell size is at least twice the index, truncating the
   * cell size loses too little for the centre of cell `i` to leave it.
   */
  lemma AxisRoundTripWide(i: int, extent: real, parts: int)
    requires 0 <= i && extent > 0.0 && parts > 0
    requires 2 * i <= CellSize(extent, parts)
    ensures AxisIndex(AxisCenter(i, extent, parts), extent, parts) == i
  {
    var w := CellSize(extent, parts);
    var s := CellSpan(extent, parts);
    var c := AxisCenter(i, extent, parts);
    assert c == (i * w) as real + w as real / 2.0;
    CellSizeBracketsSpan(extent, parts);
    CenterWithinSpan(i, w, s);
    AxisIndexOfBracketed(c, extent, parts, i);
  }

  /**
   * Grid round trip on an arena whose width is a multiple of 4 and whose
   * height is a multiple of 3: the centre of every cell lies in that cell.
   */
  lemma RoundTripOnEvenArena(q: Cell, cellWidth: int, cellHeight: int)
    requires InGrid(q) && cellWidth > 0 && cellHeight > 0
    ensures var width, height := (cellWidth * Columns) as real, (cellHeight * Rows) as real;
            GetRobotQuad(GetCenterOfQuad(q, width, height), width, height) == q
  {
    AxisRoundTripExact(q.x, cellWidth, Columns);
    AxisRoundTripExact(q.y, cellHeight, Rows);
  }

  /**
   * Grid round trip on any arena at least 24 wide and 12 high (so that the
   * integer cell sizes are at least 6 and 4): the truncated cell size does
   * not move any centre out of its cell.
   */
  lemma RoundTripOnWideArena(q: Cell, width: real, height: real)
    requires InGrid(q) && width >= 24.0 && height >= 12.0
    ensures GetRobotQuad(GetCenterOfQuad(q, width, height), width, height) == q
  {
    assert CellSize(width, Columns) >= 6;
    assert CellSize(height, Rows) >= 4;
    AxisRoundTripWide(q.x, width, Columns);
    AxisRoundTripWide(q.y, height, Rows);
  }

  /**
   * On a tiny arena the truncation does matter: with width 7 the integer
   * cell width is 1 while the real one is 1.75, and the centre of column 3
   * (x = 3.5) falls in column 2.
   */
  lemma RoundTripFailsOnTinyArena()
    ensures GetRobotQuad(GetCenterOfQuad(Cell(3, 0), 7.0, 3.0), 7.0, 3.0) == Cell(2, 0)
  {
    assert TruncToInt(7.0) == 7;
    assert CellSize(7.0, Columns) == 1;
    assert GetCenterOfQuad(Cell(3, 0), 7.0, 3.0).x == 3.5;
    AxisIndexOfBracketed(3.5, 7.0, Columns, 2);
    assert TruncToInt(3.0) == 3;
    assert CellSize(3.0, Rows) == 1;
    AxisIndexOfBracketed(0.5, 3.0, Rows, 0);
  }
}
