/**
 * The arithmetic half of the grid graphs: neighbour indices on the torus,
 * the central coordinate of a cell and the cell that contains a position.
 */
module GridGeometry {
  import opened JavaNum
  import opened Wrappers

  /** The previous index on a wrapped axis (the row above, the column to the left). */
  function Prev(i: int, n: int): int { if i == 0 then n - 1 else i - 1 }

  /** The next index on a wrapped axis (the row below, the column to the right). */
  function Next(i: int, n: int): int
    requires n > 0
  {
    (i + 1) % n
  }

  /** Next without the remainder: the following index, wrapping from the last to the first. */
  lemma NextValue(i: int, n: int)
    requires 0 <= i < n
    ensures Next(i, n) == if i + 1 == n then 0 else i + 1
  {
    if i + 1 == n {
      assert (i + 1) % n == 0;
    } else {
      assert (i + 1) % n == i + 1;
    }
  }

  /** Prev and Next are inverse on a wrapped axis; this makes adjacency symmetric. */
  lemma PrevNextInverse(i: int, n: int)
    requires 0 <= i < n
    ensures 0 <= Prev(i, n) < n && 0 <= Next(i, n) < n
    ensures Next(Prev(i, n), n) == i
    ensures Prev(Next(i, n), n) == i
  {
    NextValue(i, n);
    NextValue(Prev(i, n), n);
  }

  /** The number of steps between two indices of a wrapped axis of length n. */
  function CycleDist(a: int, b: int, n: int): (d: int)
    ensures 0 <= d
  {
    var diff := if a <= b then b - a else a - b;
    if diff <= n - diff || n - diff < 0 then diff else n - diff
  }

  /** Moving one index along the axis, wrapping at either end, changes its distance from b by at most one. */
  lemma CycleDistStepTo(b: int, a: int, a2: int, n: int)
    requires 0 <= a < n && 0 <= a2 < n && 0 <= b < n
    requires a2 == a + 1 || a2 == a - 1 || (a == n - 1 && a2 == 0) || (a == 0 && a2 == n - 1)
    ensures CycleDist(b, a2, n) <= CycleDist(b, a, n) + 1
  {
  }

  function Min(a: int, b: int): int { if a <= b then a else b }

  /** getCentralCoordinate: the centre of cell (col, row), computed in int arithmetic. */
  function CentralCoordinate(g: int, col: int, row: int): (p: Position)
    requires g > 0
    ensures 0 <= col ==> col as real * g as real <= p.x < (col + 1) as real * g as real
    ensures 0 <= row ==> row as real * g as real <= p.y < (row + 1) as real * g as real
  {
    assert g / 2 < g;
    Position((col * g + g / 2) as real, (row * g + g / 2) as real)
  }

  /** Clamped cell index of one coordinate: (int) c / g, but at most count - 1. */
  function ClampedIndex(g: int, count: int, c: real): int
    requires g > 0
  {
    Min(Quot(IntCast(c), g), count - 1)
  }

  lemma ClampedIndexRange(g: int, count: int, c: real)
    requires 0 < g <= INT_MAX
    ensures ClampedIndex(g, count, c) < count
    ensures 0 <= ClampedIndex(g, count, c) <==> count > 0 && c > -(g as real)
  {
    var a := IntCast(c);
    if c > -(g as real) {
      assert a > -g;
    } else {
      assert a <= -g;
      assert Quot(a, g) < 0;
    }
  }

  /**
   * getVertex of the newer grid: the (row, col) whose vertex the lookup returns,
   * or None where the matrix access throws and the lookup returns null.
   */
  function CellOf(g: int, rows: int, cols: int, p: Position): (cell: Option<(int, int)>)
    requires 0 < g <= INT_MAX
    ensures cell.Some? ==> 0 <= cell.value.0 < rows && 0 <= cell.value.1 < cols
    ensures cell.Some? <==> rows > 0 && cols > 0 && p.x > -(g as real) && p.y > -(g as real)
  {
    ClampedIndexRange(g, rows, p.y);
    ClampedIndexRange(g, cols, p.x);
    var row := ClampedIndex(g, rows, p.y);
    var col := ClampedIndex(g, cols, p.x);
    if 0 <= row && 0 <= col then Some((row, col)) else None
  }

  /** A position beyond the last row or column is clamped into it. */
  lemma CellOfClamps(g: int, rows: int, cols: int, p: Position)
    requires 0 < g && rows > 0 && cols > 0
    requires rows * g <= INT_MAX && cols * g <= INT_MAX
    requires p.x >= (cols * g) as real && p.y >= (rows * g) as real
    ensures CellOf(g, rows, cols, p) == Some((rows - 1, cols - 1))
  {
    MulLeq(1, rows, g);
    MulLeq(1, cols, g);
    QuotAtLeast(IntCast(p.y), g, rows);
    QuotAtLeast(IntCast(p.x), g, cols);
  }

  lemma QuotAtLeast(a: int, g: int, n: int)
    requires 0 < g && n > 0 && a >= n * g
    ensures Quot(a, g) >= n - 1
  {
    MulLeq(0, n, g);
    var q := a / g;
    assert a == q * g + a % g;
    if q < n - 1 {
      MulLeq(q + 1, n - 1, g);
      assert false;
    }
  }

  lemma MulLeq(a: int, b: int, g: int)
    requires a <= b && g > 0
    ensures a * g <= b * g
  {
    assert b * g - a * g == (b - a) * g;
  }

  /** Round trip: the lookup of a cell's central coordinate is that cell. */
  lemma {:induction false} CellOfCentre(g: int, rows: int, cols: int, row: int, col: int)
    requires 0 < g && 0 <= row < rows && 0 <= col < cols
    requires rows * g <= INT_MAX && cols * g <= INT_MAX
    ensures CellOf(g, rows, cols, CentralCoordinate(g, col, row)) == Some((row, col))
  {
    var p := CentralCoordinate(g, col, row);
    MulLeq(1, rows, g);
    CentreIndex(g, rows, row);
    CentreIndex(g, cols, col);
    assert IntCast(p.y) == row * g + g / 2;
    assert IntCast(p.x) == col * g + g / 2;
  }

  lemma CentreIndex(g: int, n: int, i: int)
    requires 0 < g && 0 <= i < n && n * g <= INT_MAX
    ensures 0 <= i * g + g / 2 < INT_MAX
    ensures Quot(i * g + g / 2, g) == i
  {
    MulLeq(i + 1, n, g);
    MulLeq(0, i, g);
    var k := g / 2;
    var a := i * g + k;
    var q, rem := a / g, a % g;
    assert a == q * g + rem;
    assert (q - i) * g == k - rem;
    if q > i {
      MulLeq(1, q - i, g);
      assert false;
    } else if q < i {
      MulLeq(1, i - q, g);
      assert false;
    }
  }


  /**
   * getVertex of the older grid as written: the coordinates are divided by the
   * row and column counts instead of the cell size. None where the array access
   * throws (there is no handler).
   */
  function CellOfByCounts(rows: int, cols: int, p: Position): (cell: Option<(int, int)>)
    ensures cell.Some? ==> 0 <= cell.value.0 < rows && 0 <= cell.value.1 < cols
  {
    if rows <= 0 || cols <= 0 then None
    else
      var row := IntCast(p.y / rows as real);
      var col := IntCast(p.x / cols as real);
      if 0 <= row < rows && 0 <= col < cols then Some((row, col)) else None
  }

  /** On 10-unit cells of a 200 by 200 window the centre (55, 55) of cell (5, 5) is looked up as cell (2, 2). */
  lemma CellOfByCountsMissesCentre()
    ensures CentralCoordinate(10, 5, 5) == Position(55.0, 55.0)
    ensures CellOfByCounts(200 / 10, 200 / 10, CentralCoordinate(10, 5, 5)) == Some((2, 2))
  {
    assert IntCast(55.0 / 20.0) == 2;
  }

  /** The evidently intended lookup of the older grid: divide by the cell size, no clamping. */
  function CellOfBySize(g: int, rows: int, cols: int, p: Position): (cell: Option<(int, int)>)
    requires g > 0
    ensures cell.Some? ==> 0 <= cell.value.0 < rows && 0 <= cell.value.1 < cols
  {
    var row := IntCast(p.y / g as real);
    var col := IntCast(p.x / g as real);
    if 0 <= row < rows && 0 <= col < cols then Some((row, col)) else None
  }

  lemma {:induction false} CellOfBySizeCentre(g: int, rows: int, cols: int, row: int, col: int)
    requires 0 < g && 0 <= row < rows && 0 <= col < cols
    requires rows * g <= INT_MAX && cols * g <= INT_MAX
    ensures CellOfBySize(g, rows, cols, CentralCoordinate(g, col, row)) == Some((row, col))
  {
    var p := CentralCoordinate(g, col, row);
    CentreRatio(g, row);
    CentreRatio(g, col);
    MulLeq(1, rows, g);
    MulLeq(1, cols, g);
    IntCastBracket(p.y / g as real, row);
    IntCastBracket(p.x / g as real, col);
  }

  lemma CentreRatio(g: int, i: int)
    requires 0 < g && 0 <= i
    ensures i as real <= (i * g + g / 2) as real / g as real < (i + 1) as real
  {
    var x := (i * g + g / 2) as real;
    var gr := g as real;
    assert (g / 2) < g;
    assert x == i as real * gr + (g / 2) as real;
    assert x / gr == i as real + (g / 2) as real / gr;
    assert 0.0 <= (g / 2) as real / gr < 1.0;
  }
}
