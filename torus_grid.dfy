/**
 * The vertex matrix shared by both grid graphs: rows x cols vertices, each
 * connected to its four neighbours with wrap-around on both axes, and the two
 * heuristic passes that rewrite every vertex's h value.
 */
module TorusGrid {
  import opened JavaNum
  import opened Vertices
  import opened GridGeometry

  /** vMtx as a row-indexed sequence of rows. */
  type Matrix = seq<seq<Vertex>>

  ghost predicate Shaped(m: Matrix, rows: int, cols: int)
  {
    cols >= 0 && |m| == rows && forall r :: 0 <= r < rows ==> |m[r]| == cols
  }

  /** The cell at [row][col] is the vertex with column col and row row. */
  ghost predicate Placed(m: Matrix, rows: int, cols: int)
    requires Shaped(m, rows, cols)
  {
    forall r, c :: 0 <= r < rows && 0 <= c < cols ==> m[r][c].mtxRow == r && m[r][c].mtxColumn == c
  }

  /** The four neighbours of [r][c] in the order initMatrix adds them: up, down, left, right. */
  function Neighbours(m: Matrix, rows: int, cols: int, r: int, c: int): seq<Vertex>
    requires Shaped(m, rows, cols) && 0 <= r < rows && 0 <= c < cols
  {
    [m[Prev(r, rows)][c], m[Next(r, rows)][c], m[r][Prev(c, cols)], m[r][Next(c, cols)]]
  }

  function Cells(m: Matrix): set<Vertex>
  {
    set r, c | 0 <= r < |m| && 0 <= c < |m[r]| :: m[r][c]
  }

  ghost predicate Wired(m: Matrix, rows: int, cols: int)
    reads Cells(m)
    requires Shaped(m, rows, cols)
  {
    forall r, c {:trigger m[r][c].connectedVertices} :: 0 <= r < rows && 0 <= c < cols ==>
      m[r][c].connectedVertices == Neighbours(m, rows, cols, r, c)
  }

  /** A well-formed toroidal grid. */
  ghost predicate IsGrid(m: Matrix, rows: int, cols: int)
    reads Cells(m)
  {
    Shaped(m, rows, cols) && Placed(m, rows, cols) && Wired(m, rows, cols)
  }

  /** v is a vertex of the grid: it sits in the matrix at its own coordinates. */
  ghost predicate InGrid(m: Matrix, rows: int, cols: int, v: Vertex)
    requires Shaped(m, rows, cols)
  {
    0 <= v.mtxRow < rows && 0 <= v.mtxColumn < cols && m[v.mtxRow][v.mtxColumn] == v
  }

  lemma InGridInCells(m: Matrix, rows: int, cols: int, v: Vertex)
    requires Shaped(m, rows, cols) && InGrid(m, rows, cols, v)
    ensures v in Cells(m)
  {
    var r, c := v.mtxRow, v.mtxColumn;
    assert m[r][c] in Cells(m);
  }

  /** Every edge of a grid vertex leads to a grid vertex. */
  lemma EdgesInGrid(m: Matrix, rows: int, cols: int, v: Vertex)
    requires IsGrid(m, rows, cols) && InGrid(m, rows, cols, v)
    ensures |v.connectedVertices| == 4
    ensures forall w :: w in v.connectedVertices ==> InGrid(m, rows, cols, w)
  {
    var r, c := v.mtxRow, v.mtxColumn;
    PrevNextInverse(r, rows);
    PrevNextInverse(c, cols);
    assert v.connectedVertices == Neighbours(m, rows, cols, r, c);
  }

  /** Adjacency is symmetric: each of the four neighbours of a vertex has that vertex among its own edges. */
  lemma AdjacencySymmetric(m: Matrix, rows: int, cols: int, r: int, c: int, k: int)
    requires IsGrid(m, rows, cols) && 0 <= r < rows && 0 <= c < cols && 0 <= k < 4
    ensures m[r][c] in m[r][c].connectedVertices[k].connectedVertices
  {
    PrevNextInverse(r, rows);
    PrevNextInverse(c, cols);
    var w := m[r][c].connectedVertices[k];
    if k == 0 {
      assert w == m[Prev(r, rows)][c];
      assert w.connectedVertices[1] == m[r][c];
    } else if k == 1 {
      assert w == m[Next(r, rows)][c];
      assert w.connectedVertices[0] == m[r][c];
    } else if k == 2 {
      assert w == m[r][Prev(c, cols)];
      assert w.connectedVertices[3] == m[r][c];
    } else {
      assert w == m[r][Next(c, cols)];
      assert w.connectedVertices[2] == m[r][c];
    }
  }

  /** Every edge of a grid vertex can be taken back. */
  lemma EdgeBack(m: Matrix, rows: int, cols: int, v: Vertex, w: Vertex)
    requires IsGrid(m, rows, cols) && InGrid(m, rows, cols, v) && w in v.connectedVertices
    ensures v in w.connectedVertices
  {
    EdgesInGrid(m, rows, cols, v);
    var k :| 0 <= k < 4 && v.connectedVertices[k] == w;
    AdjacencySymmetric(m, rows, cols, v.mtxRow, v.mtxColumn, k);
  }

  /** A walk from start: consecutive vertices are joined by an edge of the first. */
  ghost predicate IsWalk(vs: seq<Vertex>, start: Vertex)
    reads vs
  {
    |vs| > 0 && vs[0] == start && forall i :: 0 <= i < |vs| - 1 ==> vs[i + 1] in vs[i].connectedVertices
  }

  /** The number of edges between two grid vertices: the wrapped row distance plus the wrapped column distance. */
  function GridDist(rows: int, cols: int, u: Vertex, v: Vertex): nat
  {
    CycleDist(u.mtxRow, v.mtxRow, rows) + CycleDist(u.mtxColumn, v.mtxColumn, cols)
  }

  /** One edge changes the grid distance to a fixed vertex by at most one. */
  lemma EdgeDist(m: Matrix, rows: int, cols: int, s: Vertex, v: Vertex, w: Vertex)
    requires IsGrid(m, rows, cols) && InGrid(m, rows, cols, s) && InGrid(m, rows, cols, v)
    requires w in v.connectedVertices
    ensures GridDist(rows, cols, s, w) <= GridDist(rows, cols, s, v) + 1
  {
    var r, c := v.mtxRow, v.mtxColumn;
    assert v.connectedVertices == Neighbours(m, rows, cols, r, c);
    NextValue(r, rows);
    NextValue(c, cols);
    if w == m[Prev(r, rows)][c] || w == m[Next(r, rows)][c] {
      assert w.mtxColumn == c && 0 <= w.mtxRow < rows;
      CycleDistStepTo(s.mtxRow, r, w.mtxRow, rows);
    } else {
      assert w == m[r][Prev(c, cols)] || w == m[r][Next(c, cols)];
      assert w.mtxRow == r && 0 <= w.mtxColumn < cols;
      CycleDistStepTo(s.mtxColumn, c, w.mtxColumn, cols);
    }
  }

  /** A walk through grid vertices takes at least as many edges as the grid distance it covers. */
  lemma {:induction false} WalkLengthBound(m: Matrix, rows: int, cols: int, vs: seq<Vertex>, start: Vertex)
    requires IsGrid(m, rows, cols) && IsWalk(vs, start) && forall v :: v in vs ==> InGrid(m, rows, cols, v)
    ensures |vs| - 1 >= GridDist(rows, cols, start, vs[|vs| - 1])
    decreases |vs|
  {
    if |vs| == 1 {
    } else {
      var prefix := vs[..|vs| - 1];
      assert IsWalk(prefix, start);
      assert forall v :: v in prefix ==> v in vs;
      WalkLengthBound(m, rows, cols, prefix, start);
      assert vs[0] in vs && vs[|vs| - 2] in vs;
      EdgeDist(m, rows, cols, start, vs[|vs| - 2], vs[|vs| - 1]);
    }
  }

  /** A walk that ends in one more edge of its last vertex is still a walk. */
  lemma ExtendWalk(vs: seq<Vertex>, start: Vertex, w: Vertex)
    requires IsWalk(vs, start) && w in vs[|vs| - 1].connectedVertices
    ensures IsWalk(vs + [w], start)
  {
    var vw := vs + [w];
    forall i | 0 <= i < |vw| - 1
      ensures vw[i + 1] in vw[i].connectedVertices
    {
      if i < |vs| - 1 {
        assert vw[i] == vs[i] && vw[i + 1] == vs[i + 1];
      }
    }
  }

  /** Two walks joined at the last vertex of the first make one walk. */
  lemma JoinWalks(a: seq<Vertex>, b: seq<Vertex>, start: Vertex)
    requires IsWalk(a, start) && IsWalk(b, a[|a| - 1])
    ensures IsWalk(a + b[1..], start) && (a + b[1..])[|a| + |b| - 2] == b[|b| - 1]
  {
    var ab := a + b[1..];
    forall i | 0 <= i < |ab| - 1
      ensures ab[i + 1] in ab[i].connectedVertices
    {
      if i < |a| - 1 {
        assert ab[i] == a[i] && ab[i + 1] == a[i + 1];
      } else {
        assert ab[i] == b[i - |a| + 1] && ab[i + 1] == b[i - |a| + 2];
      }
    }
  }

  /** Straight down or up column c from row r to row r2, without wrapping. */
  ghost function ColumnWalk(m: Matrix, rows: int, cols: int, c: int, r: int, r2: int): seq<Vertex>
    requires Shaped(m, rows, cols) && 0 <= c < cols && 0 <= r < rows && 0 <= r2 < rows
    decreases if r <= r2 then r2 - r else r - r2
  {
    if r == r2 then [m[r][c]]
    else if r < r2 then ColumnWalk(m, rows, cols, c, r, r2 - 1) + [m[r2][c]]
    else ColumnWalk(m, rows, cols, c, r, r2 + 1) + [m[r2][c]]
  }

  /** Straight right or left along row r from column c to column c2, without wrapping. */
  ghost function RowWalk(m: Matrix, rows: int, cols: int, r: int, c: int, c2: int): seq<Vertex>
    requires Shaped(m, rows, cols) && 0 <= r < rows && 0 <= c < cols && 0 <= c2 < cols
    decreases if c <= c2 then c2 - c else c - c2
  {
    if c == c2 then [m[r][c]]
    else if c < c2 then RowWalk(m, rows, cols, r, c, c2 - 1) + [m[r][c2]]
    else RowWalk(m, rows, cols, r, c, c2 + 1) + [m[r][c2]]
  }

  /** The four unwrapped steps: down, up, right and left are edges. */
  lemma StraightEdges(m: Matrix, rows: int, cols: int, r: int, c: int)
    requires IsGrid(m, rows, cols) && 0 <= r < rows && 0 <= c < cols
    ensures r + 1 < rows ==> m[r + 1][c] in m[r][c].connectedVertices
    ensures 0 < r ==> m[r - 1][c] in m[r][c].connectedVertices
    ensures c + 1 < cols ==> m[r][c + 1] in m[r][c].connectedVertices
    ensures 0 < c ==> m[r][c - 1] in m[r][c].connectedVertices
  {
    assert m[r][c].connectedVertices == Neighbours(m, rows, cols, r, c);
    NextValue(r, rows);
    NextValue(c, cols);
  }

  lemma {:induction false} ColumnWalkIsWalk(m: Matrix, rows: int, cols: int, c: int, r: int, r2: int)
    requires IsGrid(m, rows, cols) && 0 <= c < cols && 0 <= r < rows && 0 <= r2 < rows
    ensures IsWalk(ColumnWalk(m, rows, cols, c, r, r2), m[r][c])
    ensures ColumnWalk(m, rows, cols, c, r, r2)[|ColumnWalk(m, rows, cols, c, r, r2)| - 1] == m[r2][c]
    decreases if r <= r2 then r2 - r else r - r2
  {
    if r != r2 {
      var r1 := if r < r2 then r2 - 1 else r2 + 1;
      ColumnWalkIsWalk(m, rows, cols, c, r, r1);
      StraightEdges(m, rows, cols, r1, c);
      ExtendWalk(ColumnWalk(m, rows, cols, c, r, r1), m[r][c], m[r2][c]);
    }
  }

  lemma {:induction false} RowWalkIsWalk(m: Matrix, rows: int, cols: int, r: int, c: int, c2: int)
    requires IsGrid(m, rows, cols) && 0 <= r < rows && 0 <= c < cols && 0 <= c2 < cols
    ensures IsWalk(RowWalk(m, rows, cols, r, c, c2), m[r][c])
    ensures RowWalk(m, rows, cols, r, c, c2)[|RowWalk(m, rows, cols, r, c, c2)| - 1] == m[r][c2]
    decreases if c <= c2 then c2 - c else c - c2
  {
    if c != c2 {
      var c1 := if c < c2 then c2 - 1 else c2 + 1;
      RowWalkIsWalk(m, rows, cols, r, c, c1);
      StraightEdges(m, rows, cols, r, c1);
      ExtendWalk(RowWalk(m, rows, cols, r, c, c1), m[r][c], m[r][c2]);
    }
  }

  /** The grid is connected: some walk leads from any vertex to any other. */
  lemma TorusConnected(m: Matrix, rows: int, cols: int, u: Vertex, v: Vertex)
    requires IsGrid(m, rows, cols) && InGrid(m, rows, cols, u) && InGrid(m, rows, cols, v)
    ensures exists vs :: IsWalk(vs, u) && vs[|vs| - 1] == v
  {
    var down := ColumnWalk(m, rows, cols, u.mtxColumn, u.mtxRow, v.mtxRow);
    ColumnWalkIsWalk(m, rows, cols, u.mtxColumn, u.mtxRow, v.mtxRow);
    var across := RowWalk(m, rows, cols, v.mtxRow, u.mtxColumn, v.mtxColumn);
    RowWalkIsWalk(m, rows, cols, v.mtxRow, u.mtxColumn, v.mtxColumn);
    JoinWalks(down, across, u);
    var vs := down + across[1..];
    assert IsWalk(vs, u) && vs[|vs| - 1] == v;
  }

  /** The cells row after row. */
  ghost function Flatten(m: Matrix): seq<Vertex>
  {
    if |m| == 0 then [] else Flatten(m[..|m| - 1]) + m[|m| - 1]
  }

  lemma {:induction false} FlattenHolds(m: Matrix, rows: int, cols: int, r: int, c: int)
    requires Shaped(m, rows, cols) && 0 <= r < rows && 0 <= c < cols
    ensures |Flatten(m)| == rows * cols && m[r][c] in Flatten(m)
    decreases rows
  {
    var init := m[..rows - 1];
    if r < rows - 1 {
      FlattenHolds(init, rows - 1, cols, r, c);
    } else if rows > 1 {
      FlattenHolds(init, rows - 1, cols, 0, c);
    }
    assert m[rows - 1][c] in m[rows - 1];
    assert m[r][c] in Flatten(init) || r == rows - 1;
  }

  /** A distinct sequence drawn from another is no longer than it. */
  lemma {:induction false} DistinctWithin(vs: seq<Vertex>, all: seq<Vertex>)
    requires Distinct(vs) && forall v :: v in vs ==> v in all
    ensures |vs| <= |all|
    decreases |vs|
  {
    if vs != [] {
      var x := vs[|vs| - 1];
      assert x in vs && x in all;
      var k :| 0 <= k < |all| && all[k] == x;
      var rest := all[..k] + all[k + 1..];
      forall v | v in vs[..|vs| - 1]
        ensures v in rest
      {
        var j :| 0 <= j < |vs| - 1 && vs[j] == v;
        assert vs[j] in vs && v in all;
        var t :| 0 <= t < |all| && all[t] == v;
        if t < k {
          assert rest[t] == v;
        } else {
          assert t != k;
          assert rest[t - 1] == v;
        }
      }
      DistinctWithin(vs[..|vs| - 1], rest);
    }
  }

  /** A list of distinct grid vertices has at most rows * cols entries. */
  lemma GridVerticesBound(m: Matrix, rows: int, cols: int, vs: seq<Vertex>)
    requires Shaped(m, rows, cols) && Distinct(vs) && forall v :: v in vs ==> InGrid(m, rows, cols, v)
    ensures |vs| <= rows * cols
  {
    if vs != [] {
      assert vs[0] in vs;
      FlattenHolds(m, rows, cols, vs[0].mtxRow, vs[0].mtxColumn);
      forall v | v in vs
        ensures v in Flatten(m)
      {
        FlattenHolds(m, rows, cols, v.mtxRow, v.mtxColumn);
      }
      DistinctWithin(vs, Flatten(m));
    }
  }

  /** A vertex as the constructor leaves its heuristic and marks. */
  ghost predicate Unmarked(v: Vertex)
    reads v
  {
    v.hValue == 0.0 && !v.isStart && !v.isEnd
  }

  /** initMatrix: a fresh rows x cols grid of new vertices wired to their four neighbours. */
  method InitMatrix(rows: int, cols: int) returns (m: Matrix)
    requires rows >= 0 && cols >= 0
    ensures IsGrid(m, rows, cols)
    ensures forall r, c :: 0 <= r < rows && 0 <= c < cols ==> fresh(m[r][c]) && Unmarked(m[r][c])
  {
    m := NewMatrix(rows, cols);
    ConnectEdges(m, rows, cols);
  }

  /** The first half of initMatrix: vMtx[row][col] = new Vertex(col, row). */
  method NewMatrix(rows: int, cols: int) returns (m: Matrix)
    requires rows >= 0 && cols >= 0
    ensures Shaped(m, rows, cols) && Placed(m, rows, cols)
    ensures forall r, c :: 0 <= r < rows && 0 <= c < cols ==>
      fresh(m[r][c]) && Unmarked(m[r][c]) && m[r][c].connectedVertices == []
  {
    m := [];
    var row := 0;
    while row < rows
      invariant 0 <= row <= rows && Shaped(m, row, cols) && Placed(m, row, cols)
      invariant forall r, c :: 0 <= r < row && 0 <= c < cols ==>
        fresh(m[r][c]) && Unmarked(m[r][c]) && m[r][c].connectedVertices == []
    {
      var line := NewRow(row, cols);
      ghost var m0 := m;
      m := m + [line];
      assert forall r :: 0 <= r < row ==> m[r] == m0[r];
      row := row + 1;
    }
  }

  method NewRow(row: int, cols: int) returns (line: seq<Vertex>)
    requires cols >= 0
    ensures |line| == cols
    ensures forall c :: 0 <= c < cols ==> line[c].mtxRow == row && line[c].mtxColumn == c
    ensures forall c :: 0 <= c < cols ==> fresh(line[c]) && Unmarked(line[c]) && line[c].connectedVertices == []
  {
    line := [];
    var col := 0;
    while col < cols
      invariant 0 <= col <= cols && |line| == col
      invariant forall c :: 0 <= c < col ==> line[c].mtxRow == row && line[c].mtxColumn == c
      invariant forall c :: 0 <= c < col ==>
        fresh(line[c]) && Unmarked(line[c]) && line[c].connectedVertices == []
    {
      var v := new Vertex(col, row);
      line := line + [v];
      col := col + 1;
    }
  }

  /** The second half of initMatrix: every vertex gets its up, down, left and right edges. */
  method ConnectEdges(m: Matrix, rows: int, cols: int)
    requires Shaped(m, rows, cols) && Placed(m, rows, cols)
    requires forall r, c :: 0 <= r < rows && 0 <= c < cols ==> m[r][c].connectedVertices == []
    modifies Cells(m)
    ensures IsGrid(m, rows, cols)
    ensures forall r, c :: 0 <= r < rows && 0 <= c < cols ==>
      m[r][c].hValue == old(m[r][c].hValue) && m[r][c].isStart == old(m[r][c].isStart)
      && m[r][c].isEnd == old(m[r][c].isEnd)
  {
    var row := 0;
    while row < rows
      invariant 0 <= row <= rows
      invariant forall r, c :: 0 <= r < rows && 0 <= c < cols ==>
        m[r][c].hValue == old(m[r][c].hValue) && m[r][c].isStart == old(m[r][c].isStart)
        && m[r][c].isEnd == old(m[r][c].isEnd)
      invariant forall r, c {:trigger m[r][c].connectedVertices} :: 0 <= r < row && 0 <= c < cols ==>
        m[r][c].connectedVertices == Neighbours(m, rows, cols, r, c)
      invariant forall r, c {:trigger m[r][c].connectedVertices} :: row <= r < rows && 0 <= c < cols ==>
        m[r][c].connectedVertices == []
    {
      RowsApart(m, rows, cols, row);
      ConnectRow(m, rows, cols, row);
      row := row + 1;
    }
  }

  /** The edge-building pass of initMatrix on one row: four edges per cell, in the source's order. */
  method ConnectRow(m: Matrix, rows: int, cols: int, row: int)
    requires Shaped(m, rows, cols) && Placed(m, rows, cols) && 0 <= row < rows
    requires forall c :: 0 <= c < cols ==> m[row][c].connectedVertices == []
    modifies m[row]
    ensures forall c :: 0 <= c < cols ==>
      m[row][c].hValue == old(m[row][c].hValue) && m[row][c].isStart == old(m[row][c].isStart)
      && m[row][c].isEnd == old(m[row][c].isEnd)
    ensures forall c {:trigger m[row][c].connectedVertices} :: 0 <= c < cols ==>
      m[row][c].connectedVertices == Neighbours(m, rows, cols, row, c)
  {
    var line := m[row];
    var col := 0;
    while col < cols
      invariant 0 <= col <= cols
      invariant forall c :: 0 <= c < cols ==>
        line[c].hValue == old(line[c].hValue) && line[c].isStart == old(line[c].isStart)
        && line[c].isEnd == old(line[c].isEnd)
      invariant forall c {:trigger line[c].connectedVertices} :: 0 <= c < col ==>
        line[c].connectedVertices == Neighbours(m, rows, cols, row, c)
      invariant forall c {:trigger line[c].connectedVertices} :: col <= c < cols ==>
        line[c].connectedVertices == []
    {
      ConnectCell(line[col], m[Prev(row, rows)][col], m[Next(row, rows)][col],
                  m[row][Prev(col, cols)], m[row][Next(col, cols)]);
      col := col + 1;
    }
  }

  /** The four addEdge calls of initMatrix for one cell: up, down, left, right. */
  method ConnectCell(v: Vertex, up: Vertex, down: Vertex, left: Vertex, right: Vertex)
    modifies v`connectedVertices
    ensures v.connectedVertices == old(v.connectedVertices) + [up, down, left, right]
  {
    v.AddEdge(up);
    v.AddEdge(down);
    v.AddEdge(left);
    v.AddEdge(right);
  }

  /** clearHeuristics: every h value becomes 0; marks and edges stay. */
  method ClearHeuristics(m: Matrix, rows: int, cols: int)
    requires IsGrid(m, rows, cols)
    modifies Cells(m)
    ensures IsGrid(m, rows, cols)
    ensures forall r, c :: 0 <= r < rows && 0 <= c < cols ==>
      m[r][c].isStart == old(m[r][c].isStart) && m[r][c].isEnd == old(m[r][c].isEnd)
    ensures forall r, c {:trigger m[r][c].connectedVertices} :: 0 <= r < rows && 0 <= c < cols ==>
      m[r][c].connectedVertices == old(m[r][c].connectedVertices)
    ensures forall r, c :: 0 <= r < rows && 0 <= c < cols ==> m[r][c].hValue == 0.0
  {
    var row := 0;
    while row < rows
      invariant 0 <= row <= rows
      invariant forall r, c :: 0 <= r < rows && 0 <= c < cols ==>
        m[r][c].isStart == old(m[r][c].isStart) && m[r][c].isEnd == old(m[r][c].isEnd)
      invariant forall r, c {:trigger m[r][c].connectedVertices} :: 0 <= r < rows && 0 <= c < cols ==>
        m[r][c].connectedVertices == old(m[r][c].connectedVertices)
      invariant forall r, c :: 0 <= r < row && 0 <= c < cols ==> m[r][c].hValue == 0.0
    {
      ClearRow(m, rows, cols, row);
      row := row + 1;
    }
    forall r, c | 0 <= r < rows && 0 <= c < cols
      ensures m[r][c].connectedVertices == Neighbours(m, rows, cols, r, c)
    {
      assert old(m[r][c].connectedVertices) == Neighbours(m, rows, cols, r, c);
    }
  }

  method ClearRow(m: Matrix, rows: int, cols: int, row: int)
    requires Shaped(m, rows, cols) && Placed(m, rows, cols) && 0 <= row < rows
    modifies m[row]
    ensures forall c :: 0 <= c < cols ==> m[row][c].hValue == 0.0
    ensures forall c :: 0 <= c < cols ==>
      m[row][c].isStart == old(m[row][c].isStart) && m[row][c].isEnd == old(m[row][c].isEnd)
      && m[row][c].connectedVertices == old(m[row][c].connectedVertices)
  {
    var line := m[row];
    var col := 0;
    while col < cols
      invariant 0 <= col <= cols
      invariant forall c :: 0 <= c < col ==> line[c].hValue == 0.0
      invariant forall c :: 0 <= c < cols ==>
        line[c].isStart == old(line[c].isStart) && line[c].isEnd == old(line[c].isEnd)
        && line[c].connectedVertices == old(line[c].connectedVertices)
    {
      line[col].ClearHValue();
      col := col + 1;
    }
  }

  /** The h value setHeuristics gives the cell (col, row): MAX if blocked, else the distance to the target. */
  function HeuristicAt(g: int, clear: Position -> bool, distToTarget: Position -> real, col: int, row: int): real
    requires g > 0
  {
    var p := CentralCoordinate(g, col, row);
    if clear(p) then distToTarget(p) else DOUBLE_MAX
  }

  /**
   * setHeuristics: every cell gets HeuristicAt (the end cell's preliminary 0 is
   * overwritten), and the returned list holds exactly the blocked cells.
   */
  method SetHeuristics(m: Matrix, rows: int, cols: int, g: int,
                       clear: Position -> bool, distToTarget: Position -> real)
    returns (blocked: seq<Vertex>)
    requires IsGrid(m, rows, cols) && g > 0
    modifies Cells(m)
    ensures IsGrid(m, rows, cols)
    ensures forall r, c :: 0 <= r < rows && 0 <= c < cols ==>
      m[r][c].isStart == old(m[r][c].isStart) && m[r][c].isEnd == old(m[r][c].isEnd)
    ensures forall r, c :: 0 <= r < rows && 0 <= c < cols ==>
      m[r][c].hValue == HeuristicAt(g, clear, distToTarget, c, r)
    ensures forall r, c :: 0 <= r < rows && 0 <= c < cols ==>
      (m[r][c] in blocked <==> !clear(CentralCoordinate(g, c, r)))
    ensures forall v :: v in blocked ==> InGrid(m, rows, cols, v)
  {
    blocked := [];
    var row := 0;
    while row < rows
      invariant 0 <= row <= rows
      invariant forall r, c :: 0 <= r < rows && 0 <= c < cols ==>
        m[r][c].isStart == old(m[r][c].isStart) && m[r][c].isEnd == old(m[r][c].isEnd)
      invariant IsGrid(m, rows, cols)
      invariant forall r, c :: 0 <= r < row && 0 <= c < cols ==>
        m[r][c].hValue == HeuristicAt(g, clear, distToTarget, c, r)
      invariant BlockedBefore(m, rows, cols, row, g, clear, blocked)
    {
      RowsApart(m, rows, cols, row);
      var blockedRow := SetRow(m, rows, cols, row, g, clear, distToTarget);
      BlockedStep(m, rows, cols, row, g, clear, blocked, blockedRow);
      blocked := blocked + blockedRow;
      row := row + 1;
    }
  }

  /** blocked holds exactly the blocked cells of the rows before row, and only grid cells. */
  ghost predicate BlockedBefore(m: Matrix, rows: int, cols: int, row: int, g: int, clear: Position -> bool, blocked: seq<Vertex>)
    requires Shaped(m, rows, cols) && g > 0
  {
    && (forall r, c :: 0 <= r < rows && 0 <= c < cols ==>
          (m[r][c] in blocked <==> r < row && !clear(CentralCoordinate(g, c, r))))
    && (forall v :: v in blocked ==> InGrid(m, rows, cols, v))
  }

  /** blockedRow holds exactly the blocked cells of the given row. */
  ghost predicate BlockedInRow(m: Matrix, rows: int, cols: int, row: int, g: int, clear: Position -> bool, blockedRow: seq<Vertex>)
    requires Shaped(m, rows, cols) && 0 <= row < rows && g > 0
  {
    && (forall c :: 0 <= c < cols ==> (m[row][c] in blockedRow <==> !clear(CentralCoordinate(g, c, row))))
    && (forall v :: v in blockedRow ==> InGrid(m, rows, cols, v) && v.mtxRow == row)
  }

  /** Appending one row's blocked cells extends the list to the rows up to and including it. */
  lemma BlockedStep(m: Matrix, rows: int, cols: int, row: int, g: int, clear: Position -> bool,
                    blocked: seq<Vertex>, blockedRow: seq<Vertex>)
    requires Shaped(m, rows, cols) && Placed(m, rows, cols) && 0 <= row < rows && g > 0
    requires BlockedBefore(m, rows, cols, row, g, clear, blocked)
    requires BlockedInRow(m, rows, cols, row, g, clear, blockedRow)
    ensures BlockedBefore(m, rows, cols, row + 1, g, clear, blocked + blockedRow)
  {
    forall r, c | 0 <= r < rows && 0 <= c < cols
      ensures m[r][c] in blocked + blockedRow <==> r < row + 1 && !clear(CentralCoordinate(g, c, r))
    {
      assert m[r][c].mtxRow == r;
    }
  }

  /** The cells of the other rows are not among those of the given row. */
  lemma RowsApart(m: Matrix, rows: int, cols: int, row: int)
    requires Shaped(m, rows, cols) && Placed(m, rows, cols) && 0 <= row < rows
    ensures forall r, c :: 0 <= r < rows && 0 <= c < cols && r != row ==> m[r][c] !in m[row]
  {
    assert forall k :: 0 <= k < |m[row]| ==> m[row][k].mtxRow == row;
  }

  /** setHeuristics on one row of the matrix. */
  method SetRow(m: Matrix, rows: int, cols: int, row: int, g: int,
                clear: Position -> bool, distToTarget: Position -> real)
    returns (blocked: seq<Vertex>)
    requires Shaped(m, rows, cols) && Placed(m, rows, cols) && 0 <= row < rows && g > 0
    modifies m[row]
    ensures forall c :: 0 <= c < cols ==> m[row][c].hValue == HeuristicAt(g, clear, distToTarget, c, row)
    ensures forall c :: 0 <= c < cols ==>
      m[row][c].isStart == old(m[row][c].isStart) && m[row][c].isEnd == old(m[row][c].isEnd)
      && m[row][c].connectedVertices == old(m[row][c].connectedVertices)
    ensures BlockedInRow(m, rows, cols, row, g, clear, blocked)
  {
    blocked := [];
    var line := m[row];
    var col := 0;
    while col < cols
      invariant 0 <= col <= cols
      invariant forall c :: 0 <= c < col ==> line[c].hValue == HeuristicAt(g, clear, distToTarget, c, row)
      invariant forall c :: 0 <= c < cols ==>
        line[c].isStart == old(line[c].isStart) && line[c].isEnd == old(line[c].isEnd)
        && line[c].connectedVertices == old(line[c].connectedVertices)
      invariant forall c :: 0 <= c < cols ==> (line[c] in blocked <==> c < col && !clear(CentralCoordinate(g, c, row)))
      invariant forall v :: v in blocked ==> InGrid(m, rows, cols, v) && v.mtxRow == row
    {
      var v := line[col];
      var posV := CentralCoordinate(g, v.mtxColumn, v.mtxRow);
      var heuristicValue := 0.0;
      if v.isEnd {
        v.SetHValue(0.0);
      }
      if clear(posV) {
        heuristicValue := distToTarget(posV);
      } else {
        heuristicValue := DOUBLE_MAX;
        blocked := blocked + [v];
      }
      v.SetHValue(heuristicValue);
      col := col + 1;
    }
  }

  /** markStart or markNotStart on a grid vertex: only its start mark changes, and the grid stays wired. */
  method SetStartMark(m: Matrix, rows: int, cols: int, v: Vertex, on: bool)
    requires IsGrid(m, rows, cols) && InGrid(m, rows, cols, v)
    modifies v`isStart
    ensures IsGrid(m, rows, cols) && v.isStart == on
  {
    if on {
      v.MarkStart();
    } else {
      v.MarkNotStart();
    }
    forall r, c | 0 <= r < rows && 0 <= c < cols
      ensures m[r][c].connectedVertices == Neighbours(m, rows, cols, r, c)
    {
      assert old(m[r][c].connectedVertices) == Neighbours(m, rows, cols, r, c);
    }
  }

  /** markEnd or markNotEnd on a grid vertex: only its end mark changes, and the grid stays wired. */
  method SetEndMark(m: Matrix, rows: int, cols: int, v: Vertex, on: bool)
    requires IsGrid(m, rows, cols) && InGrid(m, rows, cols, v)
    modifies v`isEnd
    ensures IsGrid(m, rows, cols) && v.isEnd == on
  {
    if on {
      v.MarkEnd();
    } else {
      v.MarkNotEnd();
    }
    forall r, c | 0 <= r < rows && 0 <= c < cols
      ensures m[r][c].connectedVertices == Neighbours(m, rows, cols, r, c)
    {
      assert old(m[r][c].connectedVertices) == Neighbours(m, rows, cols, r, c);
    }
  }
}
