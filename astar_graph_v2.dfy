/**
 * spacesettlers.bost7517.astar.AStarGraph (version 0.2): the older grid graph.
 * It builds the same toroidal grid, but its search keeps no closed set and
 * stops only at the end-marked cell, and its paths are the de-duplicating
 * astar.AStarPath. The obstacle sweep of gridIsClearOfObstacles is the
 * engine's isPathClearOfObstructions and enters as a parameter.
 */
module AStarGraphV2 {
  import opened Wrappers
  import opened JavaNum
  import opened GameObjects
  import opened Vertices
  import opened GridGeometry
  import opened TorusGrid
  import opened SearchCommon
  import AStarGraphs
  import DP = DedupPaths

  /**
   * The two vertical sweeps of gridIsClearOfObstacles around a central
   * coordinate, against a set of obstructions; supplied by the engine.
   */
  type Sweep = (set<GameObject>, Position) -> bool

  /** A queued path of the search from start: valid, of step g, a walk from start through grid vertices. */
  ghost predicate PathOk(p: DP.DedupPath, m: Matrix, rows: int, cols: int, g: int, start: Vertex)
    reads p, p.vertices
  {
    Shaped(m, rows, cols) && p.Valid() && p.gridSize == g && |p.vertices| > 0 && IsWalk(p.vertices, start)
    && forall v :: v in p.vertices ==> InGrid(m, rows, cols, v)
  }

  /**
   * The child loop of getPathTo (lines 128-132): every edge of the current
   * vertex, open or not, gets a duplicate of the path extended by it, behind
   * the paths already queued. An edge back onto the path leaves the duplicate
   * equal to the path itself.
   */
  method Expand(m: Matrix, rows: int, cols: int, g: int, start: Vertex, thisPath: DP.DedupPath,
                queue: seq<DP.DedupPath>)
    returns (queue': seq<DP.DedupPath>)
    requires IsGrid(m, rows, cols) && PathOk(thisPath, m, rows, cols, g, start)
    requires forall j :: 0 <= j < |queue| ==> PathOk(queue[j], m, rows, cols, g, start)
    ensures |queue'| == |queue| + |thisPath.CurrentVertex().connectedVertices| && queue'[..|queue|] == queue
    ensures forall j :: 0 <= j < |queue'| ==> PathOk(queue'[j], m, rows, cols, g, start)
    ensures forall k :: 0 <= k < |thisPath.CurrentVertex().connectedVertices| ==>
      var w := thisPath.CurrentVertex().connectedVertices[k];
      queue'[|queue| + k].vertices == if w in thisPath.vertices then thisPath.vertices else thisPath.vertices + [w]
  {
    var cur := thisPath.CurrentVertex();
    assert cur in thisPath.vertices;
    EdgesInGrid(m, rows, cols, cur);
    var children := Children(m, rows, cols, g, start, thisPath);
    queue' := queue + children;
    forall j | 0 <= j < |queue'|
      ensures PathOk(queue'[j], m, rows, cols, g, start)
    {
      if j < |queue| {
        assert queue'[j] == queue[j];
      } else {
        assert queue'[j] == children[j - |queue|];
      }
    }
    assert queue'[..|queue|] == queue;
  }

  /** The loop itself: one child path per edge of the current vertex, in edge order. */
  method Children(m: Matrix, rows: int, cols: int, g: int, start: Vertex, thisPath: DP.DedupPath)
    returns (children: seq<DP.DedupPath>)
    requires PathOk(thisPath, m, rows, cols, g, start)
    requires forall w :: w in thisPath.CurrentVertex().connectedVertices ==> InGrid(m, rows, cols, w)
    ensures |children| == |thisPath.CurrentVertex().connectedVertices|
    ensures forall j :: 0 <= j < |children| ==> PathOk(children[j], m, rows, cols, g, start)
    ensures forall j :: 0 <= j < |children| ==>
      var w := thisPath.CurrentVertex().connectedVertices[j];
      children[j].vertices == if w in thisPath.vertices then thisPath.vertices else thisPath.vertices + [w]
  {
    var edges := thisPath.CurrentVertex().connectedVertices;
    children := [];
    var k := 0;
    while k < |edges|
      invariant 0 <= k <= |edges| && |children| == k
      invariant forall j :: 0 <= j < k ==> PathOk(children[j], m, rows, cols, g, start)
      invariant forall j :: 0 <= j < k ==>
        children[j].vertices == if edges[j] in thisPath.vertices then thisPath.vertices else thisPath.vertices + [edges[j]]
    {
      var childPath := Child(m, rows, cols, g, start, thisPath, edges[k]);
      children := children + [childPath];
      k := k + 1;
    }
  }

  /** The duplicate of a queued path extended by one edge of its current vertex is again a queued path of the search. */
  method Child(m: Matrix, rows: int, cols: int, g: int, start: Vertex, thisPath: DP.DedupPath, child: Vertex)
    returns (childPath: DP.DedupPath)
    requires PathOk(thisPath, m, rows, cols, g, start)
    requires child in thisPath.CurrentVertex().connectedVertices && InGrid(m, rows, cols, child)
    ensures fresh(childPath) && PathOk(childPath, m, rows, cols, g, start)
    ensures childPath.vertices == if child in thisPath.vertices then thisPath.vertices else thisPath.vertices + [child]
  {
    childPath := DP.ChildPath(thisPath, child);
    if child !in thisPath.vertices {
      assert childPath.vertices[..|thisPath.vertices|] == thisPath.vertices;
      ExtendWalk(thisPath.vertices, start, child);
    }
  }

  /**
   * One iteration of the search loop after a poll that found no end mark
   * (lines 128-132): remove the polled path and queue its four children. At
   * least two vertices means an edge leads back onto the path, so one child
   * is a copy of the polled path with the same key.
   */
  method Visit(m: Matrix, rows: int, cols: int, g: int, start: Vertex, queue: seq<DP.DedupPath>, i: int)
    returns (queue': seq<DP.DedupPath>, ghost copyAt: int)
    requires IsGrid(m, rows, cols) && 0 <= i < |queue|
    requires forall j :: 0 <= j < |queue| ==> PathOk(queue[j], m, rows, cols, g, start)
    ensures |queue'| == |queue| + 3 && queue'[..|queue| - 1] == queue[..i] + queue[i + 1..]
    ensures forall j :: 0 <= j < |queue'| ==> PathOk(queue'[j], m, rows, cols, g, start)
    ensures |queue[i].vertices| >= 2 ==>
      0 <= copyAt < |queue'| && queue'[copyAt].vertices == queue[i].vertices && queue'[copyAt].Key() == queue[i].Key()
  {
    var thisPath := queue[i];
    var rest := queue[..i] + queue[i + 1..];
    RemoveAt(queue, i);
    forall j | 0 <= j < |rest|
      ensures PathOk(rest[j], m, rows, cols, g, start)
    {
      var k := if j < i then j else j + 1;
      assert rest[j] == queue[k];
    }
    var cur := thisPath.CurrentVertex();
    assert cur in thisPath.vertices;
    EdgesInGrid(m, rows, cols, cur);
    queue' := Expand(m, rows, cols, g, start, thisPath, rest);
    copyAt := 0;
    var n := |thisPath.vertices|;
    if n >= 2 {
      var back := thisPath.vertices[n - 2];
      assert back in thisPath.vertices;
      EdgeBack(m, rows, cols, back, cur);
      var k :| 0 <= k < 4 && cur.connectedVertices[k] == back;
      copyAt := |rest| + k;
      assert queue'[copyAt].vertices == thisPath.vertices;
    }
  }

  /**
   * The search loop of getPathTo (lines 116-133), with at most maxPolls polls:
   * poll a least path; stop at the end mark, otherwise queue all its
   * children. The queue never runs dry. The ghost result lists the keys of
   * the polled non-goal paths of two or more vertices: each such poll puts
   * a copy of its path back, so no path found later has a greater key.
   */
  method Search(m: Matrix, rows: int, cols: int, g: int, start: Vertex, maxPolls: nat)
    returns (r: Outcome<DP.DedupPath>, ghost stalls: seq<real>)
    requires IsGrid(m, rows, cols) && g > 0 && InGrid(m, rows, cols, start)
    ensures r.Found? || r.OutOfPolls?
    ensures r.Found? ==> PathOk(r.path, m, rows, cols, g, start) && r.path.CurrentVertex().isEnd
    ensures r.Found? ==> forall k :: k in stalls ==> r.path.Key() <= k
  {
    var first := DP.DedupPath.MakePath(g, start);
    var queue := [first];
    stalls := [];
    ghost var floor: real := 0.0;
    ghost var wit := 0;
    var polls := 0;
    while polls < maxPolls
      invariant |queue| > 0
      invariant forall j :: 0 <= j < |queue| ==> PathOk(queue[j], m, rows, cols, g, start)
      invariant forall k :: k in stalls ==> floor <= k
      invariant |stalls| > 0 ==> 0 <= wit < |queue| && queue[wit].Key() <= floor && |queue[wit].vertices| >= 2
      decreases maxPolls - polls
    {
      var i := DP.Poll(queue);
      var thisPath := queue[i];
      if thisPath.CurrentVertex().isEnd {
        r := Found(thisPath);
        return;
      }
      ghost var key := thisPath.Key();
      ghost var oldQueue := queue;
      ghost var copyAt;
      queue, copyAt := Visit(m, rows, cols, g, start, queue, i);
      if |thisPath.vertices| >= 2 {
        stalls := stalls + [key];
        floor := key;
        wit := copyAt;
      } else if |stalls| > 0 {
        assert wit != i;
        RemoveAt(oldQueue, i);
        wit := if wit < i then wit else wit - 1;
        assert queue[wit] == (oldQueue[..i] + oldQueue[i + 1..])[wit];
      }
      polls := polls + 1;
    }
    r := OutOfPolls;
  }

  /**
   * The search stalls on a diagonal target. With cells of size g on a grid of
   * at least 5 by 5, from cell (0, 0) toward the centre of cell (2, 2), the
   * right and lower neighbours lie g * sqrt(5) = d from the target, so the
   * first two-vertex path polled has key 2g + d. Every walk that reaches
   * (2, 2) has at least five vertices, so every path the search could return
   * costs more than that key, and by the contract of Search none is returned.
   */
  lemma DiagonalTargetStalls(m: Matrix, rows: int, cols: int, g: int, vs: seq<Vertex>, d: real)
    requires IsGrid(m, rows, cols) && rows >= 5 && cols >= 5 && g > 0
    requires IsWalk(vs, m[0][0]) && vs[|vs| - 1] == m[2][2] && forall v :: v in vs ==> InGrid(m, rows, cols, v)
    requires d >= 0.0 && d * d == 5.0 * g as real * g as real
    ensures |vs| >= 5
    ensures (2 * g) as real + d < (g * |vs|) as real
  {
    WalkLengthBound(m, rows, cols, vs, m[0][0]);
    assert GridDist(rows, cols, m[0][0], m[2][2]) == 4;
    assert g * |vs| >= g * 5;
  }

  class AStarGraph {
    /** GRID_SIZE, twice the engine's largest asteroid radius. */
    const gridSize: int
    const mtxCols: int
    const mtxRows: int
    const debug: bool
    /** The vertex matrix, indexed [row][column]. */
    const vMtx: Matrix

    /** The fixed part of the graph: int-range dimensions and every cell in place. */
    ghost predicate Shape()
    {
      0 < gridSize <= INT_MAX && mtxRows * gridSize <= INT_MAX && mtxCols * gridSize <= INT_MAX
      && Shaped(vMtx, mtxRows, mtxCols) && Placed(vMtx, mtxRows, mtxCols)
    }

    ghost predicate Valid()
      reads this, Cells(vMtx)
    {
      Shape() && IsGrid(vMtx, mtxRows, mtxCols)
    }

    /**
     * The public constructor: windowWidth / GRID_SIZE columns and
     * windowHeight / GRID_SIZE rows (Java division), then initMatrix.
     */
    constructor (windowHeight: int, windowWidth: int, debugFlag: bool, g: int)
      requires 0 < g <= INT_MAX && IsInt32(windowHeight) && IsInt32(windowWidth)
      requires Quot(windowWidth, g) >= 0 && Quot(windowHeight, g) >= 0
      ensures mtxCols == Quot(windowWidth, g) && mtxRows == Quot(windowHeight, g)
      ensures gridSize == g && debug == debugFlag
      ensures Valid()
      ensures forall r, c :: 0 <= r < mtxRows && 0 <= c < mtxCols ==> fresh(vMtx[r][c]) && Unmarked(vMtx[r][c])
    {
      var cols := Quot(windowWidth, g);
      var rows := Quot(windowHeight, g);
      var m := InitMatrix(rows, cols);
      gridSize := g;
      mtxCols := cols;
      mtxRows := rows;
      debug := debugFlag;
      vMtx := m;
    }

    /** getCentralCoordinate. */
    function GetCentralCoordinate(v: Vertex): Position
      requires gridSize > 0
    {
      CentralCoordinate(gridSize, v.mtxColumn, v.mtxRow)
    }

    /**
     * getVertex as written: the coordinates divided by the row and column
     * counts. None where the array access is out of bounds (an exception the
     * source does not catch).
     */
    function GetVertexAsWritten(p: Position): (r: Option<Vertex>)
      requires Shape()
      ensures r.Some? ==> InGrid(vMtx, mtxRows, mtxCols, r.value)
    {
      match CellOfByCounts(mtxRows, mtxCols, p)
      case Some((row, col)) => Some(vMtx[row][col])
      case None => None
    }

    /**
     * getVertex as evidently intended: the coordinates divided by GRID_SIZE,
     * with no clamping; None where the array access is out of bounds.
     */
    function GetVertex(p: Position): (r: Option<Vertex>)
      requires Shape()
      ensures r.Some? ==> InGrid(vMtx, mtxRows, mtxCols, r.value)
    {
      match CellOfBySize(gridSize, mtxRows, mtxCols, p)
      case Some((row, col)) => Some(vMtx[row][col])
      case None => None
    }

    /** The round trip of the intended lookup: the cell of a vertex's central coordinate is that vertex. */
    lemma VertexOfCentre(v: Vertex)
      requires Shape() && InGrid(vMtx, mtxRows, mtxCols, v)
      ensures GetVertex(GetCentralCoordinate(v)) == Some(v)
    {
      CellOfBySizeCentre(gridSize, mtxRows, mtxCols, v.mtxRow, v.mtxColumn);
    }

    /**
     * setHeuristics: collect the obstructions, then give every cell MAX if
     * the sweep around its centre meets one and its distance to the target
     * otherwise. The end cell's preliminary 0 is overwritten.
     */
    method SetHeuristicsFor(ship: GameObject, target: GameObject, all: seq<GameObject>, dist: Distance, sweep: Sweep)
      requires Valid()
      modifies Cells(vMtx)
      ensures Valid()
      ensures forall r, c :: 0 <= r < mtxRows && 0 <= c < mtxCols ==>
        vMtx[r][c].isStart == old(vMtx[r][c].isStart) && vMtx[r][c].isEnd == old(vMtx[r][c].isEnd)
      ensures forall r, c :: 0 <= r < mtxRows && 0 <= c < mtxCols ==>
        vMtx[r][c].hValue == HeuristicAt(gridSize, p => sweep(AStarGraphs.ObstructionsOf(ship, target, all), p),
                                         p => dist(p, target.position), c, r)
    {
      var obstructions := AStarGraphs.Obstructions(ship, target, all);
      var _ := SetHeuristics(vMtx, mtxRows, mtxCols, gridSize,
                             p => sweep(obstructions, p), p => dist(p, target.position));
    }

    /**
     * The preamble of getPathTo (lines 95-102): clear the heuristics, mark the
     * ship's cell start, then mark the target's cell end. An out-of-range cell
     * stops it there, so a bad target position leaves the start mark set.
     */
    method Begin(shipPos: Position, targetPos: Position) returns (cells: Option<(Vertex, Vertex)>)
      requires Valid()
      modifies Cells(vMtx)
      ensures Valid()
      ensures cells.None? <==> GetVertex(shipPos).None? || GetVertex(targetPos).None?
      ensures cells.Some? ==> cells.value == (GetVertex(shipPos).value, GetVertex(targetPos).value)
      ensures forall r, c :: 0 <= r < mtxRows && 0 <= c < mtxCols ==> vMtx[r][c].hValue == 0.0
      ensures forall r, c :: 0 <= r < mtxRows && 0 <= c < mtxCols ==>
        vMtx[r][c].isStart == (old(vMtx[r][c].isStart) || Some(vMtx[r][c]) == GetVertex(shipPos))
      ensures forall r, c :: 0 <= r < mtxRows && 0 <= c < mtxCols ==>
        vMtx[r][c].isEnd == (old(vMtx[r][c].isEnd) || (GetVertex(shipPos).Some? && Some(vMtx[r][c]) == GetVertex(targetPos)))
    {
      ClearHeuristics(vMtx, mtxRows, mtxCols);
      var shipCell := GetVertex(shipPos);
      if shipCell.None? {
        return None;
      }
      var vShip := shipCell.value;
      InGridInCells(vMtx, mtxRows, mtxCols, vShip);
      SetStartMark(vMtx, mtxRows, mtxCols, vShip, true);
      var targetCell := GetVertex(targetPos);
      if targetCell.None? {
        return None;
      }
      var vTarget := targetCell.value;
      InGridInCells(vMtx, mtxRows, mtxCols, vTarget);
      SetEndMark(vMtx, mtxRows, mtxCols, vTarget, true);
      cells := Some((vShip, vTarget));
    }

    /**
     * The body of getPathTo once both cells are marked (lines 104-138): set the
     * heuristics, search for at most maxPolls polls from the ship's cell, and
     * clear the end mark and then the start mark, however the search ended.
     */
    method SearchFrom(ship: GameObject, target: GameObject, all: seq<GameObject>, dist: Distance, sweep: Sweep,
                      vShip: Vertex, vTarget: Vertex, maxPolls: nat)
      returns (r: Outcome<DP.DedupPath>, ghost stalls: seq<real>)
      requires Valid() && InGrid(vMtx, mtxRows, mtxCols, vShip) && InGrid(vMtx, mtxRows, mtxCols, vTarget)
      modifies Cells(vMtx)
      ensures Valid() && (r.Found? || r.OutOfPolls?)
      ensures r.Found? ==> PathOk(r.path, vMtx, mtxRows, mtxCols, gridSize, vShip)
      ensures r.Found? ==> forall row, col :: 0 <= row < mtxRows && 0 <= col < mtxCols && vMtx[row][col] == r.path.CurrentVertex() ==>
        vMtx[row][col] == vTarget || old(vMtx[row][col].isEnd)
      ensures r.Found? ==> forall k :: k in stalls ==> r.path.Key() <= k
      ensures forall row, col :: 0 <= row < mtxRows && 0 <= col < mtxCols ==>
        vMtx[row][col].isStart == (old(vMtx[row][col].isStart) && vMtx[row][col] != vShip)
        && vMtx[row][col].isEnd == (old(vMtx[row][col].isEnd) && vMtx[row][col] != vTarget)
      ensures forall row, col :: 0 <= row < mtxRows && 0 <= col < mtxCols ==>
        vMtx[row][col].hValue == HeuristicAt(gridSize, p => sweep(AStarGraphs.ObstructionsOf(ship, target, all), p),
                                             p => dist(p, target.position), col, row)
    {
      SetHeuristicsFor(ship, target, all, dist, sweep);
      r, stalls := Search(vMtx, mtxRows, mtxCols, gridSize, vShip, maxPolls);
      SetEndMark(vMtx, mtxRows, mtxCols, vTarget, false);
      SetStartMark(vMtx, mtxRows, mtxCols, vShip, false);
    }

    /**
     * getPathTo (lines 90-139), with the intended cell lookup and at most
     * maxPolls polls: a found path runs from the ship's cell to a cell that
     * was marked end, which is the target's cell when no stale end mark was
     * left behind; the marks set on entry are cleared on return.
     */
    method GetPathTo(ship: GameObject, target: GameObject, all: seq<GameObject>, dist: Distance, sweep: Sweep,
                     maxPolls: nat)
      returns (r: Outcome<DP.DedupPath>, ghost stalls: seq<real>)
      requires Valid()
      modifies Cells(vMtx)
      ensures Valid()
      ensures r.NullCell? <==> GetVertex(ship.position).None? || GetVertex(target.position).None?
      ensures !r.NoPath? && !r.CapReached?
      ensures r.Found? ==>
        GetVertex(ship.position).Some? && GetVertex(target.position).Some?
        && PathOk(r.path, vMtx, mtxRows, mtxCols, gridSize, GetVertex(ship.position).value)
      ensures r.Found? && (forall row, col :: 0 <= row < mtxRows && 0 <= col < mtxCols ==> !old(vMtx[row][col].isEnd)) ==>
        r.path.CurrentVertex() == GetVertex(target.position).value
      ensures r.Found? ==> forall k :: k in stalls ==> r.path.Key() <= k
      ensures !r.NullCell? ==> forall row, col :: 0 <= row < mtxRows && 0 <= col < mtxCols ==>
        vMtx[row][col].isStart == (old(vMtx[row][col].isStart) && Some(vMtx[row][col]) != GetVertex(ship.position))
        && vMtx[row][col].isEnd == (old(vMtx[row][col].isEnd) && Some(vMtx[row][col]) != GetVertex(target.position))
      ensures r.NullCell? ==> forall row, col :: 0 <= row < mtxRows && 0 <= col < mtxCols ==>
        vMtx[row][col].hValue == 0.0
        && vMtx[row][col].isStart == (old(vMtx[row][col].isStart) || Some(vMtx[row][col]) == GetVertex(ship.position))
        && vMtx[row][col].isEnd == old(vMtx[row][col].isEnd)
      ensures !r.NullCell? ==> forall row, col :: 0 <= row < mtxRows && 0 <= col < mtxCols ==>
        vMtx[row][col].hValue == HeuristicAt(gridSize, p => sweep(AStarGraphs.ObstructionsOf(ship, target, all), p),
                                             p => dist(p, target.position), col, row)
    {
      var cells := Begin(ship.position, target.position);
      if cells.None? {
        r := NullCell;
        stalls := [];
        return;
      }
      var (vShip, vTarget) := cells.value;
      assert vShip == vMtx[vShip.mtxRow][vShip.mtxColumn];
      assert vTarget == vMtx[vTarget.mtxRow][vTarget.mtxColumn];
      r, stalls := SearchFrom(ship, target, all, dist, sweep, vShip, vTarget, maxPolls);
      if r.Found? {
        var last := r.path.CurrentVertex();
        assert last in r.path.vertices;
        assert vMtx[last.mtxRow][last.mtxColumn] == last;
      }
    }
  }
}
