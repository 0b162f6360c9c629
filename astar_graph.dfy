/**
 * spacesettlers.bost7517.AStarGraph (version 0.3): the singleton grid graph
 * over the window, its heuristic passes, and the A* and greedy best-first
 * searches with a closed set. GRID_SIZE is the constant gridSize of the graph.
 */
module AStarGraphs {
  import opened Wrappers
  import opened JavaNum
  import opened GameObjects
  import opened AgentUtils
  import opened Vertices
  import opened GridGeometry
  import opened TorusGrid
  import opened SearchCommon
  import AP = AStarPaths
  import GP = GBFSPaths

  /** The objects setHeuristics treats as obstructions: obstacles to the ship other than the target. */
  ghost function ObstructionsOf(ship: GameObject, target: GameObject, all: seq<GameObject>): set<GameObject>
  {
    set o | o in all && IsObstacle(ship, o) && o.id != target.id
  }

  /** The obstruction-collecting loop of setHeuristics. */
  method Obstructions(ship: GameObject, target: GameObject, all: seq<GameObject>) returns (obs: set<GameObject>)
    ensures forall o :: o in obs <==> o in all && IsObstacle(ship, o) && o.id != target.id
    ensures obs == ObstructionsOf(ship, target, all)
    ensures target !in obs
  {
    obs := {};
    var k := 0;
    while k < |all|
      invariant 0 <= k <= |all|
      invariant forall o :: o in obs <==> o in all[..k] && IsObstacle(ship, o) && o.id != target.id
    {
      var obj := all[k];
      if IsObstacle(ship, obj) && obj.id != target.id {
        obs := obs + {obj};
      }
      assert all[..k + 1] == all[..k] + [obj];
      k := k + 1;
    }
    assert all[..k] == all;
  }

  /** The clearance radius of gridIsClearOfObstacles: GRID_SIZE * 3 / 4 in int arithmetic. */
  function ClearanceRadius(g: int): int
    requires g > 0
  {
    Quot(g * 3, 4)
  }

  /**
   * gridIsClearOfObstacles as a predicate: every obstruction is farther from
   * pc than the clearance radius plus its own diameter.
   */
  predicate ClearOf(g: int, obstructions: set<GameObject>, pc: Position, dist: Distance)
    requires g > 0
  {
    forall o :: o in obstructions ==> dist(o.position, pc) > (ClearanceRadius(g) + 2 * o.radius) as real
  }

  /** The loop of gridIsClearOfObstacles: false at the first obstruction within reach. */
  method GridIsClearOfObstacles(g: int, obstructions: set<GameObject>, pc: Position, dist: Distance)
    returns (clear: bool)
    requires g > 0
    ensures clear <==> ClearOf(g, obstructions, pc, dist)
    ensures !clear ==> exists o :: o in obstructions && dist(o.position, pc) <= (ClearanceRadius(g) + 2 * o.radius) as real
  {
    var rest := obstructions;
    while rest != {}
      invariant rest <= obstructions
      invariant forall o :: o in obstructions - rest ==> dist(o.position, pc) > (ClearanceRadius(g) + 2 * o.radius) as real
      decreases |rest|
    {
      var o :| o in rest;
      if dist(o.position, pc) <= (ClearanceRadius(g) + 2 * o.radius) as real {
        return false;
      }
      rest := rest - {o};
    }
    return true;
  }

  /** A queued path of the search from start: valid, of step g, a walk from start through grid vertices. */
  ghost predicate PathOk(p: AP.AStarPath, m: Matrix, rows: int, cols: int, g: int, start: Vertex)
    reads p, p.vertices
  {
    Shaped(m, rows, cols) && p.Valid() && p.gridSize == g && |p.vertices| > 0 && IsWalk(p.vertices, start)
    && forall v :: v in p.vertices ==> InGrid(m, rows, cols, v)
  }

  /**
   * The child loop of getPathTo (lines 187-195): for each edge of the current
   * vertex that is not closed, enqueue a duplicate of the path extended by it.
   * ends lists the queued paths' last vertices; existing entries keep their places.
   */
  method Expand(m: Matrix, rows: int, cols: int, g: int, start: Vertex, thisPath: AP.AStarPath,
                 closed: set<Vertex>, queue: seq<AP.AStarPath>, ghost ends: seq<Vertex>)
    returns (queue': seq<AP.AStarPath>, ghost ends': seq<Vertex>)
    requires IsGrid(m, rows, cols) && PathOk(thisPath, m, rows, cols, g, start)
    requires |ends| == |queue|
    requires forall j :: 0 <= j < |queue| ==> PathOk(queue[j], m, rows, cols, g, start) && ends[j] == queue[j].CurrentVertex()
    ensures |ends'| == |queue'| && |queue| <= |queue'| && queue'[..|queue|] == queue && ends'[..|ends|] == ends
    ensures forall j :: 0 <= j < |queue'| ==> PathOk(queue'[j], m, rows, cols, g, start) && ends'[j] == queue'[j].CurrentVertex()
    ensures forall w :: w in thisPath.CurrentVertex().connectedVertices ==> w in closed || w in ends'
    ensures ends'[|ends|..] == OpenEdges(thisPath.CurrentVertex().connectedVertices, closed)
    ensures forall j :: |queue| <= j < |queue'| ==> queue'[j].vertices == thisPath.vertices + [ends'[j]]
  {
    var cur := thisPath.CurrentVertex();
    EdgesInGrid(m, rows, cols, cur);
    var children, kids := OpenChildren(m, rows, cols, g, start, thisPath, closed);
    queue', ends' := queue + children, ends + kids;
    forall j | 0 <= j < |queue'|
      ensures PathOk(queue'[j], m, rows, cols, g, start) && ends'[j] == queue'[j].CurrentVertex()
    {
      if j >= |queue| {
        assert queue'[j] == children[j - |queue|] && ends'[j] == kids[j - |queue|];
      }
    }
    assert queue'[..|queue|] == queue && ends'[..|ends|] == ends && ends'[|ends|..] == kids;
    OpenEdgesMembers(cur.connectedVertices, closed);
  }

  /** The loop itself: one child path per edge of the current vertex that is not closed, in edge order. */
  method OpenChildren(m: Matrix, rows: int, cols: int, g: int, start: Vertex, thisPath: AP.AStarPath, closed: set<Vertex>)
    returns (children: seq<AP.AStarPath>, ghost kids: seq<Vertex>)
    requires PathOk(thisPath, m, rows, cols, g, start)
    requires forall w :: w in thisPath.CurrentVertex().connectedVertices ==> InGrid(m, rows, cols, w)
    ensures kids == OpenEdges(thisPath.CurrentVertex().connectedVertices, closed) && |children| == |kids|
    ensures forall j :: 0 <= j < |children| ==>
      PathOk(children[j], m, rows, cols, g, start) && children[j].vertices == thisPath.vertices + [kids[j]]
  {
    var edges := thisPath.CurrentVertex().connectedVertices;
    children, kids := [], [];
    var k := 0;
    while k < |edges|
      invariant 0 <= k <= |edges| && |children| == |kids|
      invariant kids == OpenEdges(edges[..k], closed)
      invariant forall j :: 0 <= j < |children| ==> PathOk(children[j], m, rows, cols, g, start)
      invariant forall j :: 0 <= j < |children| ==> children[j].vertices == thisPath.vertices + [kids[j]]
    {
      var child := edges[k];
      if child !in closed {
        var childPath := Child(m, rows, cols, g, start, thisPath, child);
        children, kids := children + [childPath], kids + [child];
      }
      assert edges[..k + 1][..k] == edges[..k];
      k := k + 1;
    }
    assert edges[..k] == edges;
  }

  /** The duplicate of a queued path extended by one edge of its current vertex is again a queued path of the search. */
  method Child(m: Matrix, rows: int, cols: int, g: int, start: Vertex, thisPath: AP.AStarPath, child: Vertex)
    returns (childPath: AP.AStarPath)
    requires PathOk(thisPath, m, rows, cols, g, start)
    requires child in thisPath.CurrentVertex().connectedVertices && InGrid(m, rows, cols, child)
    ensures fresh(childPath) && PathOk(childPath, m, rows, cols, g, start)
    ensures childPath.vertices == thisPath.vertices + [child]
  {
    childPath := AP.ChildPath(thisPath, child);
    ExtendWalk(thisPath.vertices, start, child);
  }


  /**
   * One iteration of the search loop after the poll (lines 171-196): remove the polled
   * path; if its vertex is not closed, close it and report a goal or expand it.
   * The invariants of the search carry over to the new state, and the search
   * measure (open cells, then queue length) goes down.
   */
  method Visit(m: Matrix, rows: int, cols: int, g: int, start: Vertex,
                queue: seq<AP.AStarPath>, ghost ends: seq<Vertex>, i: int,
                closed: set<Vertex>, ghost expanded: seq<Vertex>)
    returns (goal: bool, queue': seq<AP.AStarPath>, ghost ends': seq<Vertex>,
             closed': set<Vertex>, ghost expanded': seq<Vertex>)
    requires IsGrid(m, rows, cols) && 0 <= i < |queue| && |ends| == |queue|
    requires forall j :: 0 <= j < |queue| ==> PathOk(queue[j], m, rows, cols, g, start) && ends[j] == queue[j].CurrentVertex()
    requires Distinct(expanded) && forall v :: v in closed <==> v in expanded
    requires forall v :: v in closed ==> InGrid(m, rows, cols, v) && !IsGoal(v)
    requires start in closed || start in ends
    requires Frontier(closed, ends)
    ensures PathOk(queue[i], m, rows, cols, g, start)
    ensures goal <==> queue[i].CurrentVertex() !in closed && IsGoal(queue[i].CurrentVertex())
    ensures Distinct(expanded') && forall v :: v in expanded' ==> InGrid(m, rows, cols, v)
    ensures !goal ==> |ends'| == |queue'|
    ensures !goal ==> forall j :: 0 <= j < |queue'| ==> PathOk(queue'[j], m, rows, cols, g, start) && ends'[j] == queue'[j].CurrentVertex()
    ensures !goal ==> forall v :: v in closed' <==> v in expanded'
    ensures !goal ==> forall v :: v in closed' ==> InGrid(m, rows, cols, v) && !IsGoal(v)
    ensures !goal ==> (start in closed' || start in ends') && Frontier(closed', ends')
    ensures !goal ==> (expanded' == expanded && |queue'| < |queue|) || |expanded'| == |expanded| + 1
  {
    var thisPath := queue[i];
    var cur := thisPath.CurrentVertex();
    queue' := queue[..i] + queue[i + 1..];
    ends' := ends[..i] + ends[i + 1..];
    RemoveAt(queue, i);
    RemoveAt(ends, i);
    forall j | 0 <= j < |queue'|
      ensures PathOk(queue'[j], m, rows, cols, g, start) && ends'[j] == queue'[j].CurrentVertex()
    {
      var k := if j < i then j else j + 1;
      assert queue'[j] == queue[k] && ends'[j] == ends[k];
    }
    closed', expanded' := closed, expanded;
    goal := false;
    if cur !in closed {
      assert cur in thisPath.vertices;
      closed' := closed + {cur};
      expanded' := expanded + [cur];
      if IsGoal(cur) {
        goal := true;
        return;
      }
      queue', ends' := Expand(m, rows, cols, g, start, thisPath, closed', queue', ends');
      CloseKeepsFrontier(closed, ends, i, ends', start);
    } else {
      SkipKeepsFrontier(closed, ends, i, start);
    }
  }

  /**
   * The search loop of getPathTo (lines 150-197): poll a least path; in debug mode
   * give up at the poll cap; then visit it. Nothing that exists is changed. The
   * ghost result lists the closed vertices in closing order.
   */
  method Search(m: Matrix, rows: int, cols: int, g: int, start: Vertex, debug: bool)
    returns (r: Outcome<AP.AStarPath>, ghost expanded: seq<Vertex>)
    requires IsGrid(m, rows, cols) && g > 0 && InGrid(m, rows, cols, start)
    ensures r.Found? ==> PathOk(r.path, m, rows, cols, g, start) && IsGoal(r.path.CurrentVertex())
    ensures r.NoPath? ==> forall vs :: IsWalk(vs, start) ==> !IsGoal(vs[|vs| - 1])
    ensures r.CapReached? ==> debug
    ensures !r.NullCell? && !r.OutOfPolls?
    ensures Distinct(expanded) && forall v :: v in expanded ==> InGrid(m, rows, cols, v)
  {
    var first := AP.AStarPath.MakePath(g, start);
    var queue := [first];
    ghost var ends := [start];
    var closed: set<Vertex> := {};
    expanded := [];
    var debugDepthCount := 0;
    while queue != []
      invariant |ends| == |queue|
      invariant forall j :: 0 <= j < |queue| ==> PathOk(queue[j], m, rows, cols, g, start) && ends[j] == queue[j].CurrentVertex()
      invariant Distinct(expanded) && forall v :: v in closed <==> v in expanded
      invariant forall v :: v in closed ==> InGrid(m, rows, cols, v) && !IsGoal(v)
      invariant start in closed || start in ends
      invariant Frontier(closed, ends)
      invariant forall v :: v in expanded ==> InGrid(m, rows, cols, v)
      invariant |expanded| <= rows * cols
      decreases rows * cols - |expanded|, |queue|
    {
      var i := AP.Poll(queue);
      var thisPath := queue[i];
      if debug {
        var before := debugDepthCount;
        debugDepthCount := debugDepthCount + 1;
        if CapHit(before) {
          r := CapReached;
          return;
        }
      }
      var goal;
      goal, queue, ends, closed, expanded := Visit(m, rows, cols, g, start, queue, ends, i, closed, expanded);
      if goal {
        r := Found(thisPath);
        return;
      }
      GridVerticesBound(m, rows, cols, expanded);
    }
    r := NoPath;
    forall vs | IsWalk(vs, start)
      ensures !IsGoal(vs[|vs| - 1])
    {
      WalkStaysClosed(closed, vs, start);
    }
  }

  /** A queued path of the search from start: valid, of step g, a walk from start through grid vertices. */
  ghost predicate GBFSPathOk(p: GP.GBFSPath, m: Matrix, rows: int, cols: int, g: int, start: Vertex)
    reads p, p.vertices
  {
    Shaped(m, rows, cols) && p.Valid() && p.gridSize == g && |p.vertices| > 0 && IsWalk(p.vertices, start)
    && forall v :: v in p.vertices ==> InGrid(m, rows, cols, v)
  }

  /**
   * The child loop of getPathToGBFS (lines 278-284): for each edge of the current
   * vertex that is not closed, enqueue a duplicate of the path extended by it.
   * ends lists the queued paths' last vertices; existing entries keep their places.
   */
  method ExpandGBFS(m: Matrix, rows: int, cols: int, g: int, start: Vertex, thisPath: GP.GBFSPath,
                 closed: set<Vertex>, queue: seq<GP.GBFSPath>, ghost ends: seq<Vertex>)
    returns (queue': seq<GP.GBFSPath>, ghost ends': seq<Vertex>)
    requires IsGrid(m, rows, cols) && GBFSPathOk(thisPath, m, rows, cols, g, start)
    requires |ends| == |queue|
    requires forall j :: 0 <= j < |queue| ==> GBFSPathOk(queue[j], m, rows, cols, g, start) && ends[j] == queue[j].CurrentVertex()
    ensures |ends'| == |queue'| && |queue| <= |queue'| && queue'[..|queue|] == queue && ends'[..|ends|] == ends
    ensures forall j :: 0 <= j < |queue'| ==> GBFSPathOk(queue'[j], m, rows, cols, g, start) && ends'[j] == queue'[j].CurrentVertex()
    ensures forall w :: w in thisPath.CurrentVertex().connectedVertices ==> w in closed || w in ends'
    ensures ends'[|ends|..] == OpenEdges(thisPath.CurrentVertex().connectedVertices, closed)
    ensures forall j :: |queue| <= j < |queue'| ==> queue'[j].vertices == thisPath.vertices + [ends'[j]]
  {
    var cur := thisPath.CurrentVertex();
    EdgesInGrid(m, rows, cols, cur);
    var children, kids := OpenChildrenGBFS(m, rows, cols, g, start, thisPath, closed);
    queue', ends' := queue + children, ends + kids;
    forall j | 0 <= j < |queue'|
      ensures GBFSPathOk(queue'[j], m, rows, cols, g, start) && ends'[j] == queue'[j].CurrentVertex()
    {
      if j >= |queue| {
        assert queue'[j] == children[j - |queue|] && ends'[j] == kids[j - |queue|];
      }
    }
    assert queue'[..|queue|] == queue && ends'[..|ends|] == ends && ends'[|ends|..] == kids;
    OpenEdgesMembers(cur.connectedVertices, closed);
  }

  /** The loop itself: one child path per edge of the current vertex that is not closed, in edge order. */
  method OpenChildrenGBFS(m: Matrix, rows: int, cols: int, g: int, start: Vertex, thisPath: GP.GBFSPath, closed: set<Vertex>)
    returns (children: seq<GP.GBFSPath>, ghost kids: seq<Vertex>)
    requires GBFSPathOk(thisPath, m, rows, cols, g, start)
    requires forall w :: w in thisPath.CurrentVertex().connectedVertices ==> InGrid(m, rows, cols, w)
    ensures kids == OpenEdges(thisPath.CurrentVertex().connectedVertices, closed) && |children| == |kids|
    ensures forall j :: 0 <= j < |children| ==>
      GBFSPathOk(children[j], m, rows, cols, g, start) && children[j].vertices == thisPath.vertices + [kids[j]]
  {
    var edges := thisPath.CurrentVertex().connectedVertices;
    children, kids := [], [];
    var k := 0;
    while k < |edges|
      invariant 0 <= k <= |edges| && |children| == |kids|
      invariant kids == OpenEdges(edges[..k], closed)
      invariant forall j :: 0 <= j < |children| ==> GBFSPathOk(children[j], m, rows, cols, g, start)
      invariant forall j :: 0 <= j < |children| ==> children[j].vertices == thisPath.vertices + [kids[j]]
    {
      var child := edges[k];
      if child !in closed {
        var childPath := ChildGBFS(m, rows, cols, g, start, thisPath, child);
        children, kids := children + [childPath], kids + [child];
      }
      assert edges[..k + 1][..k] == edges[..k];
      k := k + 1;
    }
    assert edges[..k] == edges;
  }

  /** The duplicate of a queued path extended by one edge of its current vertex is again a queued path of the search. */
  method ChildGBFS(m: Matrix, rows: int, cols: int, g: int, start: Vertex, thisPath: GP.GBFSPath, child: Vertex)
    returns (childPath: GP.GBFSPath)
    requires GBFSPathOk(thisPath, m, rows, cols, g, start)
    requires child in thisPath.CurrentVertex().connectedVertices && InGrid(m, rows, cols, child)
    ensures fresh(childPath) && GBFSPathOk(childPath, m, rows, cols, g, start)
    ensures childPath.vertices == thisPath.vertices + [child]
  {
    childPath := GP.ChildPath(thisPath, child);
    ExtendWalk(thisPath.vertices, start, child);
  }


  /**
   * One iteration of the search loop after the poll (lines 262-285): remove the polled
   * path; if its vertex is not closed, close it and report a goal or expand it.
   * The invariants of the search carry over to the new state, and the search
   * measure (open cells, then queue length) goes down.
   */
  method VisitGBFS(m: Matrix, rows: int, cols: int, g: int, start: Vertex,
                queue: seq<GP.GBFSPath>, ghost ends: seq<Vertex>, i: int,
                closed: set<Vertex>, ghost expanded: seq<Vertex>)
    returns (goal: bool, queue': seq<GP.GBFSPath>, ghost ends': seq<Vertex>,
             closed': set<Vertex>, ghost expanded': seq<Vertex>)
    requires IsGrid(m, rows, cols) && 0 <= i < |queue| && |ends| == |queue|
    requires forall j :: 0 <= j < |queue| ==> GBFSPathOk(queue[j], m, rows, cols, g, start) && ends[j] == queue[j].CurrentVertex()
    requires Distinct(expanded) && forall v :: v in closed <==> v in expanded
    requires forall v :: v in closed ==> InGrid(m, rows, cols, v) && !IsGoal(v)
    requires start in closed || start in ends
    requires Frontier(closed, ends)
    ensures GBFSPathOk(queue[i], m, rows, cols, g, start)
    ensures goal <==> queue[i].CurrentVertex() !in closed && IsGoal(queue[i].CurrentVertex())
    ensures Distinct(expanded') && forall v :: v in expanded' ==> InGrid(m, rows, cols, v)
    ensures !goal ==> |ends'| == |queue'|
    ensures !goal ==> forall j :: 0 <= j < |queue'| ==> GBFSPathOk(queue'[j], m, rows, cols, g, start) && ends'[j] == queue'[j].CurrentVertex()
    ensures !goal ==> forall v :: v in closed' <==> v in expanded'
    ensures !goal ==> forall v :: v in closed' ==> InGrid(m, rows, cols, v) && !IsGoal(v)
    ensures !goal ==> (start in closed' || start in ends') && Frontier(closed', ends')
    ensures !goal ==> (expanded' == expanded && |queue'| < |queue|) || |expanded'| == |expanded| + 1
  {
    var thisPath := queue[i];
    var cur := thisPath.CurrentVertex();
    queue' := queue[..i] + queue[i + 1..];
    ends' := ends[..i] + ends[i + 1..];
    RemoveAt(queue, i);
    RemoveAt(ends, i);
    forall j | 0 <= j < |queue'|
      ensures GBFSPathOk(queue'[j], m, rows, cols, g, start) && ends'[j] == queue'[j].CurrentVertex()
    {
      var k := if j < i then j else j + 1;
      assert queue'[j] == queue[k] && ends'[j] == ends[k];
    }
    closed', expanded' := closed, expanded;
    goal := false;
    if cur !in closed {
      assert cur in thisPath.vertices;
      closed' := closed + {cur};
      expanded' := expanded + [cur];
      if IsGoal(cur) {
        goal := true;
        return;
      }
      queue', ends' := ExpandGBFS(m, rows, cols, g, start, thisPath, closed', queue', ends');
      CloseKeepsFrontier(closed, ends, i, ends', start);
    } else {
      SkipKeepsFrontier(closed, ends, i, start);
    }
  }

  /**
   * The search loop of getPathToGBFS (lines 239-286): poll a least path; in debug mode
   * give up at the poll cap; then visit it. Nothing that exists is changed. The
   * ghost result lists the closed vertices in closing order.
   */
  method SearchGBFS(m: Matrix, rows: int, cols: int, g: int, start: Vertex, debug: bool)
    returns (r: Outcome<GP.GBFSPath>, ghost expanded: seq<Vertex>)
    requires IsGrid(m, rows, cols) && g > 0 && InGrid(m, rows, cols, start)
    ensures r.Found? ==> GBFSPathOk(r.path, m, rows, cols, g, start) && IsGoal(r.path.CurrentVertex())
    ensures r.NoPath? ==> forall vs :: IsWalk(vs, start) ==> !IsGoal(vs[|vs| - 1])
    ensures r.CapReached? ==> debug
    ensures !r.NullCell? && !r.OutOfPolls?
    ensures Distinct(expanded) && forall v :: v in expanded ==> InGrid(m, rows, cols, v)
  {
    var first := GP.GBFSPath.MakePath(g, start);
    var queue := [first];
    ghost var ends := [start];
    var closed: set<Vertex> := {};
    expanded := [];
    var debugDepthCount := 0;
    while queue != []
      invariant |ends| == |queue|
      invariant forall j :: 0 <= j < |queue| ==> GBFSPathOk(queue[j], m, rows, cols, g, start) && ends[j] == queue[j].CurrentVertex()
      invariant Distinct(expanded) && forall v :: v in closed <==> v in expanded
      invariant forall v :: v in closed ==> InGrid(m, rows, cols, v) && !IsGoal(v)
      invariant start in closed || start in ends
      invariant Frontier(closed, ends)
      invariant forall v :: v in expanded ==> InGrid(m, rows, cols, v)
      invariant |expanded| <= rows * cols
      decreases rows * cols - |expanded|, |queue|
    {
      var i := GP.Poll(queue);
      var thisPath := queue[i];
      if debug {
        var before := debugDepthCount;
        debugDepthCount := debugDepthCount + 1;
        if CapHit(before) {
          r := CapReached;
          return;
        }
      }
      var goal;
      goal, queue, ends, closed, expanded := VisitGBFS(m, rows, cols, g, start, queue, ends, i, closed, expanded);
      if goal {
        r := Found(thisPath);
        return;
      }
      GridVerticesBound(m, rows, cols, expanded);
    }
    r := NoPath;
    forall vs | IsWalk(vs, start)
      ensures !IsGoal(vs[|vs| - 1])
    {
      WalkStaysClosed(closed, vs, start);
    }
  }

  class AStarGraph {
    /** GRID_SIZE, twice the engine's largest asteroid radius. */
    const gridSize: int
    const mtxCols: int
    const mtxRows: int
    const debug: bool
    /** The vertex matrix, indexed [row][column]. */
    const vMtx: Matrix
    /** The vertices the last setHeuristics found blocked. */
    var blockedGrids: seq<Vertex>

    /** The fixed part of the graph: int-range dimensions and every cell in place. */
    ghost predicate Shape()
    {
      0 < gridSize <= INT_MAX && mtxRows * gridSize <= INT_MAX && mtxCols * gridSize <= INT_MAX
      && Shaped(vMtx, mtxRows, mtxCols) && Placed(vMtx, mtxRows, mtxCols)
    }

    ghost predicate Valid()
      reads this, Cells(vMtx)
    {
      Shape() && IsGrid(vMtx, mtxRows, mtxCols)
      && forall v :: v in blockedGrids ==> InGrid(vMtx, mtxRows, mtxCols, v)
    }

    /**
     * The private constructor: windowWidth / GRID_SIZE columns and
     * windowHeight / GRID_SIZE rows (Java division), then initMatrix.
     */
    constructor (windowHeight: int, windowWidth: int, debugFlag: bool, g: int)
      requires 0 < g <= INT_MAX && IsInt32(windowHeight) && IsInt32(windowWidth)
      requires Quot(windowWidth, g) >= 0 && Quot(windowHeight, g) >= 0
      ensures mtxCols == Quot(windowWidth, g) && mtxRows == Quot(windowHeight, g)
      ensures gridSize == g && debug == debugFlag && blockedGrids == []
      ensures Valid()
      ensures forall r, c :: 0 <= r < mtxRows && 0 <= c < mtxCols ==> fresh(vMtx[r][c]) && Unmarked(vMtx[r][c])
    {
      var cols := Quot(windowWidth, g);
      var rows := Quot(windowHeight, g);
      var m := InitMatrix(rows, cols);
      gridSize := g;
      mtxCols := cols;
      mtxRows := rows;
      debug := debugFlag;
      blockedGrids := [];
      vMtx := m;
    }

    /** getCentralCoordinate. */
    function GetCentralCoordinate(v: Vertex): Position
      requires gridSize > 0
    {
      CentralCoordinate(gridSize, v.mtxColumn, v.mtxRow)
    }

    /**
     * getVertex: the clamped cell of a position; an index below 0 (a
     * coordinate at or below -GRID_SIZE, or an empty matrix) is caught as
     * out of bounds and gives null.
     */
    function GetVertex(p: Position): (r: Option<Vertex>)
      requires Shape()
      ensures r.Some? ==> InGrid(vMtx, mtxRows, mtxCols, r.value)
      ensures r.Some? <==> mtxRows > 0 && mtxCols > 0 && p.x > -(gridSize as real) && p.y > -(gridSize as real)
    {
      match CellOf(gridSize, mtxRows, mtxCols, p)
      case Some((row, col)) => Some(vMtx[row][col])
      case None => None
    }

    /** The round trip: the cell of a vertex's central coordinate is that vertex. */
    lemma VertexOfCentre(v: Vertex)
      requires Shape() && InGrid(vMtx, mtxRows, mtxCols, v)
      ensures GetVertex(GetCentralCoordinate(v)) == Some(v)
    {
      CellOfCentre(gridSize, mtxRows, mtxCols, v.mtxRow, v.mtxColumn);
    }

    /** Positions beyond the window fall into the last row and column. */
    lemma VertexBeyondWindow(p: Position)
      requires Shape() && mtxRows > 0 && mtxCols > 0
      requires p.x >= (mtxCols * gridSize) as real && p.y >= (mtxRows * gridSize) as real
      ensures GetVertex(p) == Some(vMtx[mtxRows - 1][mtxCols - 1])
    {
      CellOfClamps(gridSize, mtxRows, mtxCols, p);
    }

    /**
     * setHeuristics: collect the obstructions, then give every cell MAX if
     * it is not clear of them and its distance to the target otherwise;
     * blockedGrids becomes exactly the cells that are not clear.
     */
    method SetHeuristicsFor(ship: GameObject, target: GameObject, all: seq<GameObject>, dist: Distance)
      requires Valid()
      modifies Cells(vMtx), this`blockedGrids
      ensures Valid()
      ensures forall r, c :: 0 <= r < mtxRows && 0 <= c < mtxCols ==>
        vMtx[r][c].isStart == old(vMtx[r][c].isStart) && vMtx[r][c].isEnd == old(vMtx[r][c].isEnd)
      ensures forall r, c :: 0 <= r < mtxRows && 0 <= c < mtxCols ==>
        vMtx[r][c].hValue == HeuristicAt(gridSize, p => ClearOf(gridSize, ObstructionsOf(ship, target, all), p, dist),
                                         p => dist(p, target.position), c, r)
      ensures forall r, c :: 0 <= r < mtxRows && 0 <= c < mtxCols ==>
        (vMtx[r][c] in blockedGrids <==> !ClearOf(gridSize, ObstructionsOf(ship, target, all), CentralCoordinate(gridSize, c, r), dist))
    {
      var obstructions := Obstructions(ship, target, all);
      blockedGrids := SetHeuristics(vMtx, mtxRows, mtxCols, gridSize,
                                    p => ClearOf(gridSize, obstructions, p, dist), p => dist(p, target.position));
    }

    /**
     * The preamble of getPathTo: clear the heuristics, mark the ship's cell
     * start, then mark the target's cell end. A null cell stops it there (the
     * source dereferences it), so a null target cell leaves the start mark set.
     */
    method Begin(shipPos: Position, targetPos: Position) returns (cells: Option<(Vertex, Vertex)>)
      requires Valid()
      modifies Cells(vMtx)
      ensures Valid()
      ensures cells.None? <==> GetVertex(shipPos).None? || GetVertex(targetPos).None?
      ensures cells.Some? ==> cells.value == (GetVertex(shipPos).value, GetVertex(targetPos).value)
      ensures forall r, c :: 0 <= r < mtxRows && 0 <= c < mtxCols ==> vMtx[r][c].hValue == 0.0
      ensures forall r, c :: 0 <= r < mtxRows && 0 <= c < mtxCols ==>
        vMtx[r][c].isStart == (old(vMtx[r][c].isStart) || Some(vMtx[r][c]) == GetVertex(shipPos))
      ensures forall r, c :: 0 <= r < mtxRows && 0 <= c < mtxCols ==>
        vMtx[r][c].isEnd == (old(vMtx[r][c].isEnd) || (GetVertex(shipPos).Some? && Some(vMtx[r][c]) == GetVertex(targetPos)))
    {
      ClearHeuristics(vMtx, mtxRows, mtxCols);
      var shipCell := GetVertex(shipPos);
      if shipCell.None? {
        return None;
      }
      var vShip := shipCell.value;
      InGridInCells(vMtx, mtxRows, mtxCols, vShip);
      SetStartMark(vMtx, mtxRows, mtxCols, vShip, true);
      var targetCell := GetVertex(targetPos);
      if targetCell.None? {
        return None;
      }
      var vTarget := targetCell.value;
      InGridInCells(vMtx, mtxRows, mtxCols, vTarget);
      SetEndMark(vMtx, mtxRows, mtxCols, vTarget, true);
      cells := Some((vShip, vTarget));
    }

    /** The cleanup of getPathTo: clear the end mark, then the start mark. */
    method Finish(vShip: Vertex, vTarget: Vertex)
      requires Valid() && InGrid(vMtx, mtxRows, mtxCols, vShip) && InGrid(vMtx, mtxRows, mtxCols, vTarget)
      modifies vShip`isStart, vTarget`isEnd
      ensures Valid() && !vShip.isStart && !vTarget.isEnd
    {
      SetEndMark(vMtx, mtxRows, mtxCols, vTarget, false);
      SetStartMark(vMtx, mtxRows, mtxCols, vShip, false);
    }

    /**
     * The body of getPathTo once both cells are marked (lines 132-204): set the
     * heuristics, search from the ship's cell, and clear the two marks unless
     * the debug cap returned early. The target's cell is an end and the grid
     * is connected, so the queue never runs dry.
     */
    method SearchFrom(ship: GameObject, target: GameObject, all: seq<GameObject>, dist: Distance,
                       vShip: Vertex, vTarget: Vertex)
      returns (r: Outcome<AP.AStarPath>)
      requires Valid() && InGrid(vMtx, mtxRows, mtxCols, vShip) && InGrid(vMtx, mtxRows, mtxCols, vTarget)
      requires vTarget.isEnd
      modifies Cells(vMtx), this`blockedGrids
      ensures Valid() && !r.NoPath? && !r.NullCell?
      ensures r.CapReached? ==> debug
      ensures r.Found? ==>
        PathOk(r.path, vMtx, mtxRows, mtxCols, gridSize, vShip)
        && (r.path.CurrentVertex() == vTarget || r.path.CurrentVertex().hValue == 0.0 || r.path.CurrentVertex().isEnd)
      ensures r.Found? ==> forall row, col :: 0 <= row < mtxRows && 0 <= col < mtxCols ==>
        vMtx[row][col].isStart == (old(vMtx[row][col].isStart) && vMtx[row][col] != vShip)
        && vMtx[row][col].isEnd == (old(vMtx[row][col].isEnd) && vMtx[row][col] != vTarget)
      ensures !r.Found? ==> forall row, col :: 0 <= row < mtxRows && 0 <= col < mtxCols ==>
        vMtx[row][col].isStart == old(vMtx[row][col].isStart) && vMtx[row][col].isEnd == old(vMtx[row][col].isEnd)
      ensures forall row, col :: 0 <= row < mtxRows && 0 <= col < mtxCols ==>
        vMtx[row][col].hValue == HeuristicAt(gridSize, p => ClearOf(gridSize, ObstructionsOf(ship, target, all), p, dist),
                                             p => dist(p, target.position), col, row)
    {
      SetHeuristicsFor(ship, target, all, dist);
      ghost var expanded;
      r, expanded := Search(vMtx, mtxRows, mtxCols, gridSize, vShip, debug);
      if r.NoPath? {
        TorusConnected(vMtx, mtxRows, mtxCols, vShip, vTarget);
        assert false;
      }
      if r.CapReached? {
        return;
      }
      Finish(vShip, vTarget);
    }

    /**
     * getPathTo (lines 118-205): clear the heuristics and mark the ship's and
     * the target's cells, then search. A null cell is dereferenced by the
     * source: NullCell, with the marks set so far left in place.
     */
    method GetPathTo(ship: GameObject, target: GameObject, all: seq<GameObject>, dist: Distance)
      returns (r: Outcome<AP.AStarPath>)
      requires Valid()
      modifies Cells(vMtx), this`blockedGrids
      ensures Valid()
      ensures r.NullCell? <==> GetVertex(ship.position).None? || GetVertex(target.position).None?
      ensures !r.NoPath?
      ensures r.CapReached? ==> debug
      ensures r.Found? ==>
        GetVertex(ship.position).Some? && GetVertex(target.position).Some?
        && PathOk(r.path, vMtx, mtxRows, mtxCols, gridSize, GetVertex(ship.position).value)
        && (r.path.CurrentVertex() == GetVertex(target.position).value
            || r.path.CurrentVertex().hValue == 0.0 || r.path.CurrentVertex().isEnd)
      ensures r.Found? ==> forall row, col :: 0 <= row < mtxRows && 0 <= col < mtxCols ==>
        vMtx[row][col].isStart == (old(vMtx[row][col].isStart) && Some(vMtx[row][col]) != GetVertex(ship.position))
        && vMtx[row][col].isEnd == (old(vMtx[row][col].isEnd) && Some(vMtx[row][col]) != GetVertex(target.position))
      ensures !r.Found? ==> forall row, col :: 0 <= row < mtxRows && 0 <= col < mtxCols ==>
        vMtx[row][col].isStart == (old(vMtx[row][col].isStart) || Some(vMtx[row][col]) == GetVertex(ship.position))
        && vMtx[row][col].isEnd == (old(vMtx[row][col].isEnd)
                                    || (GetVertex(ship.position).Some? && Some(vMtx[row][col]) == GetVertex(target.position)))
      ensures r.NullCell? ==> forall row, col :: 0 <= row < mtxRows && 0 <= col < mtxCols ==> vMtx[row][col].hValue == 0.0
      ensures !r.NullCell? ==> forall row, col :: 0 <= row < mtxRows && 0 <= col < mtxCols ==>
        vMtx[row][col].hValue == HeuristicAt(gridSize, p => ClearOf(gridSize, ObstructionsOf(ship, target, all), p, dist),
                                             p => dist(p, target.position), col, row)
    {
      var cells := Begin(ship.position, target.position);
      if cells.None? {
        r := NullCell;
        return;
      }
      var (vShip, vTarget) := cells.value;
      assert vTarget == vMtx[vTarget.mtxRow][vTarget.mtxColumn];
      r := SearchFrom(ship, target, all, dist, vShip, vTarget);
    }

    /**
     * The body of getPathToGBFS once both cells are marked (lines 221-293): set the
     * heuristics, search from the ship's cell, and clear the two marks unless
     * the debug cap returned early. The target's cell is an end and the grid
     * is connected, so the queue never runs dry.
     */
    method SearchFromGBFS(ship: GameObject, target: GameObject, all: seq<GameObject>, dist: Distance,
                       vShip: Vertex, vTarget: Vertex)
      returns (r: Outcome<GP.GBFSPath>)
      requires Valid() && InGrid(vMtx, mtxRows, mtxCols, vShip) && InGrid(vMtx, mtxRows, mtxCols, vTarget)
      requires vTarget.isEnd
      modifies Cells(vMtx), this`blockedGrids
      ensures Valid() && !r.NoPath? && !r.NullCell?
      ensures r.CapReached? ==> debug
      ensures r.Found? ==>
        GBFSPathOk(r.path, vMtx, mtxRows, mtxCols, gridSize, vShip)
        && (r.path.CurrentVertex() == vTarget || r.path.CurrentVertex().hValue == 0.0 || r.path.CurrentVertex().isEnd)
      ensures r.Found? ==> forall row, col :: 0 <= row < mtxRows && 0 <= col < mtxCols ==>
        vMtx[row][col].isStart == (old(vMtx[row][col].isStart) && vMtx[row][col] != vShip)
        && vMtx[row][col].isEnd == (old(vMtx[row][col].isEnd) && vMtx[row][col] != vTarget)
      ensures !r.Found? ==> forall row, col :: 0 <= row < mtxRows && 0 <= col < mtxCols ==>
        vMtx[row][col].isStart == old(vMtx[row][col].isStart) && vMtx[row][col].isEnd == old(vMtx[row][col].isEnd)
      ensures forall row, col :: 0 <= row < mtxRows && 0 <= col < mtxCols ==>
        vMtx[row][col].hValue == HeuristicAt(gridSize, p => ClearOf(gridSize, ObstructionsOf(ship, target, all), p, dist),
                                             p => dist(p, target.position), col, row)
    {
      SetHeuristicsFor(ship, target, all, dist);
      ghost var expanded;
      r, expanded := SearchGBFS(vMtx, mtxRows, mtxCols, gridSize, vShip, debug);
      if r.NoPath? {
        TorusConnected(vMtx, mtxRows, mtxCols, vShip, vTarget);
        assert false;
      }
      if r.CapReached? {
        return;
      }
      Finish(vShip, vTarget);
    }

    /**
     * getPathToGBFS (lines 207-294): clear the heuristics and mark the ship's and
     * the target's cells, then search. A null cell is dereferenced by the
     * source: NullCell, with the marks set so far left in place.
     */
    method GetPathToGBFS(ship: GameObject, target: GameObject, all: seq<GameObject>, dist: Distance)
      returns (r: Outcome<GP.GBFSPath>)
      requires Valid()
      modifies Cells(vMtx), this`blockedGrids
      ensures Valid()
      ensures r.NullCell? <==> GetVertex(ship.position).None? || GetVertex(target.position).None?
      ensures !r.NoPath?
      ensures r.CapReached? ==> debug
      ensures r.Found? ==>
        GetVertex(ship.position).Some? && GetVertex(target.position).Some?
        && GBFSPathOk(r.path, vMtx, mtxRows, mtxCols, gridSize, GetVertex(ship.position).value)
        && (r.path.CurrentVertex() == GetVertex(target.position).value
            || r.path.CurrentVertex().hValue == 0.0 || r.path.CurrentVertex().isEnd)
      ensures r.Found? ==> forall row, col :: 0 <= row < mtxRows && 0 <= col < mtxCols ==>
        vMtx[row][col].isStart == (old(vMtx[row][col].isStart) && Some(vMtx[row][col]) != GetVertex(ship.position))
        && vMtx[row][col].isEnd == (old(vMtx[row][col].isEnd) && Some(vMtx[row][col]) != GetVertex(target.position))
      ensures !r.Found? ==> forall row, col :: 0 <= row < mtxRows && 0 <= col < mtxCols ==>
        vMtx[row][col].isStart == (old(vMtx[row][col].isStart) || Some(vMtx[row][col]) == GetVertex(ship.position))
        && vMtx[row][col].isEnd == (old(vMtx[row][col].isEnd)
                                    || (GetVertex(ship.position).Some? && Some(vMtx[row][col]) == GetVertex(target.position)))
      ensures r.NullCell? ==> forall row, col :: 0 <= row < mtxRows && 0 <= col < mtxCols ==> vMtx[row][col].hValue == 0.0
      ensures !r.NullCell? ==> forall row, col :: 0 <= row < mtxRows && 0 <= col < mtxCols ==>
        vMtx[row][col].hValue == HeuristicAt(gridSize, p => ClearOf(gridSize, ObstructionsOf(ship, target, all), p, dist),
                                             p => dist(p, target.position), col, row)
    {
      var cells := Begin(ship.position, target.position);
      if cells.None? {
        r := NullCell;
        return;
      }
      var (vShip, vTarget) := cells.value;
      assert vTarget == vMtx[vTarget.mtxRow][vTarget.mtxColumn];
      r := SearchFromGBFS(ship, target, all, dist, vShip, vTarget);
    }
  }

  /** The static field _graph and getInstance (lines 27-44): the graph is built on the first call only. */
  class GraphHolder {
    var graph: Option<AStarGraph>

    constructor ()
      ensures graph.None?
    {
      graph := None;
    }

    /**
     * getInstance: the first call builds the graph from its arguments; every
     * later call returns that same graph and ignores them.
     */
    method GetInstance(windowHeight: int, windowWidth: int, debugFlag: bool, g: int) returns (gr: AStarGraph)
      requires graph.None? ==> 0 < g <= INT_MAX && IsInt32(windowHeight) && IsInt32(windowWidth)
      requires graph.None? ==> Quot(windowWidth, g) >= 0 && Quot(windowHeight, g) >= 0
      modifies this
      ensures graph == Some(gr)
      ensures old(graph).Some? ==> gr == old(graph).value
      ensures old(graph).None? ==>
        fresh(gr) && gr.Valid() && gr.blockedGrids == [] && gr.debug == debugFlag
        && gr.mtxRows == Quot(windowHeight, g) && gr.mtxCols == Quot(windowWidth, g) && gr.gridSize == g
    {
      if graph.None? {
        var created := new AStarGraph(windowHeight, windowWidth, debugFlag, g);
        graph := Some(created);
      }
      gr := graph.value;
    }
  }
}
