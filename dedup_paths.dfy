/**
 * astar.AStarPath of the older grid: like the A* path, but addVertex ignores a
 * vertex that is already on the path, so a path never repeats a vertex and its
 * cost counts distinct vertices.
 */
module DedupPaths {
  import opened JavaNum
  import opened Wrappers
  import opened Vertices

  class DedupPath {
    var vertices: seq<Vertex>
    var totalCost: int
    /** AStarGraph.GRID_SIZE, the cost of one step. */
    const gridSize: int

    ghost predicate Valid()
      reads this
    {
      totalCost == gridSize * |vertices| && Distinct(vertices)
    }

    constructor Empty(g: int)
      ensures gridSize == g && vertices == [] && totalCost == 0
      ensures Valid()
    {
      gridSize := g;
      vertices := [];
      totalCost := 0;
    }

    function CurrentVertex(): Vertex
      reads this
      requires |vertices| > 0
    {
      vertices[|vertices| - 1]
    }

    /** The queue key: accumulated cost plus the heuristic of the last vertex. */
    function Key(): real
      reads this, vertices
      requires |vertices| > 0
    {
      totalCost as real + CurrentVertex().hValue
    }

    /** addVertex: appends v and adds one grid unit, unless v is already on the path. */
    method AddVertex(v: Vertex)
      requires Valid()
      modifies this`vertices, this`totalCost
      ensures Valid()
      ensures v in old(vertices) ==> vertices == old(vertices) && totalCost == old(totalCost)
      ensures v !in old(vertices) ==>
        vertices == old(vertices) + [v] && totalCost == old(totalCost) + gridSize
    {
      if v !in vertices {
        vertices := vertices + [v];
        totalCost := totalCost + gridSize;
      }
    }

    /** getPositions is a stub of the source that always returns null. */
    function GetPositions(): Option<seq<JavaNum.Position>>
    {
      None
    }

    function CompareTo(other: DedupPath): (r: int)
      reads this, vertices, other, other.vertices
      requires |vertices| > 0 && |other.vertices| > 0
      ensures r < 0 <==> Key() < other.Key()
      ensures r == 0 <==> Key() == other.Key()
      ensures r > 0 <==> Key() > other.Key()
    {
      DoubleCompareSign(Key(), other.Key());
      DoubleCompare(totalCost as real + CurrentVertex().hValue,
                    other.totalCost as real + other.CurrentVertex().hValue)
    }

    static method MakePath(g: int, v: Vertex) returns (p: DedupPath)
      ensures fresh(p) && p.Valid()
      ensures p.gridSize == g && p.vertices == [v] && p.totalCost == g
    {
      p := new DedupPath.Empty(g);
      p.AddVertex(v);
    }

    /** duplicatePath: re-adding p's distinct vertices reproduces p exactly. */
    static method DuplicatePath(p: DedupPath) returns (d: DedupPath)
      requires p.Valid()
      ensures fresh(d) && d.Valid()
      ensures d.gridSize == p.gridSize && d.vertices == p.vertices && d.totalCost == p.totalCost
    {
      d := new DedupPath.Empty(p.gridSize);
      var i := 0;
      while i < |p.vertices|
        invariant 0 <= i <= |p.vertices|
        invariant fresh(d) && d.Valid() && d.gridSize == p.gridSize
        invariant d.vertices == p.vertices[..i]
      {
        assert p.vertices[i] !in p.vertices[..i];
        d.AddVertex(p.vertices[i]);
        i := i + 1;
      }
    }
  }

  /** Adding a vertex to a duplicate: the result has no repeats and costs one unit per distinct vertex. */
  method ChildPath(p: DedupPath, v: Vertex) returns (d: DedupPath)
    requires p.Valid()
    ensures fresh(d) && d.Valid() && d.gridSize == p.gridSize
    ensures Distinct(d.vertices) && d.totalCost == d.gridSize * |d.vertices|
    ensures d.vertices == if v in p.vertices then p.vertices else p.vertices + [v]
  {
    d := DedupPath.DuplicatePath(p);
    d.AddVertex(v);
  }

  /**
   * PriorityQueue.poll, abstractly: the index of a path whose key is least
   * by compareTo (the first such index; any least one would do).
   */
  method Poll(queue: seq<DedupPath>) returns (i: int)
    requires |queue| > 0 && forall k :: 0 <= k < |queue| ==> |queue[k].vertices| > 0
    ensures 0 <= i < |queue|
    ensures forall k :: 0 <= k < |queue| ==> queue[i].Key() <= queue[k].Key()
  {
    i := 0;
    var k := 1;
    while k < |queue|
      invariant 1 <= k <= |queue| && 0 <= i < k
      invariant forall j :: 0 <= j < k ==> queue[i].Key() <= queue[j].Key()
    {
      if queue[k].CompareTo(queue[i]) < 0 {
        i := k;
      }
      k := k + 1;
    }
  }
}
