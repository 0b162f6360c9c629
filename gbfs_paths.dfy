/**
 * GBFSPath: the same path of grid vertices with cost one grid unit per vertex,
 * but ordered for the greedy best-first queue by the heuristic of its last
 * vertex alone.
 */
module GBFSPaths {
  import opened JavaNum
  import opened Vertices
  import opened GridGeometry

  class GBFSPath {
    var vertices: seq<Vertex>
    var totalCost: int
    /** AStarGraph.GRID_SIZE, the cost of one step. */
    const gridSize: int

    /** Each vertex on the path has cost one grid unit. */
    ghost predicate Valid()
      reads this
    {
      totalCost == gridSize * |vertices|
    }

    /** The private no-argument constructor: no vertices, cost 0. */
    constructor Empty(g: int)
      ensures gridSize == g && vertices == [] && totalCost == 0
      ensures Valid()
    {
      gridSize := g;
      vertices := [];
      totalCost := 0;
    }

    function CurrentVertex(): Vertex
      reads this
      requires |vertices| > 0
    {
      vertices[|vertices| - 1]
    }

    /** The queue key: the heuristic of the last vertex; the cost is ignored. */
    function Key(): real
      reads this, vertices
      requires |vertices| > 0
    {
      CurrentVertex().hValue
    }

    method AddVertex(v: Vertex)
      requires Valid()
      modifies this`vertices, this`totalCost
      ensures Valid()
      ensures vertices == old(vertices) + [v] && totalCost == old(totalCost) + gridSize
      ensures CurrentVertex() == v
    {
      vertices := vertices + [v];
      totalCost := totalCost + gridSize;
    }

    /** getQueueValue: the key cast to int, which is its integer part for keys in int range. */
    function QueueValue(): (r: int)
      reads this, vertices
      requires |vertices| > 0
      ensures IsInt32(r)
      ensures 0.0 <= Key() < INT_MAX as real ==> r as real <= Key() < r as real + 1.0
      ensures Key() >= INT_MAX as real ==> r == INT_MAX
    {
      IntCast(CurrentVertex().hValue)
    }

    /** compareTo: Double.compare of the two keys. */
    function CompareTo(other: GBFSPath): (r: int)
      reads this, vertices, other, other.vertices
      requires |vertices| > 0 && |other.vertices| > 0
      ensures r < 0 <==> Key() < other.Key()
      ensures r == 0 <==> Key() == other.Key()
      ensures r > 0 <==> Key() > other.Key()
    {
      DoubleCompareSign(Key(), other.Key());
      DoubleCompare(CurrentVertex().hValue, other.CurrentVertex().hValue)
    }

    /** contains: List.contains, which compares vertices by identity. */
    predicate Contains(child: Vertex)
      reads this
    {
      child in vertices
    }

    /** getPositions: the central coordinate of every vertex, in path order. */
    method GetPositions() returns (ps: seq<Position>)
      requires gridSize > 0
      ensures |ps| == |vertices|
      ensures forall i :: 0 <= i < |ps| ==>
        ps[i] == CentralCoordinate(gridSize, vertices[i].mtxColumn, vertices[i].mtxRow)
    {
      ps := [];
      var i := 0;
      while i < |vertices|
        invariant 0 <= i <= |vertices|
        invariant |ps| == i
        invariant forall j :: 0 <= j < i ==>
          ps[j] == CentralCoordinate(gridSize, vertices[j].mtxColumn, vertices[j].mtxRow)
      {
        ps := ps + [CentralCoordinate(gridSize, vertices[i].mtxColumn, vertices[i].mtxRow)];
        i := i + 1;
      }
    }

    /** makePath: a path holding only v, with the cost of one grid unit. */
    static method MakePath(g: int, v: Vertex) returns (p: GBFSPath)
      ensures fresh(p) && p.Valid()
      ensures p.gridSize == g && p.vertices == [v] && p.totalCost == g
    {
      p := new GBFSPath.Empty(g);
      p.AddVertex(v);
    }

    /** duplicatePath: a new path re-adding every vertex of p, so it has p's vertices and cost. */
    static method DuplicatePath(p: GBFSPath) returns (d: GBFSPath)
      requires p.Valid()
      ensures fresh(d) && d.Valid()
      ensures d.gridSize == p.gridSize && d.vertices == p.vertices && d.totalCost == p.totalCost
    {
      d := new GBFSPath.Empty(p.gridSize);
      var i := 0;
      while i < |p.vertices|
        invariant 0 <= i <= |p.vertices|
        invariant fresh(d) && d.Valid() && d.gridSize == p.gridSize
        invariant d.vertices == p.vertices[..i]
      {
        d.AddVertex(p.vertices[i]);
        i := i + 1;
      }
    }
  }

  /** The queue order is a total preorder on keys: consistent, antisymmetric in sign and transitive. */
  lemma CompareToIsOrder(p: GBFSPath, q: GBFSPath, r: GBFSPath)
    requires |p.vertices| > 0 && |q.vertices| > 0 && |r.vertices| > 0
    ensures p.CompareTo(q) == -q.CompareTo(p)
    ensures p.CompareTo(q) <= 0 && q.CompareTo(r) <= 0 ==> p.CompareTo(r) <= 0
  {
  }

  /**
   * The child path of the search: a duplicate of p extended by v. The method
   * modifies nothing that exists, so p itself is left as it was.
   */
  method ChildPath(p: GBFSPath, v: Vertex) returns (d: GBFSPath)
    requires p.Valid()
    ensures d.vertices == p.vertices + [v] && d.totalCost == p.totalCost + p.gridSize
    ensures fresh(d) && d.Valid() && d.gridSize == p.gridSize
  {
    d := GBFSPath.DuplicatePath(p);
    d.AddVertex(v);
  }

  /**
   * PriorityQueue.poll, abstractly: the index of a path whose key is least
   * by compareTo (the first such index; any least one would do).
   */
  method Poll(queue: seq<GBFSPath>) returns (i: int)
    requires |queue| > 0 && forall k :: 0 <= k < |queue| ==> |queue[k].vertices| > 0
    ensures 0 <= i < |queue|
    ensures forall k :: 0 <= k < |queue| ==> queue[i].Key() <= queue[k].Key()
  {
    i := 0;
    var k := 1;
    while k < |queue|
      invariant 1 <= k <= |queue| && 0 <= i < k
      invariant forall j :: 0 <= j < k ==> queue[i].Key() <= queue[j].Key()
    {
      if queue[k].CompareTo(queue[i]) < 0 {
        i := k;
      }
      k := k + 1;
    }
  }
}
