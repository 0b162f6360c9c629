/**
 * The mutable grid vertex of the search graph (bost7517.Vertex): a heuristic
 * value, start/end marks, fixed matrix coordinates and an adjacency list.
 * The Java getters are the fields themselves.
 */
module Vertices {
  /** No vertex occurs twice. */
  predicate Distinct(vs: seq<Vertex>)
  {
    forall i, j :: 0 <= i < j < |vs| ==> vs[i] != vs[j]
  }

  class Vertex {
    /** Heuristic value of this vertex toward the current target. */
    var hValue: real
    /** Whether the ship's cell is this vertex. */
    var isStart: bool
    /** Whether the target's cell is this vertex. */
    var isEnd: bool
    /** Location in the vertex matrix; there are no setters. */
    const mtxColumn: int
    const mtxRow: int
    /** Adjacent vertices, in the order they were added. */
    var connectedVertices: seq<Vertex>

    constructor (column: int, row: int)
      ensures mtxColumn == column && mtxRow == row
      ensures hValue == 0.0 && !isStart && !isEnd && connectedVertices == []
    {
      mtxColumn := column;
      mtxRow := row;
      hValue := 0.0;
      isStart := false;
      isEnd := false;
      connectedVertices := [];
    }

    /** Appends an edge; earlier edges and duplicates are kept. */
    method AddEdge(v: Vertex)
      modifies this`connectedVertices
      ensures connectedVertices == old(connectedVertices) + [v]
    {
      connectedVertices := connectedVertices + [v];
    }

    method MarkStart()
      modifies this`isStart
      ensures isStart
    {
      isStart := true;
    }

    method MarkNotStart()
      modifies this`isStart
      ensures !isStart
    {
      isStart := false;
    }

    method MarkEnd()
      modifies this`isEnd
      ensures isEnd
    {
      isEnd := true;
    }

    method MarkNotEnd()
      modifies this`isEnd
      ensures !isEnd
    {
      isEnd := false;
    }

    method ClearHValue()
      modifies this`hValue
      ensures hValue == 0.0
    {
      hValue := 0.0;
    }

    method SetHValue(h: real)
      modifies this`hValue
      ensures hValue == h
    {
      hValue := h;
    }
  }
}
