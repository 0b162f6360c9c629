/**
 * astar.Vertex: the older grid's vertex class, which has a constructor and
 * getters only. With no mutator its state is a value.
 */
module FrozenVertex {
  datatype FVertex = FVertex(hValue: real, isStart: bool, isEnd: bool,
                             mtxColumn: int, mtxRow: int, connectedVertices: seq<FVertex>)

  /** The constructor: heuristic 0, no marks, no edges, the given coordinates. */
  function NewVertex(column: int, row: int): FVertex
  {
    FVertex(0.0, false, false, column, row, [])
  }

  function GetHValue(v: FVertex): real { v.hValue }
  function IsStart(v: FVertex): bool { v.isStart }
  function IsEnd(v: FVertex): bool { v.isEnd }
  function GetMtxColumn(v: FVertex): int { v.mtxColumn }
  function GetMtxRow(v: FVertex): int { v.mtxRow }
  function GetEdges(v: FVertex): seq<FVertex> { v.connectedVertices }

  /** What the getters of a new vertex report. */
  lemma NewVertexGetters(column: int, row: int)
    ensures GetMtxColumn(NewVertex(column, row)) == column
    ensures GetMtxRow(NewVertex(column, row)) == row
    ensures GetHValue(NewVertex(column, row)) == 0.0
    ensures !IsStart(NewVertex(column, row)) && !IsEnd(NewVertex(column, row))
    ensures GetEdges(NewVertex(column, row)) == []
  {
  }

  /** Two vertices built from different coordinates are told apart by their getters. */
  lemma NewVertexInjective(c1: int, r1: int, c2: int, r2: int)
    ensures NewVertex(c1, r1) == NewVertex(c2, r2) <==> c1 == c2 && r1 == r2
  {
  }
}
