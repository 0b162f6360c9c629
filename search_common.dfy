/**
 * What the best-first searches of both graph versions share: the outcome of
 * getPathTo, the goal test, the debug poll cap, and the frontier argument that
 * an emptied queue means no walk from the start reaches a goal.
 */
module SearchCommon {
  import opened Vertices
  import opened TorusGrid

  /**
   * The result of getPathTo: a path, null because the queue emptied, null
   * because the debug poll cap was hit, or a null cell from getVertex (which
   * the source dereferences, a NullPointerException). OutOfPolls is the
   * model's own: a search without a closed set stopped at a caller-given
   * bound on the number of polls, where the source would keep looping.
   */
  datatype Outcome<P> = Found(path: P) | NoPath | CapReached | NullCell | OutOfPolls

  /** The goal test of the closed-set search: the end mark or a zero heuristic. */
  predicate IsGoal(v: Vertex)
    reads v
  {
    v.isEnd || v.hValue == 0.0
  }

  /** In debug mode a message is due every this many polls ... */
  const DEBUG_REPORT_INTERVAL: int := 1000
  /** ... and at such a point the search gives up once the count exceeds this. */
  const DEBUG_POLL_LIMIT: int := 200000

  /**
   * `debugDepthCount++ % 1000 == 0` followed by `debugDepthCount > 200000`,
   * with n the counter before the increment.
   */
  predicate CapHit(n: int)
  {
    n % DEBUG_REPORT_INTERVAL == 0 && n + 1 > DEBUG_POLL_LIMIT
  }

  /** The counter starts at 0 and grows by one per poll, so the cap fires on poll 200001 and no earlier. */
  lemma CapHitFirstAt(n: int)
    requires 0 <= n
    ensures CapHit(n) ==> n >= DEBUG_POLL_LIMIT
    ensures n == DEBUG_POLL_LIMIT ==> CapHit(n)
  {
  }

  /** The edges the child loop of getPathTo enqueues: those not closed, in edge order. */
  function OpenEdges(edges: seq<Vertex>, closed: set<Vertex>): (r: seq<Vertex>)
    ensures |r| <= |edges|
  {
    if |edges| == 0 then []
    else
      var last := edges[|edges| - 1];
      OpenEdges(edges[..|edges| - 1], closed) + (if last in closed then [] else [last])
  }

  /** The open edges are exactly the edges that are not closed. */
  lemma {:induction false} OpenEdgesMembers(edges: seq<Vertex>, closed: set<Vertex>)
    ensures forall w :: w in OpenEdges(edges, closed) ==> w in edges && w !in closed
    ensures forall w :: w in edges && w !in closed ==> w in OpenEdges(edges, closed)
    decreases |edges|
  {
    if |edges| > 0 {
      var prefix := edges[..|edges| - 1];
      OpenEdgesMembers(prefix, closed);
      assert edges == prefix + [edges[|edges| - 1]];
    }
  }

  /**
   * Every edge out of a closed vertex leads to a closed vertex or to the last
   * vertex of some queued path (ends lists those last vertices).
   */
  ghost predicate Frontier(closed: set<Vertex>, ends: seq<Vertex>)
    reads closed
  {
    forall v, w :: v in closed && w in v.connectedVertices ==> w in closed || w in ends
  }

  /** With an empty queue the closed set is closed under edges, so every walk from a closed start stays in it. */
  lemma {:induction false} WalkStaysClosed(closed: set<Vertex>, vs: seq<Vertex>, start: Vertex)
    requires Frontier(closed, []) && start in closed && IsWalk(vs, start)
    ensures forall v :: v in vs ==> v in closed
    decreases |vs|
  {
    if |vs| > 1 {
      var prefix := vs[..|vs| - 1];
      assert IsWalk(prefix, start);
      WalkStaysClosed(closed, prefix, start);
      assert vs[|vs| - 2] in prefix;
      assert vs[|vs| - 1] in vs[|vs| - 2].connectedVertices;
      forall v | v in vs
        ensures v in closed
      {
        if v != vs[|vs| - 1] {
          assert v in prefix;
        }
      }
    }
  }

  /** Removing index i keeps every element that differs from the removed one. */
  lemma RemoveKeeps<T>(s: seq<T>, i: int, w: T)
    requires 0 <= i < |s| && w in s && w != s[i]
    ensures w in s[..i] + s[i + 1..]
  {
    var k :| 0 <= k < |s| && s[k] == w;
    if k < i {
      assert (s[..i] + s[i + 1..])[k] == w;
    } else {
      assert (s[..i] + s[i + 1..])[k - 1] == w;
    }
  }

  /** Where the elements of a sequence go when index i is removed. */
  lemma RemoveAt<T>(s: seq<T>, i: int)
    requires 0 <= i < |s|
    ensures |s[..i] + s[i + 1..]| == |s| - 1
    ensures forall j :: 0 <= j < i ==> (s[..i] + s[i + 1..])[j] == s[j]
    ensures forall j :: i < j < |s| ==> (s[..i] + s[i + 1..])[j - 1] == s[j]
  {
  }

  /** Dropping a queued path whose last vertex is already closed keeps the frontier. */
  lemma SkipKeepsFrontier(closed: set<Vertex>, ends0: seq<Vertex>, i: int, start: Vertex)
    requires 0 <= i < |ends0| && ends0[i] in closed
    requires Frontier(closed, ends0) && (start in closed || start in ends0)
    ensures Frontier(closed, ends0[..i] + ends0[i + 1..])
    ensures start in closed || start in ends0[..i] + ends0[i + 1..]
  {
    forall w | w in ends0 && w != ends0[i]
      ensures w in ends0[..i] + ends0[i + 1..]
    {
      RemoveKeeps(ends0, i, w);
    }
  }

  /**
   * Closing the last vertex of the polled path and queueing paths to its open
   * neighbours, behind the remaining ones, keeps the frontier.
   */
  lemma CloseKeepsFrontier(closed: set<Vertex>, ends0: seq<Vertex>, i: int, ends: seq<Vertex>, start: Vertex)
    requires 0 <= i < |ends0|
    requires Frontier(closed, ends0) && (start in closed || start in ends0)
    requires |ends0| - 1 <= |ends| && ends[..|ends0| - 1] == ends0[..i] + ends0[i + 1..]
    requires forall w :: w in ends0[i].connectedVertices ==> w in closed + {ends0[i]} || w in ends
    ensures Frontier(closed + {ends0[i]}, ends)
    ensures start in closed + {ends0[i]} || start in ends
  {
    var rest := ends0[..i] + ends0[i + 1..];
    forall w | w in ends0 && w != ends0[i]
      ensures w in ends
    {
      RemoveKeeps(ends0, i, w);
      var k :| 0 <= k < |rest| && rest[k] == w;
      assert ends[k] == w;
    }
  }
}
