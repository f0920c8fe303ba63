/**
 * Triangles as ordered triples of points and edges as ordered pairs, as the mesh
 * utilities store them (tuples compared by value), with the edge enumeration of a
 * triangle and the "edge occurs in some triangle, in either orientation" search.
 */
module Triangles {
  import opened Vectors

  /** An ordered triple; two triangles are equal only when their vertices agree in order. */
  datatype Triangle = Triangle(a: Vector2, b: Vector2, c: Vector2)

  /** An ordered pair of points; `Reversed` is the same segment traversed backwards. */
  datatype Edge = Edge(p: Vector2, q: Vector2) {
    function Reversed(): Edge {
      Edge(q, p)
    }
  }

  /** The three vertices of a triangle, in order. */
  function Vertices(t: Triangle): seq<Vector2> {
    [t.a, t.b, t.c]
  }

  /** The triangle's vertices are pairwise distinct. */
  predicate NonDegenerate(t: Triangle) {
    t.a != t.b && t.b != t.c && t.c != t.a
  }

  /** `e` runs between `u` and `v`, in one direction or the other. */
  predicate Joins(e: Edge, u: Vector2, v: Vector2) {
    e == Edge(u, v) || e == Edge(v, u)
  }

  /**
   * The edges (A, B), (B, C), (C, A) of the triangle (A, B, C): a closed chain through
   * its vertices in order, each edge starting where the previous one ends.
   */
  function TriangleEdges(t: Triangle): (es: seq<Edge>)
    ensures |es| == 3
    ensures forall i :: 0 <= i < 3 ==> es[i].p == Vertices(t)[i]
    ensures forall i :: 0 <= i < 3 ==> es[i].q == es[(i + 1) % 3].p
  {
    [Edge(t.a, t.b), Edge(t.b, t.c), Edge(t.c, t.a)]
  }

  /** `e` or its reverse is one of the triangle's edges. */
  predicate HasEdge(t: Triangle, e: Edge) {
    exists i :: 0 <= i < 3 && (e == TriangleEdges(t)[i] || e == TriangleEdges(t)[i].Reversed())
  }

  /** Some triangle of `ts` has `e` as an edge, in either orientation. */
  predicate EdgeOccursIn(e: Edge, ts: set<Triangle>) {
    exists t :: t in ts && HasEdge(t, e)
  }

  /** A triangle has an edge exactly when that edge joins two of its vertices cyclically. */
  lemma HasEdgeJoins(t: Triangle, e: Edge)
    ensures HasEdge(t, e) <==> Joins(e, t.a, t.b) || Joins(e, t.b, t.c) || Joins(e, t.c, t.a)
  {
    var es := TriangleEdges(t);
    if Joins(e, t.a, t.b) {
      assert e == es[0] || e == es[0].Reversed();
    } else if Joins(e, t.b, t.c) {
      assert e == es[1] || e == es[1].Reversed();
    } else if Joins(e, t.c, t.a) {
      assert e == es[2] || e == es[2].Reversed();
    }
  }

  /** The search does not depend on the orientation of the edge it looks for. */
  lemma EdgeOccursInReversed(e: Edge, ts: set<Triangle>)
    ensures EdgeOccursIn(e.Reversed(), ts) <==> EdgeOccursIn(e, ts)
  {
    if EdgeOccursIn(e, ts) {
      var t :| t in ts && HasEdge(t, e);
      HasEdgeJoins(t, e);
      HasEdgeJoins(t, e.Reversed());
    }
    if EdgeOccursIn(e.Reversed(), ts) {
      var t :| t in ts && HasEdge(t, e.Reversed());
      HasEdgeJoins(t, e);
      HasEdgeJoins(t, e.Reversed());
    }
  }

  /**
   * Looks through the triangles of `ts`, in an unspecified order, and stops at the
   * first one that has `e` or its reverse among its edges.
   */
  method EdgeInTriangles(e: Edge, ts: set<Triangle>) returns (found: bool)
    ensures found <==> EdgeOccursIn(e, ts)
  {
    var rest := ts;
    while rest != {}
      invariant rest <= ts
      invariant forall t :: t in ts - rest ==> !HasEdge(t, e)
      decreases |rest|
    {
      var t :| t in rest;
      var edges := TriangleEdges(t);
      var i := 0;
      while i < 3
        invariant 0 <= i <= 3
        invariant forall j :: 0 <= j < i ==> e != edges[j] && e != edges[j].Reversed()
      {
        if e == edges[i] || e == edges[i].Reversed() {
          return true;
        }
        i := i + 1;
      }
      rest := rest - {t};
    }
    return false;
  }
}
