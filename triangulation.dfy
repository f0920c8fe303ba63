/**
 * The incremental Bowyer-Watson triangulation an obstacle builds from its points.
 * The triangulation starts from one huge fixed supertriangle; each point removes the
 * triangles whose circumcircle (closed) holds it and fans the hole left behind from
 * the point; the triangles still touching a supertriangle corner are dropped at the
 * end.  Triangles and edges are ordered tuples compared by value, and the
 * triangulation is a set of them, visited in no particular order.
 */
module Triangulation {
  import opened Vectors
  import opened Triangles
  import opened MeshCircles

  // ---------------------------------------------------------------------------
  // The triangulation as a function of the points
  // ---------------------------------------------------------------------------

  /** The coordinate bound of the hard-coded supertriangle. */
  const Far := 99999999999.0

  /** The fixed seed triangle ((-F, -F), (0, F), (F, 0)). */
  const SuperTriangle := Triangle(Vector2(-Far, -Far), Vector2(0.0, Far), Vector2(Far, 0.0))

  /** The triangles whose circumcircle holds `p`, points on the circle included. */
  function BadTriangles(p: Vector2, T: set<Triangle>): set<Triangle> {
    set t | t in T && PointInsideCircumcircle(p, t)
  }

  /** The edges of `t` that no triangle of `others` has, in either orientation. */
  function OpenEdges(t: Triangle, others: set<Triangle>): set<Edge> {
    set e | e in TriangleEdges(t) && !EdgeOccursIn(e, others)
  }

  /** The open edges of the triangles of `visited`, each measured against the rest of `bad`. */
  function HoleFrom(bad: set<Triangle>, visited: set<Triangle>): set<Edge> {
    set t, e | t in visited && e in OpenEdges(t, bad - {t}) :: e
  }

  /** The boundary of the hole the bad triangles leave: their edges no other bad triangle has. */
  function HoleBoundary(bad: set<Triangle>): set<Edge> {
    HoleFrom(bad, bad)
  }

  /** The triangles (e.p, p, e.q) filling the hole from `p`. */
  function Fan(hole: set<Edge>, p: Vector2): set<Triangle> {
    set e | e in hole :: Triangle(e.p, p, e.q)
  }

  /** One insertion step: the bad triangles go, the fan over the hole boundary comes in. */
  function InsertPoint(T: set<Triangle>, p: Vector2): set<Triangle> {
    var bad := BadTriangles(p, T);
    (T - bad) + Fan(HoleBoundary(bad), p)
  }

  /** The triangulation after inserting the points of `ps` in order into the supertriangle. */
  function Triangulate(ps: seq<Vector2>): set<Triangle> {
    if |ps| == 0 then {SuperTriangle}
    else InsertPoint(Triangulate(ps[..|ps| - 1]), ps[|ps| - 1])
  }

  /** Some vertex of `t` is a corner of the supertriangle. */
  predicate TouchesSuperTriangle(t: Triangle) {
    exists i :: 0 <= i < 3 && Vertices(t)[i] in Vertices(SuperTriangle)
  }

  /** The triangles that keep clear of the supertriangle's corners. */
  function Kept(T: set<Triangle>): set<Triangle> {
    set t | t in T && !TouchesSuperTriangle(t)
  }

  /** `ts` lists the triangles of `s`, each exactly once. */
  predicate Enumerates(ts: seq<Triangle>, s: set<Triangle>) {
    && (forall i :: 0 <= i < |ts| ==> ts[i] in s)
    && (forall t :: t in s ==> t in ts)
    && (forall i, j :: 0 <= i < j < |ts| ==> ts[i] != ts[j])
  }

  // ---------------------------------------------------------------------------
  // The steps of an insertion, as the loops that carry them out
  // ---------------------------------------------------------------------------

  /** Step (a): tests every triangle of the triangulation against `p`. */
  method FindBadTriangles(p: Vector2, T: set<Triangle>) returns (bad: set<Triangle>)
    ensures bad == BadTriangles(p, T)
  {
    bad := {};
    var rest := T;
    while rest != {}
      invariant rest <= T
      invariant bad == BadTriangles(p, T - rest)
      decreases |rest|
    {
      var t :| t in rest;
      if PointInsideCircumcircle(p, t) {
        bad := bad + {t};
      }
      rest := rest - {t};
      assert T - rest == (T - (rest + {t})) + {t};
    }
  }

  /** Visiting one more bad triangle adds its open edges to the hole boundary found so far. */
  lemma HoleFromAdd(bad: set<Triangle>, visited: set<Triangle>, t: Triangle)
    ensures HoleFrom(bad, visited + {t}) == HoleFrom(bad, visited) + OpenEdges(t, bad - {t})
  {
    forall e | e in HoleFrom(bad, visited + {t})
      ensures e in HoleFrom(bad, visited) || e in OpenEdges(t, bad - {t})
    {
      var u :| u in visited + {t} && e in OpenEdges(u, bad - {u});
      if u != t {
        assert u in visited;
      }
    }
  }

  /** Looks up each edge of `t` among `others`; the edges found nowhere are open. */
  method FindOpenEdges(t: Triangle, others: set<Triangle>) returns (open: set<Edge>)
    ensures open == OpenEdges(t, others)
  {
    open := {};
    var edges := TriangleEdges(t);
    for j := 0 to 3
      invariant open == set i | 0 <= i < j && !EdgeOccursIn(edges[i], others) :: edges[i]
    {
      var shared := EdgeInTriangles(edges[j], others);
      if !shared {
        open := open + {edges[j]};
      }
    }
  }

  /**
   * Step (b): for every bad triangle, each of its edges is looked up among the other
   * bad triangles; the edges found nowhere else form the hole boundary.
   */
  method FindHoleBoundary(bad: set<Triangle>) returns (hole: set<Edge>)
    ensures hole == HoleBoundary(bad)
  {
    hole := {};
    var rest := bad;
    while rest != {}
      invariant rest <= bad
      invariant hole == HoleFrom(bad, bad - rest)
      decreases |rest|
    {
      var t :| t in rest;
      var open := FindOpenEdges(t, bad - {t});
      hole := hole + open;
      HoleFromAdd(bad, bad - rest, t);
      rest := rest - {t};
      assert bad - rest == (bad - (rest + {t})) + {t};
    }
  }

  /**
   * Step (c): takes every bad triangle out of the triangulation.  Each removal finds
   * its triangle, because the bad triangles were drawn from the triangulation.
   */
  method RemoveTriangles(T: set<Triangle>, bad: set<Triangle>) returns (remaining: set<Triangle>)
    requires bad <= T
    ensures remaining == T - bad
  {
    remaining := T;
    var rest := bad;
    while rest != {}
      invariant rest <= bad
      invariant remaining == T - (bad - rest)
      decreases |rest|
    {
      var t :| t in rest;
      assert t in remaining;
      remaining := remaining - {t};
      rest := rest - {t};
    }
  }

  /** Step (d): adds the triangle (e.p, p, e.q) for every edge `e` of the hole boundary. */
  method AddFan(T: set<Triangle>, hole: set<Edge>, p: Vector2) returns (grown: set<Triangle>)
    ensures grown == T + Fan(hole, p)
  {
    grown := T;
    var rest := hole;
    while rest != {}
      invariant rest <= hole
      invariant grown == T + Fan(hole - rest, p)
      decreases |rest|
    {
      var e :| e in rest;
      grown := grown + {Triangle(e.p, p, e.q)};
      rest := rest - {e};
      assert hole - rest == (hole - (rest + {e})) + {e};
    }
  }

  /** Steps (a) to (d) together perform one insertion. */
  method InsertPointStep(T: set<Triangle>, p: Vector2) returns (next: set<Triangle>)
    ensures next == InsertPoint(T, p)
  {
    var bad := FindBadTriangles(p, T);
    var hole := FindHoleBoundary(bad);
    var remaining := RemoveTriangles(T, bad);
    next := AddFan(remaining, hole, p);
  }

  /** Inserts the points one after the other, starting from the supertriangle alone. */
  method BowyerWatson(ps: seq<Vector2>) returns (triangulation: set<Triangle>)
    ensures triangulation == Triangulate(ps)
  {
    triangulation := {SuperTriangle};
    for k := 0 to |ps|
      invariant triangulation == Triangulate(ps[..k])
    {
      triangulation := InsertPointStep(triangulation, ps[k]);
      assert ps[..k + 1][..k] == ps[..k];
    }
    assert ps[..|ps|] == ps;
  }

  /**
   * The final filter: a triangle is kept unless one of its vertices, looked at in
   * order, equals a supertriangle corner.
   */
  method KeepInnerTriangles(T: set<Triangle>) returns (kept: seq<Triangle>)
    ensures Enumerates(kept, Kept(T))
  {
    kept := [];
    var rest := T;
    var corners := Vertices(SuperTriangle);
    while rest != {}
      invariant rest <= T
      invariant Enumerates(kept, Kept(T - rest))
      invariant forall i :: 0 <= i < |kept| ==> kept[i] !in rest
      decreases |rest|
    {
      var t :| t in rest;
      var vertices := Vertices(t);
      var touches := false;
      for i := 0 to 3
        invariant !touches
        invariant forall j :: 0 <= j < i ==> vertices[j] !in corners
      {
        if vertices[i] in corners {
          touches := true;
          break;
        }
      }
      assert touches <==> TouchesSuperTriangle(t);
      if !touches {
        kept := kept + [t];
      }
      rest := rest - {t};
      assert T - rest == (T - (rest + {t})) + {t};
    }
  }

  // ---------------------------------------------------------------------------
  // Properties of the triangulation
  // ---------------------------------------------------------------------------

  /**
   * A hole-boundary edge is an edge of exactly one bad triangle: of its owner, and of
   * no other bad triangle in either orientation.
   */
  lemma HoleEdgeOwner(bad: set<Triangle>, e: Edge) returns (owner: Triangle)
    requires e in HoleBoundary(bad)
    ensures owner in bad && e in TriangleEdges(owner)
    ensures forall u :: u in bad && HasEdge(u, e) ==> u == owner
  {
    owner :| owner in bad && e in OpenEdges(owner, bad - {owner});
  }

  /** The two endpoints of an edge of `t` are vertices of `t`. */
  lemma EdgeEndsAreVertices(t: Triangle, e: Edge)
    requires e in TriangleEdges(t)
    ensures e.p in Vertices(t) && e.q in Vertices(t)
  {
  }

  /** The points the triangulation of `ps` may use: the inserted points and the corners. */
  function Allowed(ps: seq<Vector2>): set<Vector2> {
    (set v | v in ps) + {SuperTriangle.a, SuperTriangle.b, SuperTriangle.c}
  }

  /** Every vertex of every triangle of `T` belongs to `allowed`. */
  predicate VerticesWithin(T: set<Triangle>, allowed: set<Vector2>) {
    forall t, i :: t in T && 0 <= i < 3 ==> Vertices(t)[i] in allowed
  }

  /** An insertion only adds the inserted point as a new vertex. */
  lemma InsertPointVertices(T: set<Triangle>, p: Vector2, allowed: set<Vector2>)
    requires VerticesWithin(T, allowed)
    ensures VerticesWithin(InsertPoint(T, p), allowed + {p})
  {
    var bad := BadTriangles(p, T);
    forall t, i | t in InsertPoint(T, p) && 0 <= i < 3
      ensures Vertices(t)[i] in allowed + {p}
    {
      if t !in T - bad {
        var e :| e in HoleBoundary(bad) && t == Triangle(e.p, p, e.q);
        var owner := HoleEdgeOwner(bad, e);
        EdgeEndsAreVertices(owner, e);
        assert forall v :: v in Vertices(owner) ==> v in allowed;
      }
    }
  }

  /**
   * Every vertex of every triangle of the triangulation is one of the inserted points
   * or a supertriangle corner: the fan only joins the new point to edges of bad
   * triangles.
   */
  lemma {:induction false} TriangulateVertices(ps: seq<Vector2>)
    ensures VerticesWithin(Triangulate(ps), Allowed(ps))
  {
    if |ps| > 0 {
      var front := ps[..|ps| - 1];
      TriangulateVertices(front);
      InsertPointVertices(Triangulate(front), ps[|ps| - 1], Allowed(front));
      assert ps == front + [ps[|ps| - 1]];
      assert Allowed(front) + {ps[|ps| - 1]} == Allowed(ps);
    }
  }

  /** Every vertex of a kept triangle is one of the inserted points. */
  lemma KeptVertices(ps: seq<Vector2>)
    ensures forall t, i :: t in Kept(Triangulate(ps)) && 0 <= i < 3 ==> Vertices(t)[i] in ps
  {
    TriangulateVertices(ps);
    forall t, i | t in Kept(Triangulate(ps)) && 0 <= i < 3
      ensures Vertices(t)[i] in ps
    {
      assert Vertices(t)[i] in Allowed(ps);
    }
  }

  /**
   * After inserting `p`, a triangle whose circumcircle holds `p` has `p` as its middle
   * vertex: every such old triangle was removed, and the fan triangles are (e.p, p, e.q).
   * The triangles whose circumcircle does not hold `p` all stay.
   */
  lemma InsertPointClearsCircumcircles(T: set<Triangle>, p: Vector2)
    ensures forall t :: t in InsertPoint(T, p) && PointInsideCircumcircle(p, t) ==> t.b == p
    ensures forall t :: t in T && !PointInsideCircumcircle(p, t) ==> t in InsertPoint(T, p)
  {
    var bad := BadTriangles(p, T);
    forall t | t in InsertPoint(T, p) && PointInsideCircumcircle(p, t)
      ensures t.b == p
    {
      if t !in T - bad {
        var e :| e in HoleBoundary(bad) && t == Triangle(e.p, p, e.q);
      }
    }
  }

  /** A point outside every circumcircle leaves the triangulation as it was. */
  lemma InsertPointOutside(T: set<Triangle>, p: Vector2)
    requires forall t :: t in T ==> !PointInsideCircumcircle(p, t)
    ensures InsertPoint(T, p) == T
  {
    assert BadTriangles(p, T) == {};
    assert HoleBoundary({}) == {};
  }

  /** With a single bad triangle, all three of its edges are open. */
  lemma HoleOfOne(t: Triangle)
    ensures HoleBoundary({t}) == {TriangleEdges(t)[0], TriangleEdges(t)[1], TriangleEdges(t)[2]}
  {
    assert {t} - {t} == {};
    assert OpenEdges(t, {}) == {TriangleEdges(t)[0], TriangleEdges(t)[1], TriangleEdges(t)[2]};
    HoleFromAdd({t}, {}, t);
    assert HoleFrom({t}, {}) == {};
  }

  /** A point inside the circumcircle of a lone triangle splits it in three around the point. */
  lemma InsertIntoOne(t: Triangle, p: Vector2)
    requires PointInsideCircumcircle(p, t)
    ensures InsertPoint({t}, p) == {Triangle(t.a, p, t.b), Triangle(t.b, p, t.c), Triangle(t.c, p, t.a)}
  {
    var bad := BadTriangles(p, {t});
    assert bad == {t};
    assert {t} - bad == {};
    HoleOfOne(t);
    FanOfThree(t, p);
  }

  /** The fan over the three sides of `t`. */
  lemma FanOfThree(t: Triangle, p: Vector2)
    ensures var es := TriangleEdges(t);
            Fan({es[0], es[1], es[2]}, p) == {Triangle(t.a, p, t.b), Triangle(t.b, p, t.c), Triangle(t.c, p, t.a)}
  {
  }

  /**
   * The first point, when it lies in the circumcircle of the supertriangle, splits it
   * into the three triangles joining the point to its sides.
   */
  lemma FirstInsertion(p: Vector2)
    requires PointInsideCircumcircle(p, SuperTriangle)
    ensures var s := SuperTriangle;
            Triangulate([p]) == {Triangle(s.a, p, s.b), Triangle(s.b, p, s.c), Triangle(s.c, p, s.a)}
  {
    assert [p][..0] == [];
    InsertIntoOne(SuperTriangle, p);
  }

  /** The supertriangle is a proper triangle, so its circumcircle exists. */
  lemma SuperTriangleNotCollinear()
    ensures !Collinear(SuperTriangle.a, SuperTriangle.b, SuperTriangle.c)
  {
  }
}
