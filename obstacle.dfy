/**
 * An obstacle: the points placed by the user, the triangles of their Bowyer-Watson
 * triangulation that keep clear of the supertriangle, the outline polygon of those
 * triangles, and its drawing settings.  Triangles are stored as lists of three points,
 * the form they also take once loaded from a saved dict.
 */
module Obstacles {
  import opened Wrappers
  import opened Vectors
  import opened Triangles
  import opened MeshOutline
  import opened Triangulation
  import opened Records

  // ---------------------------------------------------------------------------
  // Triangles stored as point lists
  // ---------------------------------------------------------------------------

  /** Every stored triangle is a list of exactly three points. */
  predicate AllTriples(tris: seq<seq<Vector2>>) {
    forall i :: 0 <= i < |tris| ==> |tris[i]| == 3
  }

  /** The stored form of a list of triangles: each as the list of its vertices. */
  function VertexLists(ts: seq<Triangle>): (tris: seq<seq<Vector2>>)
    ensures |tris| == |ts| && AllTriples(tris)
    ensures forall i :: 0 <= i < |ts| ==> tris[i] == Vertices(ts[i])
  {
    if |ts| == 0 then [] else VertexLists(ts[..|ts| - 1]) + [Vertices(ts[|ts| - 1])]
  }

  /** The triangles a list of three-point lists stands for. */
  function TrianglesOf(tris: seq<seq<Vector2>>): (ts: seq<Triangle>)
    requires AllTriples(tris)
    ensures |ts| == |tris|
    ensures forall i :: 0 <= i < |tris| ==> Vertices(ts[i]) == tris[i]
  {
    if |tris| == 0 then []
    else
      var last := tris[|tris| - 1];
      TrianglesOf(tris[..|tris| - 1]) + [Triangle(last[0], last[1], last[2])]
  }

  /** Storing triangles as point lists and reading them back loses nothing. */
  lemma TrianglesOfVertexLists(ts: seq<Triangle>)
    ensures TrianglesOf(VertexLists(ts)) == ts
  {
    var back := TrianglesOf(VertexLists(ts));
    forall i | 0 <= i < |ts|
      ensures back[i] == ts[i]
    {
      assert Vertices(back[i]) == Vertices(ts[i]);
    }
  }

  /** The drawing settings a new obstacle starts with. */
  const DefaultDrawOptions := Dict(map[
    "points" := Dict(map["color" := Black, "radius" := Number(3.0)]),
    "triangles" := Dict(map["color" := Grey(80.0), "radius" := Number(2.0)]),
    "outline" := Dict(map["color" := Grey(80.0), "width" := Number(2.0)]),
    "polygon" := Dict(map["color" := Grey(120.0)])])

  // ---------------------------------------------------------------------------
  // Removing the points near a given point
  // ---------------------------------------------------------------------------

  /**
   * `p` is within `radius` of `point`: `|point - p| <= radius`, written with squares,
   * which needs a radius that is not negative.
   */
  predicate Close(point: Vector2, p: Vector2, radius: real) {
    0.0 <= radius && DistSqr(point, p) <= radius * radius
  }

  /** The position of the first occurrence of `x`. */
  function IndexOf(ps: seq<Vector2>, x: Vector2): (k: nat)
    requires x in ps
    ensures k < |ps| && ps[k] == x && x !in ps[..k]
  {
    if ps[0] == x then 0 else IndexOf(ps[1..], x) + 1
  }

  /** Removal of the first element equal to `x`, as a list's `remove` does it. */
  function RemoveFirst(ps: seq<Vector2>, x: Vector2): (qs: seq<Vector2>)
    requires x in ps
    ensures |qs| == |ps| - 1
  {
    var k := IndexOf(ps, x);
    ps[..k] + ps[k + 1..]
  }

  /** The test a removal pass applies to each point: within `radius` of `point`. */
  function Near(point: Vector2, radius: real): Vector2 -> bool {
    p => Close(point, p, radius)
  }

  /**
   * The list a removal pass leaves, from position `i` on: the element at `i` is examined,
   * and when it is `near` its first occurrence is removed; either way the pass moves to
   * position `i + 1` of the current list, so the element following a removed one is
   * never examined.
   */
  function Sweep(ps: seq<Vector2>, i: nat, near: Vector2 -> bool): seq<Vector2>
    decreases |ps| - i
  {
    if i >= |ps| then ps
    else if near(ps[i]) then Sweep(RemoveFirst(ps, ps[i]), i + 1, near)
    else Sweep(ps, i + 1, near)
  }

  /** The points of `ps` that are not `near`, in order. */
  function FarPoints(ps: seq<Vector2>, near: Vector2 -> bool): seq<Vector2> {
    if |ps| == 0 then []
    else FarPoints(ps[..|ps| - 1], near) + (if near(ps[|ps| - 1]) then [] else [ps[|ps| - 1]])
  }

  /** The far points of a concatenation. */
  lemma {:induction false} FarPointsConcat(a: seq<Vector2>, b: seq<Vector2>, near: Vector2 -> bool)
    ensures FarPoints(a + b, near) == FarPoints(a, near) + FarPoints(b, near)
  {
    if |b| > 0 {
      FarPointsConcat(a, b[..|b| - 1], near);
      assert (a + b)[..|a + b| - 1] == a + b[..|b| - 1];
    } else {
      assert a + b == a;
    }
  }

  /** Taking a near point out of the middle of a list keeps every far point, in order. */
  lemma FarPointsSplice(a: seq<Vector2>, x: Vector2, b: seq<Vector2>, near: Vector2 -> bool)
    requires near(x)
    ensures FarPoints(a + [x] + b, near) == FarPoints(a + b, near)
  {
    assert FarPoints([x], near) == [] by {
      assert [x][..0] == [];
    }
    FarPointsConcat(a + [x], b, near);
    FarPointsConcat(a, [x], near);
    FarPointsConcat(a, b, near);
  }

  /** Removing a near point keeps every far point, in order. */
  lemma RemoveNearKeepsFar(ps: seq<Vector2>, x: Vector2, near: Vector2 -> bool)
    requires x in ps && near(x)
    ensures FarPoints(RemoveFirst(ps, x), near) == FarPoints(ps, near)
  {
    var k := IndexOf(ps, x);
    var a, b := ps[..k], ps[k + 1..];
    assert ps == a + [x] + b;
    FarPointsSplice(a, x, b, near);
  }

  /** Removing one occurrence of an element leaves part of the list. */
  lemma RemoveFirstSmaller(ps: seq<Vector2>, x: Vector2)
    requires x in ps
    ensures multiset(RemoveFirst(ps, x)) + multiset{x} == multiset(ps)
  {
    var k := IndexOf(ps, x);
    assert ps == ps[..k] + [x] + ps[k + 1..];
  }

  /**
   * A removal pass removes only near points: the far points stay, in their order, and
   * what is left is part of the original list.
   */
  lemma {:induction false} SweepKeepsFar(ps: seq<Vector2>, i: nat, near: Vector2 -> bool)
    ensures FarPoints(Sweep(ps, i, near), near) == FarPoints(ps, near)
    ensures multiset(Sweep(ps, i, near)) <= multiset(ps)
    decreases |ps| - i
  {
    if i < |ps| {
      if near(ps[i]) {
        var qs := RemoveFirst(ps, ps[i]);
        SweepKeepsFar(qs, i + 1, near);
        RemoveNearKeepsFar(ps, ps[i], near);
        RemoveFirstSmaller(ps, ps[i]);
      } else {
        SweepKeepsFar(ps, i + 1, near);
      }
    }
  }

  /** A removal pass never lengthens the list. */
  lemma {:induction false} SweepShrinks(ps: seq<Vector2>, i: nat, near: Vector2 -> bool)
    ensures |Sweep(ps, i, near)| <= |ps|
    decreases |ps| - i
  {
    if i < |ps| {
      if near(ps[i]) {
        SweepShrinks(RemoveFirst(ps, ps[i]), i + 1, near);
      } else {
        SweepShrinks(ps, i + 1, near);
      }
    }
  }

  /** A pass from position `i` removes something exactly when a point from `i` on is near. */
  lemma {:induction false} SweepRemovesIff(ps: seq<Vector2>, i: nat, near: Vector2 -> bool)
    ensures |Sweep(ps, i, near)| < |ps| <==> exists j :: i <= j < |ps| && near(ps[j])
    decreases |ps| - i
  {
    if i < |ps| {
      if near(ps[i]) {
        SweepShrinks(RemoveFirst(ps, ps[i]), i + 1, near);
      } else {
        SweepRemovesIff(ps, i + 1, near);
        if exists j :: i <= j < |ps| && near(ps[j]) {
          var j :| i <= j < |ps| && near(ps[j]);
          assert j != i;
        }
      }
    }
  }

  /** Two equal near points in a row: the second one is skipped and stays. */
  lemma SweepSkipsNeighbour(a: Vector2, near: Vector2 -> bool)
    requires near(a)
    ensures Sweep([a, a], 0, near) == [a]
  {
    assert RemoveFirst([a, a], a) == [a];
  }

  // ---------------------------------------------------------------------------
  // The mesh of a point list
  // ---------------------------------------------------------------------------

  /**
   * The mesh of at least three points: the Bowyer-Watson triangulation from the
   * supertriangle, the triangles clear of its corners as vertex triples, and the outline
   * of those, `None` when the outline walk could not go on.
   */
  method MeshOf(points: seq<Vector2>) returns (tris: seq<seq<Vector2>>, outline: Option<seq<Vector2>>)
    ensures AllTriples(tris) && Enumerates(TrianglesOf(tris), Kept(Triangulate(points)))
    ensures outline.Some? ==> IsOutline(outline.value, BoundaryEdges(TrianglesOf(tris)))
    ensures FormsCycle(BoundaryEdges(TrianglesOf(tris))) ==> outline.Some?
  {
    var triangulation := BowyerWatson(points);
    var kept := KeepInnerTriangles(triangulation);
    tris := VertexLists(kept);
    TrianglesOfVertexLists(kept);
    outline := MakePolygonFromTriangles(kept);
  }

  // ---------------------------------------------------------------------------
  // The obstacle
  // ---------------------------------------------------------------------------

  class Obstacle {
    var points: seq<Vector2>
    var triangles: seq<seq<Vector2>>
    var polygon: seq<Vector2>
    var drawMesh: bool
    var drawOptions: Value
    /** Set (to the empty list) only when a mesh is made from fewer than three points. */
    var supertriangle: Option<seq<Vector2>>

    /** The triangles are those of the triangulation of the points, or none for fewer than three points. */
    ghost predicate TrianglesMade()
      reads this
    {
      if |points| < 3 then triangles == []
      else AllTriples(triangles) && Enumerates(TrianglesOf(triangles), Kept(Triangulate(points)))
    }

    /** The polygon is the outline of the triangles. */
    ghost predicate OutlineMade()
      reads this
    {
      AllTriples(triangles) && IsOutline(polygon, BoundaryEdges(TrianglesOf(triangles)))
    }

    /** The triangles' outline edges form a single cycle, so the outline walk ends. */
    ghost predicate OutlineIsCycle()
      reads this
    {
      AllTriples(triangles) && FormsCycle(BoundaryEdges(TrianglesOf(triangles)))
    }

    /** The saved parts of the obstacle. */
    function Record(): ObstacleRecord
      reads this
    {
      ObstacleRecord(points, triangles, polygon, drawMesh, drawOptions)
    }

    /** An obstacle over the given points with no mesh made yet. */
    constructor (points: seq<Vector2>, drawMesh: bool)
      ensures this.points == points && triangles == [] && polygon == []
      ensures this.drawMesh == drawMesh && drawOptions == DefaultDrawOptions && supertriangle == None
    {
      this.points := points;
      triangles := [];
      polygon := [];
      this.drawMesh := drawMesh;
      drawOptions := DefaultDrawOptions;
      supertriangle := None;
    }

    /**
     * An obstacle over the given points, with its mesh made when `make` is set.
     * `finished` is false when the outline walk could not go on, where the mesh is
     * never completed.
     */
    static method Create(points: seq<Vector2>, drawMesh: bool, make: bool) returns (o: Obstacle, finished: bool)
      ensures fresh(o)
      ensures o.points == points && o.drawMesh == drawMesh && o.drawOptions == DefaultDrawOptions
      ensures !make ==> finished && o.triangles == [] && o.polygon == [] && o.supertriangle == None
      ensures make ==> o.TrianglesMade()
      ensures make && |points| < 3 ==> finished && o.polygon == [] && o.supertriangle == Some([])
      ensures make && |points| >= 3 ==> o.supertriangle == None
      ensures make && |points| >= 3 ==> (finished ==> o.OutlineMade()) && (!finished ==> o.polygon == [])
      ensures make && |points| >= 3 && o.OutlineIsCycle() ==> finished
    {
      o := new Obstacle(points, drawMesh);
      finished := true;
      if make {
        finished := o.MakeObstacle();
      }
    }

    /**
     * Rebuilds the mesh: with fewer than three points there are no triangles; otherwise
     * the points are inserted one by one into the supertriangle, the triangles clear of
     * its corners are kept and their outline becomes the polygon.  `finished` is false
     * when the outline walk could not go on; the polygon is then left as it was.
     */
    method MakeObstacle() returns (finished: bool)
      modifies this
      ensures points == old(points) && drawMesh == old(drawMesh) && drawOptions == old(drawOptions)
      ensures TrianglesMade()
      ensures |points| < 3 ==> finished && polygon == old(polygon) && supertriangle == Some([])
      ensures |points| >= 3 ==> supertriangle == old(supertriangle)
      ensures |points| >= 3 ==> (finished ==> OutlineMade()) && (!finished ==> polygon == old(polygon))
      ensures |points| >= 3 && OutlineIsCycle() ==> finished
    {
      if |points| < 3 {
        supertriangle := Some([]);
        triangles := [];
        return true;
      }
      var outline;
      triangles, outline := MeshOf(points);
      if outline.None? {
        return false;
      }
      polygon := outline.value;
      return true;
    }

    /** Appends a point and rebuilds the mesh. */
    method AddPoint(point: Vector2) returns (finished: bool)
      modifies this
      ensures points == old(points) + [point]
      ensures drawMesh == old(drawMesh) && drawOptions == old(drawOptions)
      ensures TrianglesMade()
      ensures |points| < 3 ==> finished && polygon == old(polygon) && supertriangle == Some([])
      ensures |points| >= 3 ==> supertriangle == old(supertriangle)
      ensures |points| >= 3 ==> (finished ==> OutlineMade()) && (!finished ==> polygon == old(polygon))
      ensures |points| >= 3 && OutlineIsCycle() ==> finished
    {
      points := points + [point];
      finished := MakeObstacle();
    }

    /**
     * Walks the point list once, removing each point found within `deleteRadius` of
     * `point`; reports whether anything was removed, and rebuilds the mesh when so and
     * `remake` is set.
     */
    method RemovePointIfClose(point: Vector2, deleteRadius: real, remake: bool) returns (deleteAny: bool, finished: bool)
      modifies this
      ensures points == Sweep(old(points), 0, Near(point, deleteRadius))
      ensures deleteAny <==> exists j :: 0 <= j < |old(points)| && Close(point, old(points)[j], deleteRadius)
      ensures drawMesh == old(drawMesh) && drawOptions == old(drawOptions)
      ensures !(deleteAny && remake) ==>
                finished && triangles == old(triangles) && polygon == old(polygon) && supertriangle == old(supertriangle)
      ensures deleteAny && remake ==> TrianglesMade()
      ensures deleteAny && remake && |points| < 3 ==> finished && polygon == old(polygon) && supertriangle == Some([])
      ensures deleteAny && remake && |points| >= 3 ==>
                supertriangle == old(supertriangle)
                && (finished ==> OutlineMade()) && (!finished ==> polygon == old(polygon))
      ensures deleteAny && remake && |points| >= 3 && OutlineIsCycle() ==> finished
    {
      deleteAny := false;
      var i := 0;
      while i < |points|
        invariant Sweep(points, i, Near(point, deleteRadius)) == Sweep(old(points), 0, Near(point, deleteRadius))
        invariant |points| <= |old(points)|
        invariant deleteAny <==> |points| < |old(points)|
        invariant triangles == old(triangles) && polygon == old(polygon) && supertriangle == old(supertriangle)
        invariant drawMesh == old(drawMesh) && drawOptions == old(drawOptions)
        decreases |points| - i
      {
        var p := points[i];
        if Close(point, p, deleteRadius) {
          points := RemoveFirst(points, p);
          deleteAny := true;
        }
        i := i + 1;
      }
      SweepRemovesIff(old(points), 0, Near(point, deleteRadius));
      finished := true;
      if deleteAny && remake {
        finished := MakeObstacle();
      }
    }

    /** The dict holding the obstacle's points, triangles, outline and drawing settings. */
    method SaveToDict() returns (data: Value)
      ensures data == Save(Record())
    {
      var points := DumpVectorList(this.points);
      var saved := [];
      for i := 0 to |triangles|
        invariant saved == DumpTriangles(triangles[..i])
      {
        var tri := DumpVectorList(triangles[i]);
        saved := saved + [List(tri)];
        assert triangles[..i + 1][..i] == triangles[..i];
      }
      assert triangles[..|triangles|] == triangles;
      var polygon := DumpVectorList(this.polygon);
      data := Dict(map[
        "draw_mesh" := Bool(drawMesh),
        "draw_options" := drawOptions,
        "points" := List(points),
        "triangles" := List(saved),
        "polygon" := List(polygon)]);
    }

    /**
     * The obstacle described by a dict, with no mesh rebuilt: points, outline, triangles
     * and drawing settings are taken as they are.  `None` when a key is missing or an
     * entry is malformed.
     */
    static method LoadFromDict(data: Value) returns (r: Option<Obstacle>)
      ensures r.Some? <==> Load(data).Some?
      ensures r.Some? ==> fresh(r.value) && r.value.Record() == Load(data).value && r.value.supertriangle == None
    {
      var record := Load(data);
      if record.None? {
        return None;
      }
      var points := LoadVectorList(ListAt(data, "points").value);
      var polygon := LoadVectorList(ListAt(data, "polygon").value);
      var entries := ListAt(data, "triangles").value;
      var triangles := [];
      for i := 0 to |entries|
        invariant LoadTriangles(entries[..i]) == Some(triangles)
      {
        assert entries[..i + 1][..i] == entries[..i];
        var tri := LoadVectorList(entries[i].items);
        triangles := triangles + [tri.value];
      }
      assert entries[..|entries|] == entries;
      var o := new Obstacle(points.value, data.fields["draw_mesh"].b);
      o.drawOptions := data.fields["draw_options"];
      o.polygon := polygon.value;
      o.triangles := triangles;
      return Some(o);
    }
  }
}
