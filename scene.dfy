/**
 * The conversions the scene uses to draw: the global frame, in units with the y axis
 * pointing up, is mapped to the window's drawing frame, in pixels with the y axis
 * pointing down and the global origin at the window's centre; and a polygon is drawn as
 * the list of segments handed to the line drawer.
 */
module Scenes {
  import opened Wrappers
  import opened Vectors
  import opened Triangles
  import opened MeshOutline

  /** The scene settings the conversions read: pixels per global unit and the window size. */
  datatype View = View(unit: real, windowSize: Vector2)

  /** The window's centre, half its size. */
  function Centre(view: View): Vector2 {
    Vector2(view.windowSize.x / 2.0, view.windowSize.y / 2.0)
  }

  /**
   * Global frame to drawing frame: scaled by (u, -u), then moved to the window's centre.
   * A drawn point lies right of the centre by `x * u` and above it by `y * u`.
   */
  function GlobalFrameToDrawFrame(view: View, v: Vector2): (d: Vector2)
    ensures d.x - Centre(view).x == v.x * view.unit
    ensures Centre(view).y - d.y == v.y * view.unit
  {
    Add(Mul(v, Vector2(view.unit, -view.unit)), Centre(view))
  }

  /**
   * Drawing frame to global frame: moved back from the centre, then divided by (u, -u).
   * A zero unit makes the division fail.
   */
  function DrawFrameToGlobalFrame(view: View, d: Vector2): (r: Option<Vector2>)
    ensures r.None? <==> view.unit == 0.0
  {
    if view.unit == 0.0 then None
    else
      var w := Sub(d, Centre(view));
      Some(Vector2(w.x / view.unit, w.y / -view.unit))
  }

  /** A length in global units as a length in pixels. */
  function GlobalScaleToDrawScale(view: View, value: real): real {
    value * view.unit
  }

  /** The global origin is drawn at the window's centre. */
  lemma OriginAtCentre(view: View)
    ensures GlobalFrameToDrawFrame(view, Origin) == Centre(view)
  {
  }

  /** Dividing by a non-zero factor undoes multiplying by it, and the other way round. */
  lemma DivideMultiply(x: real, u: real, y: real)
    requires u != 0.0
    ensures y == x * u ==> y / u == x
    ensures y == x / u ==> y * u == x
  {
  }

  /** For a non-zero unit the two conversions undo each other, in both orders. */
  lemma DrawFrameRoundTrip(view: View, v: Vector2, d: Vector2)
    requires view.unit != 0.0
    ensures DrawFrameToGlobalFrame(view, GlobalFrameToDrawFrame(view, v)) == Some(v)
    ensures GlobalFrameToDrawFrame(view, DrawFrameToGlobalFrame(view, d).value) == d
  {
    GlobalRoundTrip(view, v);
    DrawRoundTrip(view, d);
  }

  /** Drawing a global point and converting it back gives the point. */
  lemma GlobalRoundTrip(view: View, v: Vector2)
    requires view.unit != 0.0
    ensures DrawFrameToGlobalFrame(view, GlobalFrameToDrawFrame(view, v)) == Some(v)
  {
    var u := view.unit;
    var m := Sub(GlobalFrameToDrawFrame(view, v), Centre(view));
    assert m == Vector2(v.x * u, v.y * -u);
    DivideMultiply(v.x, u, m.x);
    DivideMultiply(v.y, -u, m.y);
  }

  /** Converting a window position to the global frame and drawing it gives the position. */
  lemma DrawRoundTrip(view: View, d: Vector2)
    requires view.unit != 0.0
    ensures GlobalFrameToDrawFrame(view, DrawFrameToGlobalFrame(view, d).value) == d
  {
    var u := view.unit;
    var w := Sub(d, Centre(view));
    DivideMultiply(w.x, u, w.x / u);
    DivideMultiply(w.y, -u, w.y / -u);
  }

  /**
   * With a positive unit the x axis keeps its direction and the y axis is flipped:
   * a point further right is drawn further right, a point higher up is drawn higher
   * on the window, that is with a smaller pixel row.
   */
  lemma AxesDirections(view: View, v: Vector2, w: Vector2)
    requires view.unit > 0.0
    ensures v.x < w.x <==> GlobalFrameToDrawFrame(view, v).x < GlobalFrameToDrawFrame(view, w).x
    ensures v.y < w.y <==> GlobalFrameToDrawFrame(view, v).y > GlobalFrameToDrawFrame(view, w).y
  {
    ScaleOrder(v.x, w.x, view.unit);
    ScaleOrder(v.y, w.y, view.unit);
  }

  /** Multiplying by a positive factor keeps the order. */
  lemma ScaleOrder(a: real, b: real, u: real)
    requires u > 0.0
    ensures a < b <==> a * u < b * u
  {
    assert (b - a) * u == b * u - a * u;
    if a < b {
      assert (b - a) * u > 0.0;
    } else {
      assert (a - b) * u >= 0.0;
    }
  }

  /**
   * The drawing frame is the global frame scaled by the unit: two points at distance
   * `r` are drawn at the distance the scale map gives for `r`.
   */
  lemma DrawnDistances(view: View, v: Vector2, w: Vector2, r: real)
    requires DistSqr(v, w) == r * r
    ensures DistSqr(GlobalFrameToDrawFrame(view, v), GlobalFrameToDrawFrame(view, w))
         == GlobalScaleToDrawScale(view, r) * GlobalScaleToDrawScale(view, r)
  {
    var dv, dw := GlobalFrameToDrawFrame(view, v), GlobalFrameToDrawFrame(view, w);
    ScaledSquares(v.x - w.x, v.y - w.y, view.unit, r, dv.x - dw.x, dv.y - dw.y);
    assert Sub(dv, dw) == Vector2(dv.x - dw.x, dv.y - dw.y);
  }

  /** (a u)^2 + (b u)^2 is (r u)^2 when a^2 + b^2 is r^2. */
  lemma ScaledSquares(a: real, b: real, u: real, r: real, au: real, bu: real)
    requires a * a + b * b == r * r
    requires au == a * u && bu == -(b * u)
    ensures au * au + bu * bu == (r * u) * (r * u)
  {
    assert au * au + bu * bu == (a * a + b * b) * (u * u);
  }

  /**
   * The segments a polygon is drawn with: none for fewer than two points; otherwise
   * one from each point to the next, then one between the first and the last point.
   */
  function PolygonSegments(points: seq<Vector2>): (segments: seq<Edge>)
    ensures |points| < 2 ==> segments == []
    ensures |points| >= 2 ==> |segments| == |points|
    ensures |points| >= 2 ==> forall i :: 0 <= i < |points| - 1 ==> segments[i] == Edge(points[i], points[i + 1])
    ensures |points| >= 2 ==> segments[|points| - 1] == Edge(points[0], points[|points| - 1])
  {
    if |points| < 2 then []
    else
      var n := |points|;
      seq(n, i requires 0 <= i < n => if i < n - 1 then Edge(points[i], points[i + 1]) else Edge(points[0], points[n - 1]))
  }

  /** Emits the segments of a polygon in drawing order. */
  method DrawPolygon(points: seq<Vector2>) returns (segments: seq<Edge>)
    ensures segments == PolygonSegments(points)
  {
    var n := |points|;
    if n < 2 {
      return [];
    }
    segments := [];
    for i := 0 to n - 1
      invariant segments == PolygonSegments(points)[..i]
    {
      segments := segments + [Edge(points[i], points[i + 1])];
    }
    segments := segments + [Edge(points[0], points[n - 1])];
  }

  /** Two points give the same segment twice. */
  lemma TwoPointSegments(p: Vector2, q: Vector2)
    ensures PolygonSegments([p, q]) == [Edge(p, q), Edge(p, q)]
  {
  }

  /**
   * Drawing the polygon that goes once around a closed outline draws exactly its
   * edges: every segment is an outline edge, and every outline edge is drawn, in one
   * orientation or the other.
   */
  lemma OutlineSegments(polygon: seq<Vector2>, edges: set<Edge>)
    requires TracesCycle(polygon, edges)
    ensures forall s :: s in PolygonSegments(polygon) ==> s in edges || s.Reversed() in edges
    ensures forall e :: e in edges ==> exists s :: s in PolygonSegments(polygon) && SameSegment(s, e)
  {
    forall s | s in PolygonSegments(polygon)
      ensures s in edges || s.Reversed() in edges
    {
      SegmentIsEdge(polygon, edges, s);
    }
    forall e | e in edges
      ensures exists s :: s in PolygonSegments(polygon) && SameSegment(s, e)
    {
      EdgeIsDrawn(polygon, edges, e);
    }
  }

  /** A drawn segment of the outline polygon is an outline edge. */
  lemma SegmentIsEdge(polygon: seq<Vector2>, edges: set<Edge>, s: Edge)
    requires TracesCycle(polygon, edges) && s in PolygonSegments(polygon)
    ensures s in edges || s.Reversed() in edges
  {
    var n := |polygon|;
    var segments := PolygonSegments(polygon);
    var i :| 0 <= i < n && segments[i] == s;
    assert Linked(edges, polygon[i], polygon[Next(i, n)]);
  }

  /** An outline edge is drawn as a segment of the outline polygon. */
  lemma EdgeIsDrawn(polygon: seq<Vector2>, edges: set<Edge>, e: Edge)
    requires TracesCycle(polygon, edges) && e in edges
    ensures exists s :: s in PolygonSegments(polygon) && SameSegment(s, e)
  {
    var n := |polygon|;
    var segments := PolygonSegments(polygon);
    var i :| 0 <= i < n && Joins(e, polygon[i], polygon[Next(i, n)]);
    assert SameSegment(segments[i], e);
  }

  /**
   * The colour list for the drawing library: the three components scaled to [0, 1]
   * by dividing by 255, followed by an opaque alpha of 1; any list not of three
   * components gives the empty list.
   */
  function GetRgba(color: seq<real>): (c: seq<real>)
    ensures |color| == 3 ==> |c| == 4 && c[3] == 1.0 && forall i :: 0 <= i < 3 ==> c[i] * 255.0 == color[i]
    ensures |color| != 3 ==> c == []
  {
    if |color| == 3 then seq(3, i requires 0 <= i < 3 => color[i] / 255.0) + [1.0] else []
  }
}
