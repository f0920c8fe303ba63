/**
 * The plain dictionaries an obstacle is saved to and loaded from: booleans, numbers,
 * lists and string-keyed dicts.  A point is saved as the dict {"x": x, "y": y}; loading
 * reads those two keys back and fails on anything else.
 */
module Records {
  import opened Wrappers
  import opened Vectors

  /** A value of a saved dictionary. */
  datatype Value =
    | Bool(b: bool)
    | Number(r: real)
    | List(items: seq<Value>)
    | Dict(fields: map<string, Value>)

  /** The colour (0, 0, 0), saved as a list of its three components. */
  const Black := List([Number(0.0), Number(0.0), Number(0.0)])

  /** The grey colour (v, v, v). */
  function Grey(v: real): Value {
    List([Number(v), Number(v), Number(v)])
  }

  // ---------------------------------------------------------------------------
  // Points and lists of points
  // ---------------------------------------------------------------------------

  /** The dict {"x": v.x, "y": v.y}. */
  function DumpVector(v: Vector2): Value {
    Dict(map["x" := Number(v.x), "y" := Number(v.y)])
  }

  /** The point read from the keys "x" and "y" of a dict; `None` when one is missing or not a number. */
  function LoadVector(item: Value): Option<Vector2> {
    if item.Dict? && "x" in item.fields && "y" in item.fields
       && item.fields["x"].Number? && item.fields["y"].Number?
    then Some(Vector2(item.fields["x"].r, item.fields["y"].r))
    else None
  }

  /** Reading back a saved point gives the point. */
  lemma LoadDumpVector(v: Vector2)
    ensures LoadVector(DumpVector(v)) == Some(v)
  {
  }

  /**
   * Saving a loaded point gives back the dict exactly when that dict held nothing but
   * the two coordinates: other keys are lost on loading.
   */
  lemma DumpLoadVector(item: Value)
    requires LoadVector(item).Some?
    ensures DumpVector(LoadVector(item).value) == item <==> item.fields.Keys == {"x", "y"}
  {
    var d := DumpVector(LoadVector(item).value);
    assert d.fields.Keys == {"x", "y"};
    if item.fields.Keys == {"x", "y"} {
      assert item.fields == d.fields;
    }
  }

  /** The saved form of a list of points, point by point. */
  function DumpList(vs: seq<Vector2>): (data: seq<Value>)
    ensures |data| == |vs|
    ensures forall i :: 0 <= i < |vs| ==> data[i] == DumpVector(vs[i])
  {
    if |vs| == 0 then [] else DumpList(vs[..|vs| - 1]) + [DumpVector(vs[|vs| - 1])]
  }

  /** The points read from a list of dicts; `None` as soon as one of them is not a point. */
  function LoadList(data: seq<Value>): (r: Option<seq<Vector2>>)
    ensures r.Some? <==> forall i :: 0 <= i < |data| ==> LoadVector(data[i]).Some?
    ensures r.Some? ==> |r.value| == |data| && forall i :: 0 <= i < |data| ==> LoadVector(data[i]) == Some(r.value[i])
  {
    if |data| == 0 then Some([])
    else
      var front := LoadList(data[..|data| - 1]);
      var last := LoadVector(data[|data| - 1]);
      if front.Some? && last.Some? then Some(front.value + [last.value]) else None
  }

  /** Reading back a saved list of points gives the list. */
  lemma {:induction false} LoadDumpList(vs: seq<Vector2>)
    ensures LoadList(DumpList(vs)) == Some(vs)
  {
    if |vs| > 0 {
      var front := vs[..|vs| - 1];
      var data := DumpList(vs);
      LoadDumpList(front);
      LoadDumpVector(vs[|vs| - 1]);
      assert data[..|data| - 1] == DumpList(front);
      assert front + [vs[|vs| - 1]] == vs;
    }
  }

  /** Builds the saved form by appending one dict per point. */
  method DumpVectorList(vs: seq<Vector2>) returns (out: seq<Value>)
    ensures out == DumpList(vs)
  {
    out := [];
    for i := 0 to |vs|
      invariant out == DumpList(vs[..i])
    {
      out := out + [DumpVector(vs[i])];
      assert vs[..i + 1][..i] == vs[..i];
    }
    assert vs[..|vs|] == vs;
  }

  /** Builds the list of points by appending the point read from each dict. */
  method LoadVectorList(data: seq<Value>) returns (out: Option<seq<Vector2>>)
    ensures out == LoadList(data)
  {
    var points := [];
    for i := 0 to |data|
      invariant LoadList(data[..i]) == Some(points)
    {
      var v := LoadVector(data[i]);
      assert data[..i + 1][..i] == data[..i];
      if v.None? {
        assert !LoadVector(data[..|data|][i]).Some?;
        assert data[..|data|] == data;
        return None;
      }
      points := points + [v.value];
    }
    assert data[..|data|] == data;
    return Some(points);
  }

  // ---------------------------------------------------------------------------
  // Whole obstacles
  // ---------------------------------------------------------------------------

  /** What an obstacle saves: its points, triangles, outline and drawing settings. */
  datatype ObstacleRecord = ObstacleRecord(
    points: seq<Vector2>,
    triangles: seq<seq<Vector2>>,
    polygon: seq<Vector2>,
    drawMesh: bool,
    drawOptions: Value)

  /** The saved form of a list of triangles: one list of point dicts per triangle. */
  function DumpTriangles(ts: seq<seq<Vector2>>): (data: seq<Value>)
    ensures |data| == |ts|
    ensures forall i :: 0 <= i < |ts| ==> data[i] == List(DumpList(ts[i]))
  {
    if |ts| == 0 then [] else DumpTriangles(ts[..|ts| - 1]) + [List(DumpList(ts[|ts| - 1]))]
  }

  /** The point lists read from a saved triangle list; `None` when one entry is not a list of points. */
  function LoadTriangles(data: seq<Value>): (r: Option<seq<seq<Vector2>>>)
    ensures r.Some? <==> forall i :: 0 <= i < |data| ==> data[i].List? && LoadList(data[i].items).Some?
    ensures r.Some? ==> |r.value| == |data|
    ensures r.Some? ==> forall i :: 0 <= i < |data| ==> LoadList(data[i].items) == Some(r.value[i])
  {
    if |data| == 0 then Some([])
    else
      var front := LoadTriangles(data[..|data| - 1]);
      var last := data[|data| - 1];
      if front.Some? && last.List? && LoadList(last.items).Some?
      then Some(front.value + [LoadList(last.items).value])
      else None
  }

  /** The lists held under `key` of a dict, when there is one. */
  function ListAt(data: Value, key: string): Option<seq<Value>> {
    if data.Dict? && key in data.fields && data.fields[key].List? then Some(data.fields[key].items) else None
  }

  /** The dict an obstacle is saved as. */
  function Save(o: ObstacleRecord): Value {
    Dict(map[
      "draw_mesh" := Bool(o.drawMesh),
      "draw_options" := o.drawOptions,
      "points" := List(DumpList(o.points)),
      "triangles" := List(DumpTriangles(o.triangles)),
      "polygon" := List(DumpList(o.polygon))])
  }

  /**
   * The obstacle read from a dict: the point lists under "points" and "polygon", the
   * triangle lists under "triangles", the flag under "draw_mesh" and whatever value is
   * under "draw_options".  A missing key or a malformed entry gives `None`.
   */
  function Load(data: Value): (r: Option<ObstacleRecord>)
    ensures r.Some? ==> data.Dict? && "draw_options" in data.fields && r.value.drawOptions == data.fields["draw_options"]
    ensures r.Some? ==> ListAt(data, "points").Some? && LoadList(ListAt(data, "points").value) == Some(r.value.points)
    ensures r.Some? ==> ListAt(data, "polygon").Some? && LoadList(ListAt(data, "polygon").value) == Some(r.value.polygon)
  {
    var points := ListAt(data, "points");
    var polygon := ListAt(data, "polygon");
    var triangles := ListAt(data, "triangles");
    if points.None? || polygon.None? || triangles.None? then None
    else if "draw_mesh" !in data.fields || !data.fields["draw_mesh"].Bool? || "draw_options" !in data.fields then None
    else
      var ps := LoadList(points.value);
      var poly := LoadList(polygon.value);
      var ts := LoadTriangles(triangles.value);
      if ps.None? || poly.None? || ts.None? then None
      else Some(ObstacleRecord(ps.value, ts.value, poly.value, data.fields["draw_mesh"].b, data.fields["draw_options"]))
  }

  /** Reading back a saved list of triangles gives the list. */
  lemma {:induction false} LoadDumpTriangles(ts: seq<seq<Vector2>>)
    ensures LoadTriangles(DumpTriangles(ts)) == Some(ts)
  {
    if |ts| > 0 {
      var front := ts[..|ts| - 1];
      var data := DumpTriangles(ts);
      LoadDumpTriangles(front);
      LoadDumpList(ts[|ts| - 1]);
      assert data[..|data| - 1] == DumpTriangles(front);
      assert front + [ts[|ts| - 1]] == ts;
    }
  }

  /** The entries of a saved obstacle, key by key. */
  lemma SavedEntries(o: ObstacleRecord)
    ensures ListAt(Save(o), "points") == Some(DumpList(o.points))
    ensures ListAt(Save(o), "polygon") == Some(DumpList(o.polygon))
    ensures ListAt(Save(o), "triangles") == Some(DumpTriangles(o.triangles))
    ensures "draw_mesh" in Save(o).fields && Save(o).fields["draw_mesh"] == Bool(o.drawMesh)
    ensures "draw_options" in Save(o).fields && Save(o).fields["draw_options"] == o.drawOptions
  {
  }

  /** Loading a saved obstacle restores every saved part. */
  lemma LoadSave(o: ObstacleRecord)
    ensures Load(Save(o)) == Some(o)
  {
    SavedEntries(o);
    LoadDumpList(o.points);
    LoadDumpList(o.polygon);
    LoadDumpTriangles(o.triangles);
  }
}
