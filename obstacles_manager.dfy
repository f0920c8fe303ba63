/**
 * The obstacle manager: the confirmed obstacles, the obstacle being built from the
 * points the user places, and the last point placed, which "undo" removes again.
 */
module ObstacleManagement {
  import opened Wrappers
  import opened Vectors
  import opened Records
  import opened Obstacles

  /** The last point before any point has been placed: far outside any scene. */
  const NoPointYet := Vector2(99999999.0, 99999999.0)

  /** The radius within which "undo" removes points around the last point placed. */
  const UndoRadius := 0.1

  /** The triangles of the obstacles, obstacle after obstacle, each in its stored order. */
  function AllTriangles(obstacles: seq<Obstacle>): seq<seq<Vector2>>
    reads obstacles
  {
    if |obstacles| == 0 then []
    else AllTriangles(obstacles[..|obstacles| - 1]) + obstacles[|obstacles| - 1].triangles
  }

  /** A triangle is in the combined list exactly when some obstacle has it. */
  lemma {:induction false} AllTrianglesMembers(obstacles: seq<Obstacle>, t: seq<Vector2>)
    ensures t in AllTriangles(obstacles) <==> exists i :: 0 <= i < |obstacles| && t in obstacles[i].triangles
  {
    if |obstacles| > 0 {
      var front := obstacles[..|obstacles| - 1];
      AllTrianglesMembers(front, t);
      if exists i :: 0 <= i < |obstacles| && t in obstacles[i].triangles {
        var i :| 0 <= i < |obstacles| && t in obstacles[i].triangles;
        if i < |front| {
          assert t in front[i].triangles;
        }
      }
      if exists i :: 0 <= i < |front| && t in front[i].triangles {
        var i :| 0 <= i < |front| && t in front[i].triangles;
        assert t in obstacles[i].triangles;
      }
    }
  }

  /** One more obstacle appends its triangles to the combined list. */
  lemma {:induction false} AllTrianglesAppend(obstacles: seq<Obstacle>, o: Obstacle)
    ensures AllTriangles(obstacles + [o]) == AllTriangles(obstacles) + o.triangles
  {
    assert (obstacles + [o])[..|obstacles|] == obstacles;
  }

  class ObstaclesManager {
    var obstacles: seq<Obstacle>
    /** The drawing mode confirmed obstacles get. */
    var drawMesh: bool
    /** The drawing mode of the obstacle under construction. */
    var currentDrawMesh: bool
    var lastPointAdded: Vector2
    var current: Obstacle

    /** The obstacle under construction is a new one with no points. */
    ghost predicate CurrentIsEmpty()
      reads this, current
    {
      && current.points == [] && current.triangles == [] && current.polygon == []
      && current.drawMesh == currentDrawMesh && current.drawOptions == DefaultDrawOptions
      && current.supertriangle == None
    }

    /** No obstacle yet, an empty obstacle under construction, and no point placed. */
    constructor (drawMesh: bool, currentDrawMesh: bool)
      ensures obstacles == [] && this.drawMesh == drawMesh && this.currentDrawMesh == currentDrawMesh
      ensures lastPointAdded == NoPointYet
      ensures fresh(current) && CurrentIsEmpty()
    {
      obstacles := [];
      this.drawMesh := drawMesh;
      this.currentDrawMesh := currentDrawMesh;
      lastPointAdded := NoPointYet;
      current := new Obstacle([], currentDrawMesh);
    }

    /** Collects the triangles of every confirmed obstacle, obstacle by obstacle. */
    method GetAllTriangles() returns (out: seq<seq<Vector2>>)
      ensures out == AllTriangles(obstacles)
    {
      out := [];
      for i := 0 to |obstacles|
        invariant out == AllTriangles(obstacles[..i])
      {
        out := out + obstacles[i].triangles;
        assert obstacles[..i + 1][..i] == obstacles[..i];
      }
      assert obstacles[..|obstacles|] == obstacles;
    }

    /** Appends an obstacle to the confirmed ones. */
    method AddObstacle(o: Obstacle)
      modifies this
      ensures obstacles == old(obstacles) + [o]
      ensures current == old(current) && lastPointAdded == old(lastPointAdded)
      ensures drawMesh == old(drawMesh) && currentDrawMesh == old(currentDrawMesh)
    {
      obstacles := obstacles + [o];
    }

    /** Adds a point to the obstacle under construction, rebuilding its mesh, and remembers it. */
    method AddPointToCurrentObstacle(point: Vector2) returns (finished: bool)
      modifies this, current
      ensures current == old(current) && obstacles == old(obstacles) && lastPointAdded == point
      ensures drawMesh == old(drawMesh) && currentDrawMesh == old(currentDrawMesh)
      ensures current.points == old(current.points) + [point]
      ensures current.drawMesh == old(current.drawMesh) && current.drawOptions == old(current.drawOptions)
      ensures current.TrianglesMade()
      ensures |current.points| < 3 ==> finished && current.polygon == old(current.polygon) && current.supertriangle == Some([])
      ensures |current.points| >= 3 ==> current.supertriangle == old(current.supertriangle)
      ensures |current.points| >= 3 ==> (finished ==> current.OutlineMade()) && (!finished ==> current.polygon == old(current.polygon))
      ensures |current.points| >= 3 && current.OutlineIsCycle() ==> finished
    {
      finished := current.AddPoint(point);
      lastPointAdded := point;
    }

    /** Removes the points of the obstacle under construction near `point`, rebuilding its mesh. */
    method RemovePointFromCurrent(point: Vector2, deleteRadius: real) returns (deleted: bool, finished: bool)
      modifies current
      ensures current.points == Sweep(old(current.points), 0, Near(point, deleteRadius))
      ensures deleted <==> exists j :: 0 <= j < |old(current.points)| && Close(point, old(current.points)[j], deleteRadius)
      ensures current.drawMesh == old(current.drawMesh) && current.drawOptions == old(current.drawOptions)
      ensures !deleted ==>
                finished && current.triangles == old(current.triangles) && current.polygon == old(current.polygon)
                && current.supertriangle == old(current.supertriangle)
      ensures deleted ==> current.TrianglesMade()
      ensures deleted && |current.points| < 3 ==> finished && current.polygon == old(current.polygon) && current.supertriangle == Some([])
      ensures deleted && |current.points| >= 3 ==>
                current.supertriangle == old(current.supertriangle)
                && (finished ==> current.OutlineMade()) && (!finished ==> current.polygon == old(current.polygon))
      ensures deleted && |current.points| >= 3 && current.OutlineIsCycle() ==> finished
    {
      deleted, finished := current.RemovePointIfClose(point, deleteRadius, true);
    }

    /** Undo: removes the points near the last point placed. */
    method RemoveLatest() returns (deleted: bool, finished: bool)
      modifies current
      ensures current.points == Sweep(old(current.points), 0, Near(lastPointAdded, UndoRadius))
      ensures deleted <==> exists j :: 0 <= j < |old(current.points)| && Close(lastPointAdded, old(current.points)[j], UndoRadius)
      ensures current.drawMesh == old(current.drawMesh) && current.drawOptions == old(current.drawOptions)
      ensures !deleted ==>
                finished && current.triangles == old(current.triangles) && current.polygon == old(current.polygon)
                && current.supertriangle == old(current.supertriangle)
      ensures deleted ==> current.TrianglesMade()
      ensures deleted && |current.points| < 3 ==> finished && current.polygon == old(current.polygon) && current.supertriangle == Some([])
      ensures deleted && |current.points| >= 3 ==>
                current.supertriangle == old(current.supertriangle)
                && (finished ==> current.OutlineMade()) && (!finished ==> current.polygon == old(current.polygon))
      ensures deleted && |current.points| >= 3 && current.OutlineIsCycle() ==> finished
    {
      deleted, finished := RemovePointFromCurrent(lastPointAdded, UndoRadius);
    }

    /**
     * Confirms the obstacle under construction: it takes the confirmed drawing mode and
     * joins the confirmed obstacles, and a new empty one takes its place.
     */
    method ConfirmCurrent()
      modifies this, current
      ensures obstacles == old(obstacles) + [old(current)]
      ensures old(current).drawMesh == drawMesh
      ensures old(current).points == old(current.points) && old(current).triangles == old(current.triangles)
      ensures old(current).polygon == old(current.polygon)
      ensures old(current).drawOptions == old(current.drawOptions) && old(current).supertriangle == old(current.supertriangle)
      ensures fresh(current) && CurrentIsEmpty()
      ensures lastPointAdded == old(lastPointAdded) && drawMesh == old(drawMesh) && currentDrawMesh == old(currentDrawMesh)
    {
      current.drawMesh := drawMesh;
      obstacles := obstacles + [current];
      ResetCurrent();
    }

    /** Replaces the obstacle under construction by a new empty one. */
    method ResetCurrent()
      modifies this
      ensures obstacles == old(obstacles) && lastPointAdded == old(lastPointAdded)
      ensures drawMesh == old(drawMesh) && currentDrawMesh == old(currentDrawMesh)
      ensures fresh(current) && CurrentIsEmpty()
    {
      current := new Obstacle([], currentDrawMesh);
    }

    /** Forgets every obstacle, the confirmed ones and the one under construction. */
    method Clear()
      modifies this
      ensures obstacles == [] && lastPointAdded == old(lastPointAdded)
      ensures drawMesh == old(drawMesh) && currentDrawMesh == old(currentDrawMesh)
      ensures fresh(current) && CurrentIsEmpty()
    {
      obstacles := [];
      ResetCurrent();
    }
  }
}
