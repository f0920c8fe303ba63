# RoboticArm obstacle geometry and arm model, in Dafny

The repository is a planar two-piece robotic arm that the user surrounds with polygonal
obstacles. This project models the parts of it that compute:

- **Mesh utilities** (`mesh_circles.dfy`, `triangles.dfy`, `mesh_outline.dfy`):
  - the circumcircle of up to three points, and the inclusive point-in-circumcircle test;
  - Welzl's recursive enclosing circle, and the equilateral supertriangle around a circle;
  - triangle edges, and the lookup of an edge in either orientation;
  - the outline polygon of a mesh. The edges met once are classified first, then walked end to end.
- **Obstacle triangulation** (`triangulation.dfy`, `obstacle.dfy`). An `Obstacle` object is
  triangulated incrementally in the Bowyer–Watson way, starting from a fixed supertriangle. Each
  point does four things:
  - it finds the bad triangles;
  - it computes the hole's boundary;
  - it removes the bad triangles;
  - it fans the hole from the new point.

  At the end the triangles touching the supertriangle are dropped and the outline is traced. The
  obstacle also has point insertion, point removal by radius (with the source's skip-after-removal
  behaviour), and a dictionary save format with its loader (`records.dfy`).
- **Obstacle manager** (`obstacles_manager.dfy`): the confirmed obstacles, the obstacle under
  construction, and the "undo" of the last point placed.
- **Arm geometry** (`arm_piece.dfy`, `robotic_arm.dfy`):
  - a piece's frame map, its corners, its two triangles and its attach point;
  - the arm constructor that chains two pieces.
- **Drawing conversions** (`scene.dfy`):
  - the global ↔ window frame maps and the scale map;
  - the segment list a polygon is drawn with;
  - the colour list given to the drawing library.

Points are `Vectors.Vector2` over reals, with componentwise arithmetic and value equality. An
angle is represented by its cosine and sine (`Vectors.Rotation`), so a rotation is exact and
needs no trigonometry. Angle addition is `Rotation.Plus`. Circles keep the squared radius, so no
square root is taken. Python sets become Dafny `set`s, and set iteration is an arbitrary choice
(`:|`).

In these places the source departs from the evident geometry, and the model follows the source:
- `make_obstacle` seeds with the hard-coded triangle at `RoboticArm/Obstacle.py:50`, not with
  `find_supertriangle`.
- The corner A of an arm piece is `(-px, py)`. The rectangle is therefore a parallelogram only
  when `size.y == 2 * py`; see `ArmPieces.ArmPointsParallelogram`.
- The second pivot of the arm does not subtract the first pivot offset. It is the first piece's
  attach point only when that offset is zero; see `RoboticArms.SecondPivotIsAttachPoint`.

## Model

| member | source | states |
|---|---|---|
| MeshCircles.Circumcircle3 | RoboticArm/utils/mesh_generation.py:20-51 | the three-point circle is degenerate exactly when the points are collinear; otherwise all three points lie on it (squared distance to the centre `S/a` equals `b/a + S·S/a²`) |
| MeshCircles.VerticesOnCircle | RoboticArm/utils/mesh_generation.py:23-49 | with a non-zero determinant `a`, each of the three points is at the circle's squared radius from its centre |
| MeshCircles.DeterminantIsCross | RoboticArm/utils/mesh_generation.py:36-40 | the determinant `a` is the cross product of two sides, so it is zero exactly for collinear points |
| MeshCircles.MakeCircumcircle | RoboticArm/utils/mesh_generation.py:19-61 | fails exactly for more than three points, with the count; 0 points give centre (0,0) and radius 0; 1 point gives that point and radius 0; 2 points give their midpoint with both on the circle; on success every given point is on the circle |
| MeshCircles.PointInsideCircumcircle | RoboticArm/utils/mesh_generation.py:66-68 | whether the point is enclosed, boundary included, by the circumcircle of the triangle's three vertices; its meaning is stated by the next row |
| MeshCircles.PointInsideCircumcircleInclusive | RoboticArm/utils/mesh_generation.py:66-68 | the test holds iff the squared distance to the centre is at most the squared radius, so points on the circle count; a collinear triple contains nothing |
| MeshCircles.Welzl | RoboticArm/utils/mesh_generation.py:6-16 | terminates as `P` shrinks; it needs at most three boundary points, which the recursion keeps, so the circle maker's error is never reached; keeps every boundary point on the circle, and encloses the first point of `P` while fewer than three boundary points are given |
| MeshCircles.WelzlKeepsCandidate | RoboticArm/utils/mesh_generation.py:10-16 | a first point inside the candidate circle leaves it unchanged; otherwise that point joins the boundary set |
| MeshCircles.WelzlThreeBoundaryPoints | RoboticArm/utils/mesh_generation.py:7-8 | with three boundary points the result is their circumcircle |
| MeshCircles.FindCircleContainingPoints | RoboticArm/utils/mesh_generation.py:63-64 | the circle of all points with no boundary point encloses the first point |
| MeshCircles.ThirdTurnTwice | RoboticArm/utils/mesh_generation.py:125-126 | the turn by 2π/3 is a rotation, and turning by it twice is the turn by 4π/3 |
| MeshCircles.EquilateralTriangleEnclosingCircle | RoboticArm/utils/mesh_generation.py:120-127 | three vertices each at distance `2·radius` from the centre, pairwise equidistant, each side touching the circle at its midpoint, so the triangle encloses the circle |
| MeshCircles.FindSupertriangle | RoboticArm/utils/mesh_generation.py:129-131 | defined exactly when the enclosing circle is proper; its three vertices are at distance `2·(radius + margin)` from that circle's centre and its sides touch the circle grown by `margin` |
| Triangles.TriangleEdges | RoboticArm/utils/mesh_generation.py:105-111 | three edges, the i-th starting at the i-th vertex and ending where the next one starts: (A,B), (B,C), (C,A) |
| Triangles.HasEdgeJoins | RoboticArm/utils/mesh_generation.py:105-118 | a triangle has an edge in either orientation iff the edge joins one of its consecutive vertex pairs |
| Triangles.EdgeOccursInReversed | RoboticArm/utils/mesh_generation.py:116 | the lookup gives the same answer for an edge and its reverse |
| Triangles.EdgeInTriangles | RoboticArm/utils/mesh_generation.py:113-118 | the search loop returns true iff some triangle has the edge or its reverse |
| MeshOutline.ClassifyEdges | RoboticArm/utils/mesh_generation.py:71-83 | after the pass, the edges appearing once are exactly the edges whose segment occurs once among all triangle edges |
| MeshOutline.OccurrencesCountTriangles | RoboticArm/utils/mesh_generation.py:73-74 | for triangles with distinct vertices, the times a segment occurs among the edges is the number of triangles having it |
| MeshOutline.BoundaryEdgeOfOneTriangle | RoboticArm/utils/mesh_generation.py:71-83 | an edge is an outline edge iff it is listed and exactly one triangle has it |
| MeshOutline.WalkBoundary | RoboticArm/utils/mesh_generation.py:84-102 | no edges give `[]`; a finished walk has one vertex per edge and consecutive vertices joined by an edge; when the edges form one cycle the walk finishes and traces it, the closing pair (last, first) being an edge too |
| MeshOutline.MakePolygonFromTriangles | RoboticArm/utils/mesh_generation.py:70-102 | the same as the walk, stated for the outline edges of the triangles |
| MeshOutline.Renumber | RoboticArm/utils/mesh_generation.py:85-86 | a cycle can be renumbered so that it starts with whichever edge the walk pops first, in its orientation |
| MeshOutline.CycleTraced | RoboticArm/utils/mesh_generation.py:88-100 | a vertex sequence of a cycle of the edges traces those edges: distinct vertices, consecutive ones linked, every edge used |
| Triangulation.FindBadTriangles | RoboticArm/Obstacle.py:56-59 | the bad triangles are exactly those whose circumcircle, inclusively, holds the point |
| Triangulation.FindOpenEdges | RoboticArm/Obstacle.py:64-66 | the edges of one bad triangle kept for the hole are those absent, in both orientations, from the other bad triangles |
| Triangulation.FindHoleBoundary | RoboticArm/Obstacle.py:62-66 | the hole boundary is the union of every bad triangle's open edges |
| Triangulation.HoleEdgeOwner | RoboticArm/Obstacle.py:62-66 | each hole edge is an edge of exactly one bad triangle |
| Triangulation.RemoveTriangles | RoboticArm/Obstacle.py:69-70 | removing the bad triangles, all of which are present, leaves the old set minus them |
| Triangulation.AddFan | RoboticArm/Obstacle.py:73-75 | the new triangles `(e[0], point, e[1])` for every hole edge are added |
| Triangulation.InsertPointStep | RoboticArm/Obstacle.py:55-75 | one step turns the triangulation into `(T − bad) ∪ fan(hole, point)` |
| Triangulation.InsertPoint | RoboticArm/Obstacle.py:55-75 | the reference definition of one insertion step: the triangles whose circumcircle does not hold the point, plus one triangle `(e[0], point, e[1])` per hole edge; its properties are the `InsertPoint…` lemmas below |
| Triangulation.Triangulate | RoboticArm/Obstacle.py:50-75 | the reference definition of the whole loop: the insertion step folded over the points in order, starting from the supertriangle alone |
| Triangulation.BowyerWatson | RoboticArm/Obstacle.py:50-75 | the loop from the supertriangle gives the fold of the insertion step over the points, in order |
| Triangulation.TriangulateVertices | RoboticArm/Obstacle.py:50-75 | every vertex of the triangulation is an input point or a supertriangle vertex |
| Triangulation.InsertPointClearsCircumcircles | RoboticArm/Obstacle.py:56-75 | after a step, a triangle whose circumcircle holds the point has the point as its middle vertex, and every triangle that was not bad survives |
| Triangulation.InsertPointOutside | RoboticArm/Obstacle.py:56-75 | a point in no circumcircle leaves the triangulation unchanged |
| Triangulation.FirstInsertion | RoboticArm/Obstacle.py:50-75 | a point inside the supertriangle's circumcircle splits it into its three fan triangles |
| Triangulation.SuperTriangleNotCollinear | RoboticArm/Obstacle.py:50 | the hard-coded supertriangle is a proper triangle |
| Triangulation.KeepInnerTriangles | RoboticArm/Obstacle.py:78-84 | the kept list holds each triangle with no supertriangle vertex exactly once, and nothing else |
| Triangulation.KeptVertices | RoboticArm/Obstacle.py:78-84 | every vertex of a kept triangle is an input point |
| Obstacles.VertexLists | RoboticArm/Obstacle.py:84 | the stored triangles are vertex triples, in order |
| Obstacles.TrianglesOfVertexLists | RoboticArm/Obstacle.py:84-84 | reading the stored triples back gives the triangles again |
| Obstacles.Obstacle.constructor | RoboticArm/Obstacle.py:8-34 | a new obstacle with `make=False` keeps the points, has no triangles and no polygon, and has the default drawing options |
| Obstacles.Obstacle.Create | RoboticArm/Obstacle.py:8-34 | with `make` the points are triangulated as `MakeObstacle` says; without it, as the constructor |
| Obstacles.MeshOf | RoboticArm/Obstacle.py:47-87 | for any point list: the triangle triples enumerate the Bowyer–Watson triangles that avoid the supertriangle's corners; an outline it returns is the walk of their outline edges, and it returns one whenever those edges form one cycle |
| Obstacles.Obstacle.MakeObstacle | RoboticArm/Obstacle.py:42-87 | fewer than 3 points: no triangles, empty supertriangle, polygon left as it was; otherwise the stored triangles enumerate the kept Bowyer–Watson triangles and a finished outline is the walk of their outline edges, finishing whenever those edges form one cycle |
| Obstacles.Obstacle.AddPoint | RoboticArm/Obstacle.py:37-39 | the point is appended at the end and the obstacle is retriangulated |
| Obstacles.Obstacle.RemovePointIfClose | RoboticArm/Obstacle.py:92-101 | the points become the source's skipping sweep of the old points; the result is true iff some point was within the radius; retriangulation happens iff something was removed and remaking is asked for |
| Obstacles.Sweep | RoboticArm/Obstacle.py:94-97 | the reference definition of the removal loop: each examined point within the radius has its first occurrence removed, and the index moves on by one either way |
| Obstacles.SweepKeepsFar | RoboticArm/Obstacle.py:94-97 | the sweep removes only points within the radius, keeps every point outside it in order, and adds nothing |
| Obstacles.SweepRemovesIff | RoboticArm/Obstacle.py:94-97 | the sweep shortens the list iff some point from the start index on is within the radius |
| Obstacles.SweepSkipsNeighbour | RoboticArm/Obstacle.py:94-96 | the element right after a removed one is skipped: two equal close points leave one |
| Obstacles.Obstacle.SaveToDict | RoboticArm/Obstacle.py:122-132 | the saved dictionary is the save format of the obstacle's fields |
| Obstacles.Obstacle.LoadFromDict | RoboticArm/Obstacle.py:135-150 | loading succeeds iff the dictionary is in the save format, and restores exactly the recorded fields without triangulating |
| Records.DumpVector | RoboticArm/Obstacle.py:116-119 | a point as the dictionary with keys x and y holding its coordinates |
| Records.LoadVector | RoboticArm/Obstacle.py:109 | the point read from the x and y entries of a dictionary, `None` when the item is not a dictionary, a key is missing or a coordinate is not a number |
| Records.LoadDumpVector | RoboticArm/Obstacle.py:105-120 | a dumped point loads back as itself |
| Records.DumpLoadVector | RoboticArm/Obstacle.py:105-120 | a loaded item dumps back to itself iff its keys are exactly x and y |
| Records.LoadList | RoboticArm/Obstacle.py:105-110 | a list loads iff every item loads, pointwise |
| Records.LoadDumpList | RoboticArm/Obstacle.py:105-120 | a dumped point list loads back as itself |
| Records.DumpVectorList | RoboticArm/Obstacle.py:112-120 | the loop dumps each point to its dictionary, in order |
| Records.LoadVectorList | RoboticArm/Obstacle.py:105-110 | the loop loads the list, failing iff one item does not load |
| Records.LoadTriangles | RoboticArm/Obstacle.py:141-143 | the triangles load iff every entry is a list of loadable points, pointwise |
| Records.LoadDumpTriangles | RoboticArm/Obstacle.py:128-143 | dumped triangles load back as themselves |
| Records.Load | RoboticArm/Obstacle.py:135-150 | a loaded record takes its drawing options, points and polygon from the dictionary's entries |
| Records.Save | RoboticArm/Obstacle.py:122-132 | the saved dictionary of an obstacle: its drawing mode and options as they are, and its points, triangles and polygon dumped |
| Records.SavedEntries | RoboticArm/Obstacle.py:122-132 | the saved dictionary holds the dumped points, triangles and polygon, the drawing mode and the drawing options |
| Records.LoadSave | RoboticArm/Obstacle.py:122-150 | loading a saved obstacle restores points, triangles, polygon, drawing mode and drawing options |
| ObstacleManagement.ObstaclesManager.constructor | RoboticArm/ObstaclesManager.py:11-17 | no obstacles, an empty current obstacle with the current drawing mode, and the last point at (99999999, 99999999) |
| ObstacleManagement.ObstaclesManager.GetAllTriangles | RoboticArm/ObstaclesManager.py:19-23 | the concatenation of every obstacle's triangles, in obstacle order |
| ObstacleManagement.AllTrianglesMembers | RoboticArm/ObstaclesManager.py:19-23 | a triangle is in the combined list iff some obstacle has it |
| ObstacleManagement.AllTrianglesAppend | RoboticArm/ObstaclesManager.py:19-26 | adding an obstacle appends its triangles to the combined list |
| ObstacleManagement.ObstaclesManager.AddObstacle | RoboticArm/ObstaclesManager.py:25-26 | appends exactly the obstacle; nothing else changes |
| ObstacleManagement.ObstaclesManager.AddPointToCurrentObstacle | RoboticArm/ObstaclesManager.py:28-30 | the current obstacle gets the point at its end and is retriangulated with every outcome `AddPoint` promises (fewer than 3 points: finished, polygon kept, empty supertriangle; otherwise a finished outline, the old polygon when not finished, and finishing whenever the outline is a cycle); its drawing mode and options are unchanged; the last point becomes that point |
| ObstacleManagement.ObstaclesManager.RemovePointFromCurrent | RoboticArm/ObstaclesManager.py:35-36 | the current obstacle's removal with retriangulation and every outcome `RemovePointIfClose` promises: the skipping sweep, the result true iff a point was close, nothing else changed when nothing was removed, and otherwise the retriangulation's outcomes; its drawing mode and options are unchanged |
| ObstacleManagement.ObstaclesManager.RemoveLatest | RoboticArm/ObstaclesManager.py:32-33 | that same removal, with all its outcomes, around the last point placed and with radius 0.1 |
| ObstacleManagement.ObstaclesManager.ConfirmCurrent | RoboticArm/ObstaclesManager.py:38-41 | the current obstacle takes the manager's drawing mode and is appended, its points, triangles, polygon, drawing options and supertriangle unchanged; a new empty obstacle replaces it |
| ObstacleManagement.ObstaclesManager.ResetCurrent | RoboticArm/ObstaclesManager.py:43-44 | a new empty current obstacle; the confirmed ones are unchanged |
| ObstacleManagement.ObstaclesManager.Clear | RoboticArm/ObstaclesManager.py:68-70 | no confirmed obstacles and a new empty current one |
| ArmPieces.ArmPiece.constructor | RoboticArm/ArmPiece.py:5-10 | stores the pivot position, angle, size and both offsets |
| ArmPieces.ArmPiece.Update | RoboticArm/ArmPiece.py:34-36 | sets only the pivot position and the angle |
| ArmPieces.ArmPiece.UpdateTheta | RoboticArm/ArmPiece.py:42-43 | sets only the angle |
| ArmPieces.ArmPiece.ArmFrameToGlobal | RoboticArm/ArmPiece.py:45-46 | the image keeps its distance to the pivot; with no turn the map is a translation by the pivot position |
| ArmPieces.ArmFrameRoundTrip | RoboticArm/ArmPiece.py:45-46 | the frame map is inverted by turning back and moving back, in both orders |
| ArmPieces.ArmPiece.AttachPosition | RoboticArm/ArmPiece.py:38-40 | equal offsets put the attach point at the pivot; the attach point is as far from the pivot as the two offsets are apart |
| ArmPieces.ArmPiece.GetArmPoints | RoboticArm/ArmPiece.py:48-54 | four points, the images of the local corners A = (−px, py), B = size − pivot, C = (sx, 0) − pivot, D = −pivot, in order |
| ArmPieces.ArmPointsRigid | RoboticArm/ArmPiece.py:48-54 | the corners are as far apart as their local positions |
| ArmPieces.ArmSides | RoboticArm/ArmPiece.py:51-53 | C and D are `size.x` apart and B and C are `size.y` apart |
| ArmPieces.ArmPointsParallelogram | RoboticArm/ArmPiece.py:49-53 | the corners form a parallelogram iff `size.y == 2·py` |
| ArmPieces.ArmPiece.GetArmTriangles | RoboticArm/ArmPiece.py:56-58 | exactly the two triangles ABC and ACD, which share the diagonal AC and together use all four corners |
| RoboticArms.SecondPivotIsAttachPoint | RoboticArm/RoboticArm.py:12 | the second pivot is the first piece's attach point iff the first pivot offset is zero |
| RoboticArms.RoboticArm.constructor | RoboticArm/RoboticArm.py:10-12 | piece 1 at the base with `theta1`; piece 2 at `position + rotate(attach1, theta1)` with angle `theta1 + theta2`, i.e. piece-2 points are turned by `theta1` then `theta2`; each piece keeps its own size and offsets |
| Scenes.GlobalFrameToDrawFrame | RoboticArm/main.py:31-39 | a drawn point lies right of the window centre by `x·u` and above it by `y·u`, so the y axis is flipped |
| Scenes.GlobalScaleToDrawScale | RoboticArm/main.py:41-43 | a length in global units times the unit, the pixel length; `DrawnDistances` shows it agrees with the frame map |
| Scenes.DrawFrameToGlobalFrame | RoboticArm/main.py:45-52 | the inverse map fails exactly when the unit is zero |
| Scenes.OriginAtCentre | RoboticArm/main.py:31-39 | the global origin is drawn at the window's centre |
| Scenes.DrawFrameRoundTrip | RoboticArm/main.py:31-52 | for a non-zero unit the two frame maps undo each other, in both orders |
| Scenes.AxesDirections | RoboticArm/main.py:35-39 | with a positive unit the x axis keeps its direction and the y axis is flipped |
| Scenes.DrawnDistances | RoboticArm/main.py:31-43 | two points at distance r are drawn at the distance the scale map gives for r |
| Scenes.PolygonSegments | RoboticArm/main.py:65-72 | fewer than 2 points give no segment; otherwise n segments, (p[i], p[i+1]) for i < n−1 and then (p[0], p[n−1]) |
| Scenes.DrawPolygon | RoboticArm/main.py:65-72 | the loop emits exactly those segments, in order |
| Scenes.TwoPointSegments | RoboticArm/main.py:65-72 | two points give the same segment twice |
| Scenes.OutlineSegments | RoboticArm/main.py:65-72 | drawing a traced outline draws every outline edge and nothing else, in some orientation |
| Scenes.GetRgba | RoboticArm/main.py:54-56 | three components give four numbers, each colour times 255 being the component and alpha 1; any other length gives the empty list |
| Vectors.RotateOpposite | RoboticArm/ArmPiece.py:46 | a unit rotation is undone by its opposite |
| Vectors.RotatePlus | RoboticArm/RoboticArm.py:12 | turning by one angle and then another is turning by their sum |
| Vectors.RotateDistance | RoboticArm/ArmPiece.py:46 | a unit rotation keeps distances |

## Left out

- Drawing with imgui, pygame and OpenGL is not modelled, and neither is the scene's frame loop, keyboard and mouse handling, menus, file dialogs or `lib/BaseScene.py`. Every `draw` method and `get_color_u32_rgba` are left out as well. They are I/O.
- `ObstaclesManager.dump_as_json` and `load_from_json` are left out because they are file I/O. The dictionary format they write and read is modelled, as `Records.Save` and `Records.Load`.
- `arm.computeCSPace` and `arm.update_angles`, called from main.py, are not defined in the arm class. They are not part of this model.
- `lib.Math.Vector` is not part of this model. Vectors are componentwise over reals, with value equality.
- `rotate_by_angle`: angles are cos/sin pairs, so an angle's trigonometry is not modelled. `Vectors.Plus` is the angle-addition formula.
- Floating-point rounding is not modelled. Inf and NaN appear for a collinear triple, where the determinant is 0, and are modelled as the `Degenerate` circle, which contains nothing. This differs from the source when `b/a` is `+inf`: the radius is then `inf`, and `abs(p - c) <= radius` holds for every point.
- Square roots are not taken. Radii are squared, and `abs(point − p) <= r` is written `0 <= r && |point − p|² <= r²`.
- `MeshCircles.FindSupertriangle`: the radius of the enclosing circle and the sine of 2π/3 are parameters, constrained by their squares.
- `Triangulation.Triangulate`: the Delaunay property (no input point strictly inside the circumcircle of a triangle it is not a vertex of) is not proved. It needs the geometry of the star-shaped cavity. Only the per-step fact is proved: after an insertion, a triangle whose circumcircle holds the new point has that point as a vertex (`InsertPointClearsCircumcircles`).
- `MeshCircles.Welzl`: the claim that the circle encloses every point is weaker in this model. It proves that the boundary points lie on the circle and that the first point is enclosed. The full claim needs the theory of minimal circles.
- `MeshCircles.FindCircleContainingPoints`: states only that the first point is enclosed, for the same reason.
- `MeshOutline.WalkBoundary`: when no edge continues the walk, the source loops forever. The model returns `None` there, and `MakeObstacle` reports it as `finished == false` with the polygon left as it was.
- Python's set iteration order and `set.pop()`: modelled as an arbitrary choice, so the contracts hold for every order.
- `Obstacles.Obstacle.MakeObstacle`: the stored triangle list is specified up to order, as an enumeration of the kept set, because the source's order is that of set iteration.
- The `colors` module is not modelled. BLACK is taken as (0, 0, 0), and the arm piece's drawing options are left out.
- `self.points = points` keeps the caller's list, which the source then mutates through the alias. The model copies the sequence, so this aliasing is not modelled.
- `Records.Load`: a `draw_mesh` entry that is not a boolean, or a coordinate that is not a number, makes loading fail. Python would store whatever value is there.
- `find_supertriangle` is modelled, but `make_obstacle` does not use it, and neither does the model.
- Make (`Obstacle(points, draw_mesh, make=True)`) runs the triangulation before the drawing options are assigned. `Obstacles.Obstacle.Create` sets both without modelling that order, which has no visible effect.
