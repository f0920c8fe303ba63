/**
 * One rigid piece of the arm: a rectangle of the given size, held at its pivot point and
 * turned by the angle `theta` around it.  Points of the piece are given in its own frame,
 * with the pivot offset as reference; `attach` is where the next piece is fixed.
 */
module ArmPieces {
  import opened Vectors

  class ArmPiece {
    /** Where the pivot is, in the global frame. */
    var pivotPosition: Vector2
    /** The piece's angle, as its cosine and sine. */
    var theta: Rotation
    var size: Vector2
    /** The pivot, in the piece's frame. */
    var pivotOffset: Vector2
    /** The attach point, in the piece's frame. */
    var attachOffset: Vector2

    constructor (pivotPosition: Vector2, theta: Rotation, size: Vector2, pivot: Vector2, attach: Vector2)
      ensures this.pivotPosition == pivotPosition && this.theta == theta && this.size == size
      ensures pivotOffset == pivot && attachOffset == attach
    {
      this.pivotPosition := pivotPosition;
      this.theta := theta;
      this.size := size;
      pivotOffset := pivot;
      attachOffset := attach;
    }

    /** Moves the pivot and turns the piece; its shape stays. */
    method Update(pivotPosition: Vector2, theta: Rotation)
      modifies this
      ensures this.pivotPosition == pivotPosition && this.theta == theta
      ensures size == old(size) && pivotOffset == old(pivotOffset) && attachOffset == old(attachOffset)
    {
      this.pivotPosition := pivotPosition;
      this.theta := theta;
    }

    /** Turns the piece around its pivot, which stays where it is. */
    method UpdateTheta(theta: Rotation)
      modifies this
      ensures this.theta == theta && pivotPosition == old(pivotPosition)
      ensures size == old(size) && pivotOffset == old(pivotOffset) && attachOffset == old(attachOffset)
    {
      this.theta := theta;
    }

    /**
     * The global position of a point given relative to the pivot in the piece's frame:
     * turned by `theta` and moved to the pivot position.  It keeps its distance to the
     * pivot, and with no turn it is only moved.
     */
    function ArmFrameToGlobal(q: Vector2): (g: Vector2)
      reads this
      ensures IsUnit(theta) ==> DistSqr(g, pivotPosition) == MagSqr(q)
      ensures theta == NoTurn ==> g == Add(pivotPosition, q)
    {
      var w := Rotate(q, theta);
      assert Sub(Add(pivotPosition, w), pivotPosition) == w;
      Add(pivotPosition, w)
    }

    /** The inverse map, from the global frame back to the piece's frame. */
    function GlobalToArmFrame(g: Vector2): Vector2
      reads this
    {
      Rotate(Sub(g, pivotPosition), Opposite(theta))
    }

    /** The attach point in the global frame: its offset from the pivot, turned and moved. */
    function AttachPosition(): (g: Vector2)
      reads this
      ensures attachOffset == pivotOffset ==> g == pivotPosition
      ensures IsUnit(theta) ==> DistSqr(g, pivotPosition) == DistSqr(attachOffset, pivotOffset)
    {
      ArmFrameToGlobal(Sub(attachOffset, pivotOffset))
    }

    /**
     * The four corners, relative to the pivot: A = (-px, py), B = size - pivot,
     * C = (sx, 0) - pivot, D = -pivot.
     */
    function LocalCorners(): (cs: seq<Vector2>)
      reads this
      ensures |cs| == 4
    {
      [Vector2(-pivotOffset.x, pivotOffset.y),
       Sub(size, pivotOffset),
       Sub(Vector2(size.x, 0.0), pivotOffset),
       Neg(pivotOffset)]
    }

    /** The corners A, B, C, D in the global frame. */
    function GetArmPoints(): (ps: seq<Vector2>)
      reads this
      ensures |ps| == 4
      ensures forall i :: 0 <= i < 4 ==> ps[i] == ArmFrameToGlobal(LocalCorners()[i])
    {
      var cs := LocalCorners();
      [ArmFrameToGlobal(cs[0]), ArmFrameToGlobal(cs[1]), ArmFrameToGlobal(cs[2]), ArmFrameToGlobal(cs[3])]
    }

    /**
     * The piece split along the diagonal AC into the triangles ABC and ACD: both start
     * at A, the second goes on from where the first ends, and together they use all
     * four corners.
     */
    function GetArmTriangles(): (ts: seq<seq<Vector2>>)
      reads this
      ensures |ts| == 2 && |ts[0]| == 3 && |ts[1]| == 3
      ensures ts[0][0] == ts[1][0] && ts[0][2] == ts[1][1]
      ensures ts[0][0] == GetArmPoints()[0] && ts[0][1] == GetArmPoints()[1] && ts[0][2] == GetArmPoints()[2]
      ensures ts[1][2] == GetArmPoints()[3]
      ensures forall i :: 0 <= i < 4 ==> GetArmPoints()[i] in ts[0] || GetArmPoints()[i] in ts[1]
      ensures forall k :: 0 <= k < 3 ==> ts[0][k] in GetArmPoints() && ts[1][k] in GetArmPoints()
    {
      var ps := GetArmPoints();
      [[ps[0], ps[1], ps[2]], [ps[0], ps[2], ps[3]]]
    }
  }

  /** Going to the global frame and back gives the point again, and the other way round. */
  lemma ArmFrameRoundTrip(a: ArmPiece, q: Vector2, g: Vector2)
    requires IsUnit(a.theta)
    ensures a.GlobalToArmFrame(a.ArmFrameToGlobal(q)) == q
    ensures a.ArmFrameToGlobal(a.GlobalToArmFrame(g)) == g
  {
    var w := Rotate(q, a.theta);
    assert Sub(Add(a.pivotPosition, w), a.pivotPosition) == w;
    RotateOpposite(q, a.theta);
    var o := Opposite(a.theta);
    assert Opposite(o) == a.theta;
    RotateOpposite(Sub(g, a.pivotPosition), o);
  }

  /** The piece moves rigidly: the corners are as far apart as in the piece's own frame. */
  lemma ArmPointsRigid(a: ArmPiece, i: nat, j: nat)
    requires IsUnit(a.theta) && i < 4 && j < 4
    ensures DistSqr(a.GetArmPoints()[i], a.GetArmPoints()[j]) == DistSqr(a.LocalCorners()[i], a.LocalCorners()[j])
  {
    var cs := a.LocalCorners();
    RotateDistance(cs[i], cs[j], a.theta);
    var u, v := Rotate(cs[i], a.theta), Rotate(cs[j], a.theta);
    assert Sub(Add(a.pivotPosition, u), Add(a.pivotPosition, v)) == Sub(u, v);
  }

  /**
   * The sides BC and CD have the piece's height and length: the corners C and D are
   * `size.x` apart, B and C `size.y` apart.
   */
  lemma ArmSides(a: ArmPiece)
    requires IsUnit(a.theta)
    ensures var ps := a.GetArmPoints();
            DistSqr(ps[2], ps[3]) == a.size.x * a.size.x && DistSqr(ps[1], ps[2]) == a.size.y * a.size.y
  {
    var cs := a.LocalCorners();
    ArmPointsRigid(a, 2, 3);
    ArmPointsRigid(a, 1, 2);
    assert Sub(cs[2], cs[3]) == Vector2(a.size.x, 0.0);
    assert Sub(cs[1], cs[2]) == Vector2(0.0, a.size.y);
  }

  /** The difference of two global positions is the turned difference of the local ones. */
  lemma GlobalDifference(a: ArmPiece, u: Vector2, v: Vector2)
    ensures Sub(a.ArmFrameToGlobal(u), a.ArmFrameToGlobal(v)) == Rotate(Sub(u, v), a.theta)
  {
    var ru, rv := Rotate(u, a.theta), Rotate(v, a.theta);
    assert Sub(Add(a.pivotPosition, ru), Add(a.pivotPosition, rv)) == Sub(ru, rv);
    RotateLinear(u, v, a.theta);
  }

  /**
   * The corners form a parallelogram (A - B == D - C) exactly when the pivot sits at
   * half the piece's height, because A is taken at height `py` above the pivot rather
   * than at `size.y - py`.
   */
  lemma ArmPointsParallelogram(a: ArmPiece)
    requires IsUnit(a.theta)
    ensures var ps := a.GetArmPoints();
            Sub(ps[0], ps[1]) == Sub(ps[3], ps[2]) <==> a.size.y == 2.0 * a.pivotOffset.y
  {
    var cs := a.LocalCorners();
    GlobalDifference(a, cs[0], cs[1]);
    GlobalDifference(a, cs[3], cs[2]);
    RotateInjective(Sub(cs[0], cs[1]), Sub(cs[3], cs[2]), a.theta);
    assert Sub(cs[0], cs[1]) == Vector2(-a.size.x, 2.0 * a.pivotOffset.y - a.size.y);
    assert Sub(cs[3], cs[2]) == Vector2(-a.size.x, 0.0);
  }
}
