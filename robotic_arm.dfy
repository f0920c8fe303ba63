/**
 * The two-piece arm: the first piece turns around the arm's base position, and the
 * second is pivoted on the point the first one carries its attach offset to, turned by
 * the sum of the two joint angles.
 */
module RoboticArms {
  import opened Vectors
  import opened ArmPieces

  /**
   * Where the second piece is pivoted: the base moved by the first piece's attach offset
   * turned by the first angle.  The first piece's pivot offset is not taken off.
   */
  function SecondPivot(position: Vector2, theta1: Rotation, attach1: Vector2): Vector2 {
    Add(position, Rotate(attach1, theta1))
  }

  /**
   * The second pivot is the first piece's attach point (its offset from the pivot,
   * turned and moved) exactly when the first pivot offset is zero.
   */
  lemma SecondPivotIsAttachPoint(position: Vector2, theta1: Rotation, pivot1: Vector2, attach1: Vector2)
    requires IsUnit(theta1)
    ensures SecondPivot(position, theta1, attach1) == Add(position, Rotate(Sub(attach1, pivot1), theta1))
            <==> pivot1 == Origin
  {
    RotateLinear(attach1, pivot1, theta1);
    RotateZero(pivot1, theta1);
    var a, p := Rotate(attach1, theta1), Rotate(pivot1, theta1);
    assert Add(position, a) == Add(position, Sub(a, p)) <==> p == Origin;
  }

  class RoboticArm {
    var piece1: ArmPiece
    var piece2: ArmPiece

    /**
     * The first piece at the base with angle `theta1`; the second at the point the first
     * carries `attach1` to, with angle `theta1 + theta2`, so that it is turned by
     * `theta2` relative to the first.  Each piece keeps its own size and offsets.
     */
    constructor (position: Vector2, theta1: Rotation, theta2: Rotation, pieceSize1: Vector2, pieceSize2: Vector2,
                 pivot1: Vector2, pivot2: Vector2, attach1: Vector2, attach2: Vector2)
      ensures fresh(piece1) && fresh(piece2) && piece1 != piece2
      ensures piece1.pivotPosition == position && piece1.theta == theta1
      ensures piece1.size == pieceSize1 && piece1.pivotOffset == pivot1 && piece1.attachOffset == attach1
      ensures piece2.pivotPosition == SecondPivot(position, theta1, attach1) && piece2.theta == Plus(theta1, theta2)
      ensures piece2.size == pieceSize2 && piece2.pivotOffset == pivot2 && piece2.attachOffset == attach2
      ensures forall q :: piece2.ArmFrameToGlobal(q) == Add(piece2.pivotPosition, Rotate(Rotate(q, theta1), theta2))
      ensures IsUnit(theta1) ==> (piece2.pivotPosition == piece1.AttachPosition() <==> pivot1 == Origin)
    {
      piece1 := new ArmPiece(position, theta1, pieceSize1, pivot1, attach1);
      piece2 := new ArmPiece(SecondPivot(position, theta1, attach1), Plus(theta1, theta2), pieceSize2, pivot2, attach2);
      new;
      forall q | true
        ensures piece2.ArmFrameToGlobal(q) == Add(piece2.pivotPosition, Rotate(Rotate(q, theta1), theta2))
      {
        RotatePlus(q, theta1, theta2);
      }
      if IsUnit(theta1) {
        SecondPivotIsAttachPoint(position, theta1, pivot1, attach1);
      }
    }
  }
}
