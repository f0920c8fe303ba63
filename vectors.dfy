/**
 * Plane vectors with exact real coordinates, standing for the `Vector2` class of the
 * vector library the program imports (componentwise `+`, `-`, `*`, `/`, value equality,
 * `mag_sqr`).  Because Dafny's reals have no trigonometry, an angle is represented by
 * its cosine and sine: `rotate_by_angle(v, theta)` becomes `Rotate(v, r)` with
 * `r == Rotation(cos theta, sin theta)`, and adding two angles is `Plus`, the
 * angle-addition formulas.
 */
module Vectors {

  datatype Vector2 = Vector2(x: real, y: real)

  const Origin := Vector2(0.0, 0.0)

  function Add(v: Vector2, w: Vector2): Vector2 {
    Vector2(v.x + w.x, v.y + w.y)
  }

  function Sub(v: Vector2, w: Vector2): Vector2 {
    Vector2(v.x - w.x, v.y - w.y)
  }

  function Neg(v: Vector2): Vector2 {
    Vector2(-v.x, -v.y)
  }

  function Scale(v: Vector2, k: real): Vector2 {
    Vector2(k * v.x, k * v.y)
  }

  /** Componentwise product, `V * V` in the vector library. */
  function Mul(v: Vector2, w: Vector2): Vector2 {
    Vector2(v.x * w.x, v.y * w.y)
  }

  function MagSqr(v: Vector2): real {
    v.x * v.x + v.y * v.y
  }

  /** Squared distance between two points. */
  function DistSqr(v: Vector2, w: Vector2): real {
    MagSqr(Sub(v, w))
  }

  /** An angle, given by its cosine and its sine. */
  datatype Rotation = Rotation(cos: real, sin: real)

  /** The zero angle. */
  const NoTurn := Rotation(1.0, 0.0)

  /** A genuine angle has cos^2 + sin^2 == 1. */
  predicate IsUnit(r: Rotation) {
    r.cos * r.cos + r.sin * r.sin == 1.0
  }

  /** Rotation of `v` counter-clockwise by the angle `r`. */
  function Rotate(v: Vector2, r: Rotation): (w: Vector2)
    ensures IsUnit(r) ==> MagSqr(w) == MagSqr(v)
    ensures r == NoTurn ==> w == v
  {
    Vector2(r.cos * v.x - r.sin * v.y, r.sin * v.x + r.cos * v.y)
  }

  /** The sum of two angles (angle-addition formulas for cosine and sine). */
  function Plus(r1: Rotation, r2: Rotation): (r: Rotation)
    ensures IsUnit(r1) && IsUnit(r2) ==> IsUnit(r)
  {
    assert (r1.cos * r2.cos - r1.sin * r2.sin) * (r1.cos * r2.cos - r1.sin * r2.sin)
         + (r1.sin * r2.cos + r1.cos * r2.sin) * (r1.sin * r2.cos + r1.cos * r2.sin)
        == (r1.cos * r1.cos + r1.sin * r1.sin) * (r2.cos * r2.cos + r2.sin * r2.sin);
    Rotation(r1.cos * r2.cos - r1.sin * r2.sin, r1.sin * r2.cos + r1.cos * r2.sin)
  }

  /** The opposite angle: cos(-theta) == cos theta, sin(-theta) == -sin theta. */
  function Opposite(r: Rotation): Rotation {
    Rotation(r.cos, -r.sin)
  }

  /** Rotating back by the opposite angle undoes a genuine rotation. */
  lemma RotateOpposite(v: Vector2, r: Rotation)
    requires IsUnit(r)
    ensures Rotate(Rotate(v, r), Opposite(r)) == v
  {
    var w := Rotate(Rotate(v, r), Opposite(r));
    assert w.x == (r.cos * r.cos + r.sin * r.sin) * v.x;
    assert w.y == (r.cos * r.cos + r.sin * r.sin) * v.y;
  }

  /** A genuine rotation sends different vectors to different vectors. */
  lemma RotateInjective(v: Vector2, w: Vector2, r: Rotation)
    requires IsUnit(r)
    ensures Rotate(v, r) == Rotate(w, r) <==> v == w
  {
    RotateOpposite(v, r);
    RotateOpposite(w, r);
  }

  /** A genuine rotation sends only the zero vector to the zero vector. */
  lemma RotateZero(v: Vector2, r: Rotation)
    requires IsUnit(r)
    ensures Rotate(v, r) == Origin <==> v == Origin
  {
    RotateOpposite(v, r);
  }

  /** Rotating by `r1` and then by `r2` is rotating by their sum. */
  lemma RotatePlus(v: Vector2, r1: Rotation, r2: Rotation)
    ensures Rotate(Rotate(v, r1), r2) == Rotate(v, Plus(r1, r2))
  {
    var w := Rotate(v, r1);
    SumOfAngles(r1.cos, r1.sin, r2.cos, r2.sin, v.x, v.y, w.x, w.y);
  }

  /**
   * The angle-addition identity on coordinates: rotating (x, y) by (c1, s1) gives
   * (wx, wy), and rotating that by (c2, s2) is rotating (x, y) by the sum.
   */
  lemma SumOfAngles(c1: real, s1: real, c2: real, s2: real, x: real, y: real, wx: real, wy: real)
    requires wx == c1 * x - s1 * y && wy == s1 * x + c1 * y
    ensures c2 * wx - s2 * wy == (c1 * c2 - s1 * s2) * x - (s1 * c2 + c1 * s2) * y
    ensures s2 * wx + c2 * wy == (s1 * c2 + c1 * s2) * x + (c1 * c2 - s1 * s2) * y
  {
  }

  /** Rotation is linear: it distributes over sums and differences. */
  lemma RotateLinear(v: Vector2, w: Vector2, r: Rotation)
    ensures Rotate(Add(v, w), r) == Add(Rotate(v, r), Rotate(w, r))
    ensures Rotate(Sub(v, w), r) == Sub(Rotate(v, r), Rotate(w, r))
  {
  }

  /** A genuine rotation preserves distances. */
  lemma RotateDistance(v: Vector2, w: Vector2, r: Rotation)
    requires IsUnit(r)
    ensures DistSqr(Rotate(v, r), Rotate(w, r)) == DistSqr(v, w)
  {
    RotateLinear(v, w, r);
    assert Sub(Rotate(v, r), Rotate(w, r)) == Rotate(Sub(v, w), r);
  }
}
