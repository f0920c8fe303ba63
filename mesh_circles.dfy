/**
 * The circle part of the mesh utilities: circles through up to three points, the
 * inclusive point-in-circumcircle test, Welzl's enclosing-circle recursion and the
 * equilateral supertriangle.  Points are exact real vectors and circles carry their
 * squared radius, so no square root is needed.
 */
module MeshCircles {
  import opened Wrappers
  import opened Vectors
  import opened Triangles

  // ---------------------------------------------------------------------------
  // Circles
  // ---------------------------------------------------------------------------

  /**
   * A circle given by its centre and squared radius.  `Degenerate` is the value the
   * three-point formula yields for a collinear triple, where the floating-point
   * computation divides by zero; no point compares as inside it.
   */
  datatype Circle = Circle(center: Vector2, radiusSqr: real) | Degenerate

  /** `p` lies in the closed disc: `|p - c|^2 <= r^2`. */
  predicate Encloses(c: Circle, p: Vector2) {
    c.Circle? && DistSqr(p, c.center) <= c.radiusSqr
  }

  /** `p` lies exactly on the circle. */
  predicate OnCircle(c: Circle, p: Vector2) {
    c.Circle? && DistSqr(p, c.center) == c.radiusSqr
  }

  datatype CircleError = TooManyPoints(count: nat)

  /** Determinant of the 3x3 matrix with rows (a0 a1 a2), (b0 b1 b2), (c0 c1 c2). */
  function Det3(a0: real, a1: real, a2: real, b0: real, b1: real, b2: real,
                c0: real, c1: real, c2: real): real
  {
    a0 * (b1 * c2 - b2 * c1) - a1 * (b0 * c2 - b2 * c0) + a2 * (b0 * c1 - b1 * c0)
  }

  /**
   * The four determinants of the circumcircle formula, for rows (x, y, m) where m is
   * the squared magnitude of the point: `a` and `b` as named in the source, and the
   * two halves `sx`, `sy` of the vector S.
   */
  datatype Coefficients = Coefficients(a: real, sx: real, sy: real, b: real)

  function Coeffs(ax: real, ay: real, am: real, bx: real, by_: real, bm: real,
                  cx: real, cy: real, cm: real): Coefficients
  {
    Coefficients(
      Det3(ax, ay, 1.0, bx, by_, 1.0, cx, cy, 1.0),
      0.5 * Det3(am, ay, 1.0, bm, by_, 1.0, cm, cy, 1.0),
      0.5 * Det3(ax, am, 1.0, bx, bm, 1.0, cx, cm, 1.0),
      Det3(ax, ay, am, bx, by_, bm, cx, cy, cm))
  }

  function CoefficientsOf(p: Vector2, q: Vector2, r: Vector2): Coefficients {
    Coeffs(p.x, p.y, MagSqr(p), q.x, q.y, MagSqr(q), r.x, r.y, MagSqr(r))
  }

  /** Three points on one line: the cross product of two sides vanishes. */
  predicate Collinear(p: Vector2, q: Vector2, r: Vector2) {
    (q.x - p.x) * (r.y - p.y) - (q.y - p.y) * (r.x - p.x) == 0.0
  }

  /** The matrix determinant `a` is the cross product of two sides. */
  lemma DeterminantIsCross(p: Vector2, q: Vector2, r: Vector2)
    ensures CoefficientsOf(p, q, r).a
         == (q.x - p.x) * (r.y - p.y) - (q.y - p.y) * (r.x - p.x)
  {
  }

  /** Rotating the three rows cyclically changes none of the determinants. */
  lemma CoeffsCyclic(ax: real, ay: real, am: real, bx: real, by_: real, bm: real,
                     cx: real, cy: real, cm: real)
    ensures Coeffs(bx, by_, bm, cx, cy, cm, ax, ay, am) == Coeffs(ax, ay, am, bx, by_, bm, cx, cy, cm)
  {
  }

  /** Expanding `b` along its last column relates it to `a`, `sx` and `sy`. */
  lemma CoeffsIdentity(ax: real, ay: real, am: real, bx: real, by_: real, bm: real,
                       cx: real, cy: real, cm: real)
    ensures var k := Coeffs(ax, ay, am, bx, by_, bm, cx, cy, cm);
            k.a * am - 2.0 * (ax * k.sx + ay * k.sy) == k.b
  {
  }

  /**
   * The circle the formula builds from its coefficients: centre `S / a` and squared
   * radius `b / a + |S|^2 / a^2`, each quotient written as a product with `1 / a`.
   */
  function CircleOf(k: Coefficients): (c: Circle)
    ensures c.Degenerate? <==> k.a == 0.0
  {
    if k.a == 0.0 then Degenerate
    else
      var inv := 1.0 / k.a;
      Circle(Vector2(k.sx * inv, k.sy * inv), k.b * inv + (k.sx * k.sx + k.sy * k.sy) * (inv * inv))
  }

  /** The identity of `CoeffsIdentity`, multiplied through by `1 / a`. */
  lemma ScaledIdentity(px: real, py: real, m: real, sx: real, sy: real, a: real, b: real, inv: real)
    requires a * inv == 1.0
    requires a * m - 2.0 * (px * sx + py * sy) == b
    ensures inv * b == m - 2.0 * (inv * (px * sx + py * sy))
  {
    assert inv * b == inv * (a * m) - 2.0 * (inv * (px * sx + py * sy));
    assert inv * (a * m) == (a * inv) * m;
  }

  /** The row (px, py) is at squared distance `b / a + |S|^2 / a^2` from `S / a`. */
  lemma RowOnCircle(px: real, py: real, m: real, sx: real, sy: real, a: real, b: real, inv: real)
    requires m == px * px + py * py
    requires a * inv == 1.0
    requires a * m - 2.0 * (px * sx + py * sy) == b
    ensures (px - sx * inv) * (px - sx * inv) + (py - sy * inv) * (py - sy * inv)
         == b * inv + (sx * sx + sy * sy) * (inv * inv)
  {
    ScaledIdentity(px, py, m, sx, sy, a, b, inv);
  }

  /** A point satisfying the expanded identity lies on the circle of the coefficients. */
  lemma IdentityOnCircle(px: real, py: real, m: real, k: Coefficients)
    requires k.a != 0.0 && m == px * px + py * py
    requires k.a * m - 2.0 * (px * k.sx + py * k.sy) == k.b
    ensures OnCircle(CircleOf(k), Vector2(px, py))
  {
    RowOnCircle(px, py, m, k.sx, k.sy, k.a, k.b, 1.0 / k.a);
  }

  /** `CoeffsCyclic` for three points. */
  lemma CyclicOf(p: Vector2, q: Vector2, r: Vector2)
    ensures CoefficientsOf(q, r, p) == CoefficientsOf(p, q, r)
  {
    CoeffsCyclic(p.x, p.y, MagSqr(p), q.x, q.y, MagSqr(q), r.x, r.y, MagSqr(r));
  }

  /** The first row lies on the circle, for rows whose magnitudes are free variables. */
  lemma FirstRowOnCircle(px: real, py: real, pm: real, qx: real, qy: real, qm: real, rx: real, ry: real, rm: real)
    requires pm == px * px + py * py
    requires Coeffs(px, py, pm, qx, qy, qm, rx, ry, rm).a != 0.0
    ensures OnCircle(CircleOf(Coeffs(px, py, pm, qx, qy, qm, rx, ry, rm)), Vector2(px, py))
  {
    CoeffsIdentity(px, py, pm, qx, qy, qm, rx, ry, rm);
    IdentityOnCircle(px, py, pm, Coeffs(px, py, pm, qx, qy, qm, rx, ry, rm));
  }

  /** The first of three non-collinear points lies on their circle. */
  lemma FirstOnCircle(p: Vector2, q: Vector2, r: Vector2)
    requires CoefficientsOf(p, q, r).a != 0.0
    ensures OnCircle(CircleOf(CoefficientsOf(p, q, r)), p)
  {
    FirstRowOnCircle(p.x, p.y, MagSqr(p), q.x, q.y, MagSqr(q), r.x, r.y, MagSqr(r));
  }

  /** All three points lie on the circle built from their coefficients. */
  lemma VerticesOnCircle(p: Vector2, q: Vector2, r: Vector2)
    requires CoefficientsOf(p, q, r).a != 0.0
    ensures var c := CircleOf(CoefficientsOf(p, q, r));
            OnCircle(c, p) && OnCircle(c, q) && OnCircle(c, r)
  {
    CyclicOf(p, q, r);
    CyclicOf(q, r, p);
    FirstOnCircle(p, q, r);
    FirstOnCircle(q, r, p);
    FirstOnCircle(r, p, q);
  }

  /**
   * The circle through three points.  It is `Degenerate` exactly when they are
   * collinear; otherwise each of the three points lies on it.
   */
  function Circumcircle3(p: Vector2, q: Vector2, r: Vector2): (c: Circle)
    ensures c.Degenerate? <==> Collinear(p, q, r)
    ensures c.Circle? ==> OnCircle(c, p) && OnCircle(c, q) && OnCircle(c, r)
  {
    var k := CoefficientsOf(p, q, r);
    DeterminantIsCross(p, q, r);
    if k.a != 0.0 then
      VerticesOnCircle(p, q, r);
      CircleOf(k)
    else
      CircleOf(k)
  }

  /**
   * The circle through the points of `R`: the circumcircle of three points, the
   * diameter circle of two points, the zero circle at a single point, and the zero
   * circle at the origin for no point.  More than three points is an error.
   */
  function MakeCircumcircle(R: seq<Vector2>): (r: Result<Circle, CircleError>)
    ensures r.Failure? <==> |R| > 3
    ensures r.Failure? ==> r.error == TooManyPoints(|R|)
    ensures r.Success? && r.value.Circle? ==> forall i :: 0 <= i < |R| ==> OnCircle(r.value, R[i])
    ensures r.Success? ==> (r.value.Degenerate? <==> |R| == 3 && Collinear(R[0], R[1], R[2]))
    ensures |R| == 0 ==> r == Success(Circle(Origin, 0.0))
    ensures |R| == 1 ==> r.value.Circle? && r.value.center == R[0] && r.value.radiusSqr == 0.0
    ensures |R| == 2 ==>
              Scale(r.value.center, 2.0) == Add(R[0], R[1]) && 4.0 * r.value.radiusSqr == DistSqr(R[0], R[1])
  {
    if |R| == 3 then
      Success(Circumcircle3(R[0], R[1], R[2]))
    else if |R| == 0 then
      Success(Circle(Origin, 0.0))
    else if |R| == 1 then
      Success(Circle(R[0], 0.0))
    else if |R| == 2 then
      Success(Circle(Scale(Add(R[0], R[1]), 0.5), 0.25 * DistSqr(R[0], R[1])))
    else
      Failure(TooManyPoints(|R|))
  }

  /**
   * Whether `p` is inside the circumcircle of the triangle, counting points on the
   * circle as inside.
   */
  predicate PointInsideCircumcircle(p: Vector2, t: Triangle) {
    Encloses(Circumcircle3(t.a, t.b, t.c), p)
  }

  /**
   * The test is inclusive: the three vertices of a non-collinear triangle are inside
   * its circumcircle, and nothing is inside it for a collinear one.
   */
  lemma PointInsideCircumcircleInclusive(t: Triangle, p: Vector2)
    ensures !Collinear(t.a, t.b, t.c) ==>
              PointInsideCircumcircle(t.a, t) && PointInsideCircumcircle(t.b, t) && PointInsideCircumcircle(t.c, t)
    ensures Collinear(t.a, t.b, t.c) ==> !PointInsideCircumcircle(p, t)
    ensures PointInsideCircumcircle(p, t) <==>
              !Collinear(t.a, t.b, t.c) && DistSqr(p, Circumcircle3(t.a, t.b, t.c).center) <= Circumcircle3(t.a, t.b, t.c).radiusSqr
  {
  }

  /**
   * Welzl's recursion: the smallest circle enclosing `P` with the points of `R` on its
   * boundary.  When the first point of `P` is already inside the circle found for the
   * rest, that circle is the answer; otherwise the point joins the boundary set.
   */
  function Welzl(P: seq<Vector2>, R: seq<Vector2>): (c: Circle)
    requires |R| <= 3
    ensures c.Circle? ==> forall i :: 0 <= i < |R| ==> OnCircle(c, R[i])
    ensures |P| > 0 && |R| < 3 && c.Circle? ==> Encloses(c, P[0])
    decreases |P|
  {
    if |P| == 0 || |R| == 3 then
      MakeCircumcircle(R).value
    else
      var candidate := Welzl(P[1..], R);
      if Encloses(candidate, P[0]) then
        candidate
      else
        var c := Welzl(P[1..], R + [P[0]]);
        assert forall i :: 0 <= i < |R| ==> (R + [P[0]])[i] == R[i];
        assert (R + [P[0]])[|R|] == P[0];
        c
  }

  /** Keeping a circle that already encloses the first point. */
  lemma WelzlKeepsCandidate(P: seq<Vector2>, R: seq<Vector2>)
    requires |R| < 3 && |P| > 0
    ensures Encloses(Welzl(P[1..], R), P[0]) ==> Welzl(P, R) == Welzl(P[1..], R)
    ensures !Encloses(Welzl(P[1..], R), P[0]) ==> Welzl(P, R) == Welzl(P[1..], R + [P[0]])
  {
  }

  /** With three boundary points the remaining points are not consulted. */
  lemma WelzlThreeBoundaryPoints(P: seq<Vector2>, R: seq<Vector2>)
    requires |R| == 3
    ensures Welzl(P, R) == Circumcircle3(R[0], R[1], R[2])
  {
  }

  /** The circle Welzl's recursion finds for all the points. */
  function FindCircleContainingPoints(points: seq<Vector2>): (c: Circle)
    ensures |points| > 0 && c.Circle? ==> Encloses(c, points[0])
  {
    Welzl(points, [])
  }

  // ---------------------------------------------------------------------------
  // Supertriangle
  // ---------------------------------------------------------------------------

  /**
   * The rotation by 2 pi / 3: cosine -1/2 and sine sqrt(3)/2, the sine given by its
   * square and sign.
   */
  predicate IsThirdTurn(r: Rotation) {
    r.cos == -0.5 && r.sin > 0.0 && r.sin * r.sin == 0.75
  }

  /** Twice the third turn is the rotation by 4 pi / 3, a genuine angle. */
  lemma ThirdTurnTwice(r: Rotation)
    requires IsThirdTurn(r)
    ensures IsUnit(r) && IsUnit(Plus(r, r))
    ensures Plus(r, r) == Rotation(-0.5, -r.sin)
  {
  }

  function Midpoint(u: Vector2, v: Vector2): Vector2 {
    Scale(Add(u, v), 0.5)
  }

  function Dot(u: Vector2, v: Vector2): real {
    u.x * v.x + u.y * v.y
  }

  /**
   * The side from `u` to `v` touches the circle of the given centre and radius at its
   * midpoint: the midpoint is on the circle and the side is perpendicular to the
   * radius there.
   */
  predicate TangentSide(u: Vector2, v: Vector2, center: Vector2, radius: real) {
    DistSqr(Midpoint(u, v), center) == radius * radius
    && Dot(Sub(v, u), Sub(Midpoint(u, v), center)) == 0.0
  }

  /**
   * The equilateral triangle with vertices at distance `2 * radius` from `center`, the
   * first straight above it and the others turned by 2 pi / 3 and 4 pi / 3.  Its three
   * sides have equal length and touch the circle of the given radius, so the triangle
   * encloses that circle.
   */
  function EquilateralTriangleEnclosingCircle(center: Vector2, radius: real, turn: Rotation): (t: seq<Vector2>)
    requires IsThirdTurn(turn)
    ensures |t| == 3
    ensures forall i :: 0 <= i < 3 ==> DistSqr(t[i], center) == 4.0 * (radius * radius)
    ensures DistSqr(t[0], t[1]) == DistSqr(t[1], t[2]) == DistSqr(t[2], t[0])
    ensures TangentSide(t[0], t[1], center, radius) && TangentSide(t[1], t[2], center, radius)
         && TangentSide(t[2], t[0], center, radius)
  {
    var a := 2.0 * radius;
    var up := Vector2(0.0, a);
    ThirdTurnTwice(turn);
    var t := [Add(center, up), Add(center, Rotate(up, turn)), Add(center, Rotate(up, Plus(turn, turn)))];
    assert t[1] == Vector2(center.x - turn.sin * a, center.y - 0.5 * a);
    assert t[2] == Vector2(center.x + turn.sin * a, center.y - 0.5 * a);
    t
  }

  /**
   * The supertriangle of a point set: the equilateral triangle around the circle found
   * for the points, grown by `margin`.  The square root of the squared radius is
   * supplied as `radius`; there is none when the circle is degenerate.
   */
  function FindSupertriangle(points: seq<Vector2>, margin: real, radius: real, turn: Rotation): (t: Option<seq<Vector2>>)
    requires IsThirdTurn(turn)
    requires FindCircleContainingPoints(points).Circle? ==>
               radius >= 0.0 && radius * radius == FindCircleContainingPoints(points).radiusSqr
    ensures t.Some? <==> FindCircleContainingPoints(points).Circle?
    ensures t.Some? ==> |t.value| == 3
    ensures t.Some? ==> var c := FindCircleContainingPoints(points);
             forall i :: 0 <= i < 3 ==> DistSqr(t.value[i], c.center) == 4.0 * ((radius + margin) * (radius + margin))
    ensures t.Some? ==> var c := FindCircleContainingPoints(points);
             TangentSide(t.value[0], t.value[1], c.center, radius + margin)
             && TangentSide(t.value[1], t.value[2], c.center, radius + margin)
             && TangentSide(t.value[2], t.value[0], c.center, radius + margin)
  {
    var c := FindCircleContainingPoints(points);
    if c.Degenerate? then None
    else Some(EquilateralTriangleEnclosingCircle(c.center, radius + margin, turn))
  }
}
