/**
 * Points, circles and the closed-form three-point circle fit `CircleFitting`
 * (include/measurement.h). Coordinates are reals; the square root behind the
 * radius is the abstract Euclidean norm `norm`, passed in by the caller.
 *
 * The algebra is arranged so that the prover meets each polynomial identity
 * once, in a lemma over plain parameters: the centre is `CentreWith`, whose
 * arguments s1, s2, s3 stand for the squared norms of the three points, and
 * the lemmas that glue the steps together speak of `OnBisector` and `OnCircle`
 * rather than of the products those predicates name.
 */
module Geometry {
  import opened Options

  /** A cv::Point2f, over the reals. */
  datatype Point = Point(x: real, y: real)

  /** A fitted circle: its centre and its radius. */
  datatype Circle = Circle(center: Point, radius: real)

  function Sub(p: Point, q: Point): Point {
    Point(p.x - q.x, p.y - q.y)
  }

  /** x^2 + y^2 */
  function SqNorm(v: Point): real {
    v.x * v.x + v.y * v.y
  }

  /** Squared Euclidean distance between two points. */
  function SqDist(p: Point, q: Point): real {
    SqNorm(Sub(p, q))
  }

  /** `norm` is the Euclidean length: non-negative, and its square is SqNorm. */
  ghost predicate IsEuclidean(norm: Point -> real) {
    forall v :: norm(v) >= 0.0 && norm(v) * norm(v) == SqNorm(v)
  }

  /** p lies on circle c: its squared distance from the centre is the squared radius. */
  predicate OnCircle(c: Circle, p: Point) {
    c.radius * c.radius == SqDist(c.center, p)
  }

  /**
   * q is on the perpendicular bisector of p and r, given sp and sr as the
   * squared norms of p and r: 2 (qx (px - rx) + qy (py - ry)) == sp - sr.
   */
  predicate OnBisector(q: Point, p: Point, r: Point, sp: real, sr: real) {
    2.0 * (q.x * (p.x - r.x) + q.y * (p.y - r.y)) == sp - sr
  }

  /** Dot product of two vectors. */
  function Dot(u: Point, v: Point): real {
    u.x * v.x + u.y * v.y
  }

  /** Determinant of the 2x2 matrix with rows u and v. */
  function Det(u: Point, v: Point): real {
    u.x * v.y - u.y * v.x
  }

  /** The cross product of p1 - p2 and p1 - p3. */
  function Cross(p1: Point, p2: Point, p3: Point): real {
    Det(Sub(p1, p2), Sub(p1, p3))
  }

  /** The three points lie on one line: the cross product of p2 - p1 and p3 - p1 is zero. */
  predicate Collinear(p1: Point, p2: Point, p3: Point) {
    (p2.x - p1.x) * (p3.y - p1.y) == (p3.x - p1.x) * (p2.y - p1.y)
  }

  /** The denominator D = 2 (x1 (y2 - y3) - y1 (x2 - x3) + x2 y3 - x3 y2) shared by both centre coordinates. */
  function Denominator(p1: Point, p2: Point, p3: Point): real {
    2.0 * (p1.x * (p2.y - p3.y) - p1.y * (p2.x - p3.x) + p2.x * p3.y - p3.x * p2.y)
  }

  /** Numerator of the centre's x coordinate, si standing for x_i^2 + y_i^2. */
  function NumeratorX(p1: Point, p2: Point, p3: Point, s1: real, s2: real, s3: real): real {
    s1 * (p2.y - p3.y) + s2 * (p3.y - p1.y) + s3 * (p1.y - p2.y)
  }

  /** Numerator of the centre's y coordinate, si standing for x_i^2 + y_i^2. */
  function NumeratorY(p1: Point, p2: Point, p3: Point, s1: real, s2: real, s3: real): real {
    s1 * (p3.x - p2.x) + s2 * (p1.x - p3.x) + s3 * (p2.x - p1.x)
  }

  /** n / d. */
  function Quotient(n: real, d: real): real
    requires d != 0.0
  {
    n / d
  }

  /** The quotient times the divisor gives back the dividend. */
  lemma QuotientTimes(n: real, d: real)
    requires d != 0.0
    ensures Quotient(n, d) * d == n
  {
  }

  /** Both centre coordinates: a numerator over the shared denominator. */
  function CentreWith(p1: Point, p2: Point, p3: Point, s1: real, s2: real, s3: real): Point
    requires Denominator(p1, p2, p3) != 0.0
  {
    Point(Quotient(NumeratorX(p1, p2, p3, s1, s2, s3), Denominator(p1, p2, p3)),
          Quotient(NumeratorY(p1, p2, p3, s1, s2, s3), Denominator(p1, p2, p3)))
  }

  /** The centre the source computes from the three points. */
  function Centre(p1: Point, p2: Point, p3: Point): Point
    requires Denominator(p1, p2, p3) != 0.0
  {
    CentreWith(p1, p2, p3, SqNorm(p1), SqNorm(p2), SqNorm(p3))
  }

  /** D is twice the cross product of p1 - p2 and p1 - p3. */
  lemma DenominatorIsCross(p1: Point, p2: Point, p3: Point)
    ensures Denominator(p1, p2, p3) == 2.0 * Cross(p1, p2, p3)
  {
  }

  /** The denominator is zero exactly when the three points are collinear. */
  lemma DenominatorZeroIffCollinear(p1: Point, p2: Point, p3: Point)
    ensures Denominator(p1, p2, p3) == 0.0 <==> Collinear(p1, p2, p3)
  {
    DenominatorIsCross(p1, p2, p3);
    assert Cross(p1, p2, p3)
        == (p2.x - p1.x) * (p3.y - p1.y) - (p3.x - p1.x) * (p2.y - p1.y);
  }

  /** The numerators satisfy the bisector equation of p1 and p2, scaled by D. */
  lemma NumeratorsOnBisector(p1: Point, p2: Point, p3: Point, s1: real, s2: real, s3: real)
    ensures 2.0 * (NumeratorX(p1, p2, p3, s1, s2, s3) * (p1.x - p2.x)
                 + NumeratorY(p1, p2, p3, s1, s2, s3) * (p1.y - p2.y))
         == Denominator(p1, p2, p3) * (s1 - s2)
  {
    var d := Denominator(p1, p2, p3);
    var a := (p2.y - p3.y) * (p1.x - p2.x) + (p3.x - p2.x) * (p1.y - p2.y);
    var b := (p3.y - p1.y) * (p1.x - p2.x) + (p1.x - p3.x) * (p1.y - p2.y);
    var c := (p1.y - p2.y) * (p1.x - p2.x) + (p2.x - p1.x) * (p1.y - p2.y);
    assert 2.0 * a == d;
    assert 2.0 * b == -d;
    assert c == 0.0;
    assert NumeratorX(p1, p2, p3, s1, s2, s3) * (p1.x - p2.x)
         + NumeratorY(p1, p2, p3, s1, s2, s3) * (p1.y - p2.y)
        == s1 * a + s2 * b + s3 * c;
  }

  /** A non-zero factor cancels. */
  lemma Cancel(d: real, a: real, b: real)
    requires d != 0.0 && d * a == d * b
    ensures a == b
  {
    assert d * (a - b) == 0.0;
  }

  /** From 2 (nx a + ny b) == d t and n == c d with d non-zero: 2 (cx a + cy b) == t. */
  lemma ScaledBisector(nx: real, ny: real, d: real, cx: real, cy: real, a: real, b: real, t: real)
    requires d != 0.0
    requires cx * d == nx && cy * d == ny
    requires 2.0 * (nx * a + ny * b) == d * t
    ensures 2.0 * (cx * a + cy * b) == t
  {
    assert nx * a == d * (cx * a);
    assert ny * b == d * (cy * b);
    Cancel(d, 2.0 * (cx * a + cy * b), t);
  }

  /**
   * (qx, qy) is as far from p as from r exactly when
   * 2 (qx (px - rx) + qy (py - ry)) == |p|^2 - |r|^2.
   */
  lemma SqDistEqualIffBisector(qx: real, qy: real, p: Point, r: Point)
    ensures SqDist(Point(qx, qy), p) == SqDist(Point(qx, qy), r)
        <==> 2.0 * (qx * (p.x - r.x) + qy * (p.y - r.y)) == SqNorm(p) - SqNorm(r)
  {
    assert SqDist(Point(qx, qy), p) == (qx - p.x) * (qx - p.x) + (qy - p.y) * (qy - p.y);
    assert SqDist(Point(qx, qy), r) == (qx - r.x) * (qx - r.x) + (qy - r.y) * (qy - r.y);
    assert (qx - p.x) * (qx - p.x) == qx * qx - 2.0 * qx * p.x + p.x * p.x;
    assert (qx - r.x) * (qx - r.x) == qx * qx - 2.0 * qx * r.x + r.x * r.x;
    assert (qy - p.y) * (qy - p.y) == qy * qy - 2.0 * qy * p.y + p.y * p.y;
    assert (qy - r.y) * (qy - r.y) == qy * qy - 2.0 * qy * r.y + r.y * r.y;
  }

  /** A point is as far from p as from r exactly when it is on their perpendicular bisector. */
  lemma EquidistantIffOnBisector(q: Point, p: Point, r: Point)
    ensures SqDist(q, p) == SqDist(q, r) <==> OnBisector(q, p, r, SqNorm(p), SqNorm(r))
  {
    assert q == Point(q.x, q.y);
    SqDistEqualIffBisector(q.x, q.y, p, r);
  }

  /** Whatever s1, s2, s3 are, the computed centre is on the bisector of p1 and p2 taken with s1, s2. */
  lemma CentreWithOnBisector(p1: Point, p2: Point, p3: Point, s1: real, s2: real, s3: real)
    requires Denominator(p1, p2, p3) != 0.0
    ensures OnBisector(CentreWith(p1, p2, p3, s1, s2, s3), p1, p2, s1, s2)
  {
    NumeratorsOnBisector(p1, p2, p3, s1, s2, s3);
    QuotientTimes(NumeratorX(p1, p2, p3, s1, s2, s3), Denominator(p1, p2, p3));
    QuotientTimes(NumeratorY(p1, p2, p3, s1, s2, s3), Denominator(p1, p2, p3));
    ScaledBisector(NumeratorX(p1, p2, p3, s1, s2, s3), NumeratorY(p1, p2, p3, s1, s2, s3),
                   Denominator(p1, p2, p3),
                   Quotient(NumeratorX(p1, p2, p3, s1, s2, s3), Denominator(p1, p2, p3)),
                   Quotient(NumeratorY(p1, p2, p3, s1, s2, s3), Denominator(p1, p2, p3)),
                   p1.x - p2.x, p1.y - p2.y, s1 - s2);
  }

  /** The centre formula is unchanged by a cyclic shift of the three points. */
  lemma CentreWithCyclic(p1: Point, p2: Point, p3: Point, s1: real, s2: real, s3: real)
    requires Denominator(p1, p2, p3) != 0.0
    ensures Denominator(p2, p3, p1) == Denominator(p1, p2, p3)
    ensures CentreWith(p2, p3, p1, s2, s3, s1) == CentreWith(p1, p2, p3, s1, s2, s3)
  {
    assert NumeratorX(p2, p3, p1, s2, s3, s1) == NumeratorX(p1, p2, p3, s1, s2, s3);
    assert NumeratorY(p2, p3, p1, s2, s3, s1) == NumeratorY(p1, p2, p3, s1, s2, s3);
  }

  /** The centre is as far from p1 as from p2. */
  lemma CentreOnBisector(p1: Point, p2: Point, p3: Point)
    requires Denominator(p1, p2, p3) != 0.0
    ensures SqDist(Centre(p1, p2, p3), p1) == SqDist(Centre(p1, p2, p3), p2)
  {
    CentreWithOnBisector(p1, p2, p3, SqNorm(p1), SqNorm(p2), SqNorm(p3));
    EquidistantIffOnBisector(Centre(p1, p2, p3), p1, p2);
  }

  /** The centre is equidistant from all three points. */
  lemma CentreEquidistant(p1: Point, p2: Point, p3: Point)
    requires Denominator(p1, p2, p3) != 0.0
    ensures SqDist(Centre(p1, p2, p3), p1) == SqDist(Centre(p1, p2, p3), p2)
    ensures SqDist(Centre(p1, p2, p3), p2) == SqDist(Centre(p1, p2, p3), p3)
  {
    CentreOnBisector(p1, p2, p3);
    CentreWithCyclic(p1, p2, p3, SqNorm(p1), SqNorm(p2), SqNorm(p3));
    CentreOnBisector(p2, p3, p1);
  }

  /**
   * CircleFitting (include/measurement.h:27-40): the circle through p1, p2, p3,
   * its radius being the norm of centre - p1. The source divides by D without a
   * guard; here a zero D, which happens exactly for collinear points, gives None.
   */
  function CircleFitting(p1: Point, p2: Point, p3: Point, norm: Point -> real): (r: Option<Circle>)
    ensures r.None? <==> Collinear(p1, p2, p3)
    ensures r.Some? ==> SqDist(r.value.center, p1) == SqDist(r.value.center, p2)
    ensures r.Some? ==> SqDist(r.value.center, p2) == SqDist(r.value.center, p3)
    ensures r.Some? ==> r.value.radius == norm(Sub(r.value.center, p1))
  {
    DenominatorZeroIffCollinear(p1, p2, p3);
    if Denominator(p1, p2, p3) == 0.0 then None
    else
      CentreEquidistant(p1, p2, p3);
      Some(Circle(Centre(p1, p2, p3), norm(Sub(Centre(p1, p2, p3), p1))))
  }

  /**
   * A circle as CircleFitting returns it, with a Euclidean norm: the radius is
   * non-negative and all three points lie on the circle.
   */
  lemma EuclideanRadius(c: Circle, p1: Point, p2: Point, p3: Point, norm: Point -> real)
    requires IsEuclidean(norm)
    requires c.radius == norm(Sub(c.center, p1))
    requires SqDist(c.center, p1) == SqDist(c.center, p2) == SqDist(c.center, p3)
    ensures c.radius >= 0.0
    ensures OnCircle(c, p1) && OnCircle(c, p2) && OnCircle(c, p3)
  {
    var v := Sub(c.center, p1);
    assert norm(v) >= 0.0 && norm(v) * norm(v) == SqNorm(v);
  }

  /** With a Euclidean norm, three non-collinear points give a circle of non-negative radius through all three. */
  lemma CircleFittingRadius(p1: Point, p2: Point, p3: Point, norm: Point -> real)
    requires IsEuclidean(norm)
    requires !Collinear(p1, p2, p3)
    ensures CircleFitting(p1, p2, p3, norm).Some?
    ensures CircleFitting(p1, p2, p3, norm).value.radius >= 0.0
    ensures OnCircle(CircleFitting(p1, p2, p3, norm).value, p1)
    ensures OnCircle(CircleFitting(p1, p2, p3, norm).value, p2)
    ensures OnCircle(CircleFitting(p1, p2, p3, norm).value, p3)
  {
    EuclideanRadius(CircleFitting(p1, p2, p3, norm).value, p1, p2, p3, norm);
  }

  /** Two points on one bisector differ by a vector orthogonal to p - r. */
  lemma BisectorDifference(q: Point, c: Point, p: Point, r: Point, sp: real, sr: real)
    requires OnBisector(q, p, r, sp, sr) && OnBisector(c, p, r, sp, sr)
    ensures Dot(Sub(q, c), Sub(p, r)) == 0.0
  {
  }

  /** A vector orthogonal to two linearly independent vectors is zero. */
  lemma OrthogonalToBasis(w: Point, a: Point, b: Point)
    requires Det(a, b) != 0.0
    requires Dot(w, a) == 0.0 && Dot(w, b) == 0.0
    ensures w == Point(0.0, 0.0)
  {
    assert w.x * Det(a, b) == b.y * Dot(w, a) - a.y * Dot(w, b);
    assert w.y * Det(a, b) == a.x * Dot(w, b) - b.x * Dot(w, a);
    Cancel(Det(a, b), w.x, 0.0);
    Cancel(Det(a, b), w.y, 0.0);
  }

  /** Two points on the bisectors of p1, p2 and of p1, p3, with p1, p2, p3 not collinear, coincide. */
  lemma BisectorsMeetOnce(q: Point, c: Point, p1: Point, p2: Point, p3: Point)
    requires Cross(p1, p2, p3) != 0.0
    requires OnBisector(q, p1, p2, SqNorm(p1), SqNorm(p2)) && OnBisector(q, p1, p3, SqNorm(p1), SqNorm(p3))
    requires OnBisector(c, p1, p2, SqNorm(p1), SqNorm(p2)) && OnBisector(c, p1, p3, SqNorm(p1), SqNorm(p3))
    ensures q == c
  {
    BisectorDifference(q, c, p1, p2, SqNorm(p1), SqNorm(p2));
    BisectorDifference(q, c, p1, p3, SqNorm(p1), SqNorm(p3));
    OrthogonalToBasis(Sub(q, c), Sub(p1, p2), Sub(p1, p3));
  }

  /** Two points each equidistant from three non-collinear points are the same point. */
  lemma EquidistantPointUnique(q: Point, c: Point, p1: Point, p2: Point, p3: Point)
    requires Cross(p1, p2, p3) != 0.0
    requires SqDist(q, p1) == SqDist(q, p2) && SqDist(q, p1) == SqDist(q, p3)
    requires SqDist(c, p1) == SqDist(c, p2) && SqDist(c, p1) == SqDist(c, p3)
    ensures q == c
  {
    EquidistantIffOnBisector(q, p1, p2);
    EquidistantIffOnBisector(q, p1, p3);
    EquidistantIffOnBisector(c, p1, p2);
    EquidistantIffOnBisector(c, p1, p3);
    BisectorsMeetOnce(q, c, p1, p2, p3);
  }

  /**
   * Any point equidistant from three non-collinear points is the centre the
   * fit computes: for three points on a known circle, the fit recovers it.
   */
  lemma CircleFittingRecoversCentre(p1: Point, p2: Point, p3: Point, q: Point, norm: Point -> real)
    requires !Collinear(p1, p2, p3)
    requires SqDist(q, p1) == SqDist(q, p2) == SqDist(q, p3)
    ensures CircleFitting(p1, p2, p3, norm) == Some(Circle(q, norm(Sub(q, p1))))
  {
    DenominatorZeroIffCollinear(p1, p2, p3);
    DenominatorIsCross(p1, p2, p3);
    CentreEquidistant(p1, p2, p3);
    EquidistantPointUnique(q, Centre(p1, p2, p3), p1, p2, p3);
  }
}
