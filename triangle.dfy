/** The closest-point routine for one triangle `(a, b, c)` (the `Vector3[]` overload of
 *  `Extensions.ClosestPoint`), over exact reals.  It first tests the three vertex
 *  regions, then the three edge regions, and otherwise projects the query onto the
 *  plane through the centroid.  `ClosestPointAsWritten` keeps the strict vertex tests
 *  of the code; `ClosestPoint` makes them non-strict, which closes the gap those leave
 *  on the boundary rays of the vertex regions. */
module TriangleClosestPoint {
  import opened Scalars
  import opened Vectors
  import opened TriangleGeometry
  import Regions

  // ---------------------------------------------------------------------------
  // The local helpers

  /** `point2 - point1`: the step from `point1` to `point2`. */
  function Delta(point1: Vector3, point2: Vector3): (r: Vector3)
    ensures Add(point1, r) == point2
  {
    Sub(point2, point1)
  }

  /** `point1 + t (point2 - point1)`: the point with parameter `t` on the line through both. */
  function PointAt(point1: Vector3, point2: Vector3, t: real): (r: Vector3)
    ensures t == 0.0 ==> r == point1
    ensures t == 1.0 ==> r == point2
  {
    Add(point1, Scale(t, Delta(point1, point2)))
  }

  /** The parameter of the foot of `p` on the line through `point1` and `point2`: the
   *  step from `p` to `PointAt(point1, point2, r)` is orthogonal to the line.  Defined
   *  only for distinct points; the code divides by zero otherwise. */
  function Project(point1: Vector3, point2: Vector3, p: Vector3): (r: real)
    requires point1 != point2
    ensures Dot(Sub(p, PointAt(point1, point2, r)), Delta(point1, point2)) == 0.0
  {
    var d := Delta(point1, point2);
    DistinctApart(point1, point2);
    var r := Dot(Sub(p, point1), d) / SqrMagnitude(d);
    FootOrthogonal(point1, d, p, r);
    r
  }

  /** `p` lies strictly on the side of the plane through `planePoint` towards which
   *  `direction` points. */
  predicate IsAbove(planePoint: Vector3, direction: Vector3, p: Vector3) {
    Dot(direction, Sub(p, planePoint)) > 0.0
  }

  /** `(a + b + c) / 3`. */
  function Centroid(a: Vector3, b: Vector3, c: Vector3): Vector3 {
    Vector3((a.x + b.x + c.x) / 3.0, (a.y + b.y + c.y) / 3.0, (a.z + b.z + c.z) / 3.0)
  }

  /** The centroid is the point of the triangle with equal weights on the three vertices. */
  lemma CentroidIsTrianglePoint(a: Vector3, b: Vector3, c: Vector3)
    ensures Centroid(a, b, c) == TrianglePoint(a, b, c, 1.0 / 3.0, 1.0 / 3.0)
  {
  }

  lemma FootOrthogonal(o: Vector3, d: Vector3, p: Vector3, r: real)
    requires SqrMagnitude(d) > 0.0 && r == Dot(Sub(p, o), d) / SqrMagnitude(d)
    ensures Dot(Sub(p, Add(o, Scale(r, d))), d) == 0.0
  {
    assert Sub(p, Add(o, Scale(r, d))) == Sub(Sub(p, o), Scale(r, d));
    DotSub(Sub(p, o), Scale(r, d), d);
    DotScale(r, d, d);
    DivCancel(Dot(Sub(p, o), d), SqrMagnitude(d));
  }

  // ---------------------------------------------------------------------------
  // The routine

  /** The edge test: the foot of `p` lies strictly inside edge `start`-`end`, and `p`
   *  is not above the plane through the edge that contains the normal `n`. */
  predicate EdgeTest(start: Vector3, end: Vector3, n: Vector3, u: real, p: Vector3) {
    0.0 < u && u < 1.0 && !IsAbove(start, Cross(n, Delta(start, end)), p)
  }

  /** The face fallback: `center - ProjectOnPlane(center - p, n)`, the point of the plane
   *  through the centroid with normal `n` reached from `p` along `n`. */
  function FacePoint(p: Vector3, a: Vector3, b: Vector3, c: Vector3, n: Vector3): (r: Vector3)
    ensures Dot(Sub(r, Centroid(a, b, c)), n) == 0.0
    ensures SqrMagnitude(n) == 0.0 ==> r == p
  {
    var center := Centroid(a, b, c);
    var w := ProjectOnPlane(Sub(center, p), n);
    BackAlongPlane(center, p, w, n);
    Sub(center, w)
  }

  lemma BackAlongPlane(center: Vector3, p: Vector3, w: Vector3, n: Vector3)
    requires w == ProjectOnPlane(Sub(center, p), n)
    ensures Dot(Sub(Sub(center, w), center), n) == 0.0
    ensures SqrMagnitude(n) == 0.0 ==> Sub(center, w) == p
  {
    if SqrMagnitude(n) == 0.0 {
      SqrMagnitudeZero(n);
      assert w == Sub(center, p);
      SubSub(center, p);
    } else {
      NegatedOffset(center, w, n);
    }
  }

  lemma SubSub(center: Vector3, p: Vector3)
    ensures Sub(center, Sub(center, p)) == p
  {
    assert p == Vector3(p.x, p.y, p.z);
  }

  lemma NegatedOffset(center: Vector3, w: Vector3, n: Vector3)
    requires Dot(w, n) == 0.0
    ensures Dot(Sub(Sub(center, w), center), n) == 0.0
  {
    assert Sub(Sub(center, w), center) == Scale(-1.0, w);
    DotScale(-1.0, w, n);
  }

  /** The edge tests in the order ab, bc, ca, then the face fallback, with `n` in the
   *  place of the normalised normal. */
  function EdgeOrFace(p: Vector3, a: Vector3, b: Vector3, c: Vector3, n: Vector3): Vector3
    requires Distinct(a, b, c)
  {
    var uab := Project(a, b, p);
    var ubc := Project(b, c, p);
    var uca := Project(c, a, p);
    if EdgeTest(a, b, n, uab, p) then PointAt(a, b, uab)
    else if EdgeTest(b, c, n, ubc, p) then PointAt(b, c, ubc)
    else if EdgeTest(c, a, n, uca, p) then PointAt(c, a, uca)
    else FacePoint(p, a, b, c, n)
  }

  /** The routine with its strict vertex tests, as the code has them. */
  function ClosestPointAsWritten(p: Vector3, a: Vector3, b: Vector3, c: Vector3): Vector3
    requires Distinct(a, b, c)
  {
    var uab := Project(a, b, p);
    var ubc := Project(b, c, p);
    var uca := Project(c, a, p);
    if uca > 1.0 && uab < 0.0 then a
    else if uab > 1.0 && ubc < 0.0 then b
    else if ubc > 1.0 && uca < 0.0 then c
    else EdgeOrFace(p, a, b, c, Normal(a, b, c))
  }

  /** The routine with non-strict vertex tests; everything else as written. */
  function ClosestPoint(p: Vector3, a: Vector3, b: Vector3, c: Vector3): Vector3
    requires Distinct(a, b, c)
  {
    var uab := Project(a, b, p);
    var ubc := Project(b, c, p);
    var uca := Project(c, a, p);
    if uca >= 1.0 && uab <= 0.0 then a
    else if uab >= 1.0 && ubc <= 0.0 then b
    else if ubc >= 1.0 && uca <= 0.0 then c
    else EdgeOrFace(p, a, b, c, Normal(a, b, c))
  }

  // ---------------------------------------------------------------------------
  // The line parameter

  /** `Project` is the ratio of the reach of `p` along the edge to its squared length. */
  lemma ProjectIsRatio(point1: Vector3, point2: Vector3, p: Vector3)
    requires point1 != point2
    ensures SqrDistance(point1, point2) > 0.0
    ensures Project(point1, point2, p) == Reach(point1, point2, p) / SqrDistance(point1, point2)
  {
    DistinctApart(point1, point2);
  }

  /** `Project` recovers the parameter of a point placed by `PointAt`, whatever offset
   *  orthogonal to the line is added to it. */
  lemma ProjectOffset(point1: Vector3, point2: Vector3, t: real, w: Vector3)
    requires point1 != point2
    requires Dot(w, Delta(point1, point2)) == 0.0
    ensures Project(point1, point2, Add(PointAt(point1, point2, t), w)) == t
  {
    var d := Delta(point1, point2);
    var q := Add(PointAt(point1, point2, t), w);
    var r := Project(point1, point2, q);
    DistinctApart(point1, point2);
    OffsetDifference(point1, d, t, r, w);
    DotAdd(Scale(t - r, d), w, d);
    DotScale(t - r, d, d);
    ZeroProduct(SqrMagnitude(d), t - r);
  }

  lemma OffsetDifference(o: Vector3, d: Vector3, t: real, r: real, w: Vector3)
    ensures Sub(Add(Add(o, Scale(t, d)), w), Add(o, Scale(r, d))) == Add(Scale(t - r, d), w)
  {
  }

  /** `Project` recovers the parameter of a point placed by `PointAt`. */
  lemma ProjectPointAt(point1: Vector3, point2: Vector3, t: real)
    requires point1 != point2
    ensures Project(point1, point2, PointAt(point1, point2, t)) == t
  {
    var zero := Vector3(0.0, 0.0, 0.0);
    assert Add(PointAt(point1, point2, t), zero) == PointAt(point1, point2, t);
    ProjectOffset(point1, point2, t, zero);
  }

  /** The endpoints have parameters 0 and 1. */
  lemma ProjectEndpoints(point1: Vector3, point2: Vector3)
    requires point1 != point2
    ensures Project(point1, point2, point1) == 0.0
    ensures Project(point1, point2, point2) == 1.0
  {
    ProjectPointAt(point1, point2, 0.0);
    ProjectPointAt(point1, point2, 1.0);
  }

  /** A point placed by `PointAt` along an edge is a point of the triangle, with the
   *  coefficients of `TrianglePoint`. */
  lemma PointAtOnTriangle(a: Vector3, b: Vector3, c: Vector3, u: real)
    ensures PointAt(a, b, u) == TrianglePoint(a, b, c, u, 0.0)
    ensures PointAt(b, c, u) == TrianglePoint(a, b, c, 1.0 - u, u)
    ensures PointAt(c, a, u) == TrianglePoint(a, b, c, 0.0, 1.0 - u)
  {
  }

  /** The edge point with parameter `u` in `(0, 1)` lies in the triangle. */
  lemma EdgePointInTriangle(a: Vector3, b: Vector3, c: Vector3, u: real)
    requires 0.0 < u < 1.0
    ensures InTriangle(a, b, c, PointAt(a, b, u))
    ensures InTriangle(a, b, c, PointAt(b, c, u))
    ensures InTriangle(a, b, c, PointAt(c, a, u))
  {
    PointAtOnTriangle(a, b, c, u);
    TrianglePointInTriangle(a, b, c, u, 0.0);
    TrianglePointInTriangle(a, b, c, 1.0 - u, u);
    TrianglePointInTriangle(a, b, c, 0.0, 1.0 - u);
  }

  /** Each vertex lies in the triangle. */
  lemma VerticesInTriangle(a: Vector3, b: Vector3, c: Vector3)
    ensures InTriangle(a, b, c, a) && InTriangle(a, b, c, b) && InTriangle(a, b, c, c)
  {
    PointAtOnTriangle(a, b, c, 0.0);
    TrianglePointInTriangle(a, b, c, 0.0, 0.0);
    TrianglePointInTriangle(a, b, c, 1.0, 0.0);
    TrianglePointInTriangle(a, b, c, 0.0, 1.0);
  }

  /** With the triangle normal, "above" in the edge tests means a positive side value. */
  lemma AboveIsSide(a: Vector3, b: Vector3, c: Vector3, p: Vector3)
    ensures IsAbove(a, Cross(Normal(a, b, c), Delta(a, b)), p) <==> Side(a, b, c, p) > 0.0
    ensures IsAbove(b, Cross(Normal(a, b, c), Delta(b, c)), p) <==> Side(b, c, a, p) > 0.0
    ensures IsAbove(c, Cross(Normal(a, b, c), Delta(c, a)), p) <==> Side(c, a, b, p) > 0.0
  {
    NormalRotation(a, b, c);
    NormalRotation(b, c, a);
  }

  // ---------------------------------------------------------------------------
  // The face fallback

  /** How far along `n` the face fallback moves the query. */
  function FaceShift(p: Vector3, a: Vector3, b: Vector3, c: Vector3, n: Vector3): real {
    if SqrMagnitude(n) == 0.0 then 0.0
    else Dot(Sub(Centroid(a, b, c), p), n) / SqrMagnitude(n)
  }

  /** The face fallback moves the query along `n` only: it is the orthogonal
   *  projection of `p` onto the plane through the centroid. */
  lemma FacePointOnNormalLine(p: Vector3, a: Vector3, b: Vector3, c: Vector3, n: Vector3)
    ensures FacePoint(p, a, b, c, n) == Add(p, Scale(FaceShift(p, a, b, c, n), n))
  {
    if SqrMagnitude(n) == 0.0 {
      assert Add(p, Scale(0.0, n)) == p;
    } else {
      var center := Centroid(a, b, c);
      var k := FaceShift(p, a, b, c, n);
      assert ProjectOnPlane(Sub(center, p), n) == Sub(Sub(center, p), Scale(k, n));
      SubSubScale(center, p, k, n);
    }
  }

  lemma SubSubScale(center: Vector3, p: Vector3, k: real, n: Vector3)
    ensures Sub(center, Sub(Sub(center, p), Scale(k, n))) == Add(p, Scale(k, n))
  {
  }

  /** With the triangle normal, the face fallback lies in the plane of the triangle. */
  lemma FacePointInPlane(p: Vector3, a: Vector3, b: Vector3, c: Vector3)
    ensures InPlane(a, b, c, FacePoint(p, a, b, c, Normal(a, b, c)))
  {
    var n := Normal(a, b, c);
    var center := Centroid(a, b, c);
    var r := FacePoint(p, a, b, c, n);
    CentroidIsTrianglePoint(a, b, c);
    TrianglePointInPlane(a, b, c, 1.0 / 3.0, 1.0 / 3.0);
    assert Sub(r, a) == Add(Sub(r, center), Sub(center, a));
    DotAdd(Sub(r, center), Sub(center, a), n);
  }

  /** The face fallback, with the triangle normal, is at least as close to the query as
   *  every point of the triangle. */
  lemma FacePointMinimal(p: Vector3, a: Vector3, b: Vector3, c: Vector3)
    ensures Minimal(p, FacePoint(p, a, b, c, Normal(a, b, c)), a, b, c)
  {
    var n := Normal(a, b, c);
    FacePointOnNormalLine(p, a, b, c, n);
    FacePointInPlane(p, a, b, c);
    FaceMinimal(a, b, c, p, FaceShift(p, a, b, c, n));
  }

  // ---------------------------------------------------------------------------
  // Whichever branch returns

  /** Whatever the edge tests and the face fallback return lies in the plane of the triangle. */
  lemma EdgeOrFaceInPlane(p: Vector3, a: Vector3, b: Vector3, c: Vector3)
    requires Distinct(a, b, c)
    ensures InPlane(a, b, c, EdgeOrFace(p, a, b, c, Normal(a, b, c)))
  {
    var n := Normal(a, b, c);
    var uab, ubc, uca := Project(a, b, p), Project(b, c, p), Project(c, a, p);
    if EdgeTest(a, b, n, uab, p) {
      PointAtOnTriangle(a, b, c, uab);
      TrianglePointInPlane(a, b, c, uab, 0.0);
    } else if EdgeTest(b, c, n, ubc, p) {
      PointAtOnTriangle(a, b, c, ubc);
      TrianglePointInPlane(a, b, c, 1.0 - ubc, ubc);
    } else if EdgeTest(c, a, n, uca, p) {
      PointAtOnTriangle(a, b, c, uca);
      TrianglePointInPlane(a, b, c, 0.0, 1.0 - uca);
    } else {
      FacePointInPlane(p, a, b, c);
    }
  }

  /** Every result of the routine as written lies in the plane of the triangle. */
  lemma AsWrittenInPlane(p: Vector3, a: Vector3, b: Vector3, c: Vector3)
    requires Distinct(a, b, c)
    ensures InPlane(a, b, c, ClosestPointAsWritten(p, a, b, c))
  {
    VerticesInTriangle(a, b, c);
    EdgeOrFaceInPlane(p, a, b, c);
  }

  /** Every result of the corrected routine lies in the plane of the triangle. */
  lemma ClosestPointInPlane(p: Vector3, a: Vector3, b: Vector3, c: Vector3)
    requires Distinct(a, b, c)
    ensures InPlane(a, b, c, ClosestPoint(p, a, b, c))
  {
    VerticesInTriangle(a, b, c);
    EdgeOrFaceInPlane(p, a, b, c);
  }

  // ---------------------------------------------------------------------------
  // Nearest points

  /** The vertex-`a` test reads: both edges at `a` are seen from `p` at an obtuse or
   *  right angle (strictly obtuse for the strict test). */
  lemma VertexTestMeaning(p: Vector3, a: Vector3, b: Vector3, c: Vector3)
    requires Distinct(a, b, c)
    ensures (Project(c, a, p) >= 1.0 && Project(a, b, p) <= 0.0) <==> (Reach(a, b, p) <= 0.0 && Reach(a, c, p) <= 0.0)
    ensures (Project(c, a, p) > 1.0 && Project(a, b, p) < 0.0) <==> (Reach(a, b, p) < 0.0 && Reach(a, c, p) < 0.0)
  {
    ProjectIsRatio(a, b, p);
    ProjectIsRatio(c, a, p);
    RatioSign(Project(a, b, p), Reach(a, b, p), SqrDistance(a, b));
    RatioSign(Project(c, a, p), Reach(c, a, p), SqrDistance(c, a));
    ReachFromC(a, b, c, p);
    RotatedLengths(a, b, c);
  }

  /** The edge point the routine returns is the foot of `p` on the line of the edge. */
  lemma EdgePointIsFoot(a: Vector3, b: Vector3, p: Vector3)
    requires a != b
    ensures SqrDistance(a, b) > 0.0
    ensures PointAt(a, b, Project(a, b, p)) == Add(a, Scale(Reach(a, b, p) / SqrDistance(a, b), Sub(b, a)))
  {
    var u := Project(a, b, p);
    ProjectIsRatio(a, b, p);
    PointAtFromDelta(a, b, u);
  }

  lemma PointAtFromDelta(a: Vector3, b: Vector3, u: real)
    ensures PointAt(a, b, u) == Add(a, Scale(u, Sub(b, a)))
  {
  }

  /** Whatever the edge tests and the face fallback return is at least as close to the
   *  query as every point of the triangle. */
  lemma EdgeOrFaceMinimal(p: Vector3, a: Vector3, b: Vector3, c: Vector3)
    requires Distinct(a, b, c)
    ensures Minimal(p, EdgeOrFace(p, a, b, c, Normal(a, b, c)), a, b, c)
  {
    var n := Normal(a, b, c);
    var uab, ubc, uca := Project(a, b, p), Project(b, c, p), Project(c, a, p);
    AboveIsSide(a, b, c, p);
    if EdgeTest(a, b, n, uab, p) {
      ProjectIsRatio(a, b, p);
      EdgePointIsFoot(a, b, p);
      EdgeMinimal(a, b, c, p);
    } else if EdgeTest(b, c, n, ubc, p) {
      ProjectIsRatio(b, c, p);
      EdgePointIsFoot(b, c, p);
      EdgeMinimal(b, c, a, p);
      MinimalRotation(p, PointAt(b, c, ubc), a, b, c);
    } else if EdgeTest(c, a, n, uca, p) {
      ProjectIsRatio(c, a, p);
      EdgePointIsFoot(c, a, p);
      EdgeMinimal(c, a, b, p);
      MinimalRotation(p, PointAt(c, a, uca), b, c, a);
      MinimalRotation(p, PointAt(c, a, uca), a, b, c);
    } else {
      FacePointMinimal(p, a, b, c);
    }
  }

  /** The routine as written returns a point at least as close to the query as every
   *  point of the triangle. */
  lemma AsWrittenMinimal(p: Vector3, a: Vector3, b: Vector3, c: Vector3)
    requires Distinct(a, b, c)
    ensures Minimal(p, ClosestPointAsWritten(p, a, b, c), a, b, c)
  {
    var uab, ubc, uca := Project(a, b, p), Project(b, c, p), Project(c, a, p);
    if uca > 1.0 && uab < 0.0 {
      VertexTestMeaning(p, a, b, c);
      VertexMinimal(a, b, c, p);
    } else if uab > 1.0 && ubc < 0.0 {
      VertexTestMeaning(p, b, c, a);
      VertexMinimal(b, c, a, p);
      MinimalRotation(p, b, a, b, c);
    } else if ubc > 1.0 && uca < 0.0 {
      VertexTestMeaning(p, c, a, b);
      VertexMinimal(c, a, b, p);
      MinimalRotation(p, c, b, c, a);
      MinimalRotation(p, c, a, b, c);
    } else {
      EdgeOrFaceMinimal(p, a, b, c);
    }
  }

  /** The corrected routine returns a point at least as close to the query as every
   *  point of the triangle. */
  lemma ClosestPointMinimal(p: Vector3, a: Vector3, b: Vector3, c: Vector3)
    requires Distinct(a, b, c)
    ensures Minimal(p, ClosestPoint(p, a, b, c), a, b, c)
  {
    var uab, ubc, uca := Project(a, b, p), Project(b, c, p), Project(c, a, p);
    if uca >= 1.0 && uab <= 0.0 {
      VertexTestMeaning(p, a, b, c);
      VertexMinimal(a, b, c, p);
    } else if uab >= 1.0 && ubc <= 0.0 {
      VertexTestMeaning(p, b, c, a);
      VertexMinimal(b, c, a, p);
      MinimalRotation(p, b, a, b, c);
    } else if ubc >= 1.0 && uca <= 0.0 {
      VertexTestMeaning(p, c, a, b);
      VertexMinimal(c, a, b, p);
      MinimalRotation(p, c, b, c, a);
      MinimalRotation(p, c, a, b, c);
    } else {
      EdgeOrFaceMinimal(p, a, b, c);
    }
  }

  /** Idempotence: a point of the triangle is its own closest point, in both versions. */
  lemma TrianglePointsFixed(a: Vector3, b: Vector3, c: Vector3, s: real, t: real)
    requires Distinct(a, b, c) && InSimplex(s, t)
    ensures ClosestPoint(TrianglePoint(a, b, c, s, t), a, b, c) == TrianglePoint(a, b, c, s, t)
    ensures ClosestPointAsWritten(TrianglePoint(a, b, c, s, t), a, b, c) == TrianglePoint(a, b, c, s, t)
  {
    var q := TrianglePoint(a, b, c, s, t);
    OwnPointUnique(q, ClosestPoint(q, a, b, c), a, b, c, s, t);
    OwnPointUnique(q, ClosestPointAsWritten(q, a, b, c), a, b, c, s, t);
    FixedWhenUnique(q, a, b, c);
  }

  /** Both results are `Minimal`, so a query that is the only `Minimal` point for
   *  itself comes back unchanged. */
  lemma FixedWhenUnique(q: Vector3, a: Vector3, b: Vector3, c: Vector3)
    requires Distinct(a, b, c)
    requires Minimal(q, ClosestPoint(q, a, b, c), a, b, c) ==> ClosestPoint(q, a, b, c) == q
    requires Minimal(q, ClosestPointAsWritten(q, a, b, c), a, b, c) ==> ClosestPointAsWritten(q, a, b, c) == q
    ensures ClosestPoint(q, a, b, c) == q && ClosestPointAsWritten(q, a, b, c) == q
  {
    ClosestPointMinimal(q, a, b, c);
    AsWrittenMinimal(q, a, b, c);
  }

  // ---------------------------------------------------------------------------
  // Containment

  /** For a nondegenerate triangle the vertex-`a` test is the vertex region of `Regions`,
   *  read in the side values `x`, `y`, `z` and the corners `A`, `B`, `C`. */
  lemma VertexTestRegion(p: Vector3, a: Vector3, b: Vector3, c: Vector3)
    requires Nondegenerate(a, b, c)
    requires Distinct(a, b, c)
    ensures (Project(c, a, p) >= 1.0 && Project(a, b, p) <= 0.0)
        <==> Regions.VertexFires(Side(b, c, a, p), Side(c, a, b, p), Side(a, b, c, p),
                                 Corner(a, b, c), Corner(b, c, a), Corner(c, a, b))
  {
    AreaRotation(a, b, c);
    AreaRotation(b, c, a);
    ProjectIsRatio(a, b, p);
    ProjectIsRatio(c, a, p);
    ParameterSigns(a, b, c, p);
    ParameterSigns(c, a, b, p);
  }

  /** For a nondegenerate triangle the edge-`ab` test, with the triangle normal, is the
   *  edge region of `Regions`. */
  lemma EdgeTestRegion(p: Vector3, a: Vector3, b: Vector3, c: Vector3)
    requires Nondegenerate(a, b, c)
    requires a != b
    ensures EdgeTest(a, b, Normal(a, b, c), Project(a, b, p), p)
        <==> Regions.EdgeFires(Side(b, c, a, p), Side(c, a, b, p), Side(a, b, c, p),
                               Corner(a, b, c), Corner(b, c, a), Corner(c, a, b))
  {
    ProjectIsRatio(a, b, p);
    ParameterSigns(a, b, c, p);
    AboveIsSide(a, b, c, p);
  }

  /** When no vertex test and no edge test of the corrected routine fires, the face
   *  fallback lies in the triangle. */
  lemma FacePointInTriangle(p: Vector3, a: Vector3, b: Vector3, c: Vector3)
    requires Nondegenerate(a, b, c)
    requires Distinct(a, b, c)
    requires !(Project(c, a, p) >= 1.0 && Project(a, b, p) <= 0.0)
    requires !(Project(a, b, p) >= 1.0 && Project(b, c, p) <= 0.0)
    requires !(Project(b, c, p) >= 1.0 && Project(c, a, p) <= 0.0)
    requires !EdgeTest(a, b, Normal(a, b, c), Project(a, b, p), p)
    requires !EdgeTest(b, c, Normal(a, b, c), Project(b, c, p), p)
    requires !EdgeTest(c, a, Normal(a, b, c), Project(c, a, p), p)
    ensures InTriangle(a, b, c, FacePoint(p, a, b, c, Normal(a, b, c)))
  {
    var n := Normal(a, b, c);
    var x, y, z := Side(b, c, a, p), Side(c, a, b, p), Side(a, b, c, p);
    var A, B, C := Corner(a, b, c), Corner(b, c, a), Corner(c, a, b);
    AreaRotation(a, b, c);
    AreaRotation(b, c, a);
    NormalRotation(a, b, c);
    NormalRotation(b, c, a);
    VertexTestRegion(p, a, b, c);
    VertexTestRegion(p, b, c, a);
    VertexTestRegion(p, c, a, b);
    EdgeTestRegion(p, a, b, c);
    EdgeTestRegion(p, b, c, a);
    EdgeTestRegion(p, c, a, b);
    RegionShape(a, b, c, p);
    Regions.Cover(x, y, z, A, B, C);
    var k := FaceShift(p, a, b, c, n);
    FacePointOnNormalLine(p, a, b, c, n);
    FacePointInPlane(p, a, b, c);
    SideShift(a, b, c, p, k);
    SideShift(b, c, a, p, k);
    SideShift(c, a, b, p, k);
  }

  /** For a nondegenerate triangle the corrected routine returns a point of the
   *  triangle. */
  lemma ClosestPointInTriangle(p: Vector3, a: Vector3, b: Vector3, c: Vector3)
    requires Nondegenerate(a, b, c)
    ensures Distinct(a, b, c)
    ensures InTriangle(a, b, c, ClosestPoint(p, a, b, c))
  {
    EdgeLengths(a, b, c);
    var n := Normal(a, b, c);
    var uab, ubc, uca := Project(a, b, p), Project(b, c, p), Project(c, a, p);
    VerticesInTriangle(a, b, c);
    if uca >= 1.0 && uab <= 0.0 {
    } else if uab >= 1.0 && ubc <= 0.0 {
    } else if ubc >= 1.0 && uca <= 0.0 {
    } else if EdgeTest(a, b, n, uab, p) {
      EdgePointInTriangle(a, b, c, uab);
    } else if EdgeTest(b, c, n, ubc, p) {
      EdgePointInTriangle(a, b, c, ubc);
    } else if EdgeTest(c, a, n, uca, p) {
      EdgePointInTriangle(a, b, c, uca);
    } else {
      FacePointInTriangle(p, a, b, c);
    }
  }

  // ---------------------------------------------------------------------------
  // Normalising the normal

  /** Scaling the normal by a positive factor does not change an edge test. */
  lemma EdgeTestRescaled(start: Vector3, end: Vector3, n: Vector3, u: real, p: Vector3, k: real)
    requires k > 0.0
    ensures EdgeTest(start, end, Scale(k, n), u, p) <==> EdgeTest(start, end, n, u, p)
  {
    var q := Sub(p, start);
    var d := Delta(start, end);
    CrossRescaled(n, d, q, k);
    ScaledSign(k, Dot(Cross(n, d), q), Dot(Cross(Scale(k, n), d), q));
  }

  /** Scaling the normal by a positive factor does not change the face fallback. */
  lemma FacePointRescaled(p: Vector3, a: Vector3, b: Vector3, c: Vector3, n: Vector3, k: real)
    requires k > 0.0
    ensures FacePoint(p, a, b, c, Scale(k, n)) == FacePoint(p, a, b, c, n)
  {
    FacePointUnfolded(p, a, b, c, n);
    FacePointUnfolded(p, a, b, c, Scale(k, n));
    ProjectOnPlaneRescaled(Sub(Centroid(a, b, c), p), n, k);
  }

  lemma FacePointUnfolded(p: Vector3, a: Vector3, b: Vector3, c: Vector3, n: Vector3)
    ensures FacePoint(p, a, b, c, n) == Sub(Centroid(a, b, c), ProjectOnPlane(Sub(Centroid(a, b, c), p), n))
  {
  }

  /** Scaling the normal by a positive factor changes neither the edge tests nor the
   *  face fallback.  Normalising is such a scaling for a nondegenerate triangle, so the
   *  unnormalised normal gives the code's results. */
  lemma NormalScaleInvariant(p: Vector3, a: Vector3, b: Vector3, c: Vector3, n: Vector3, k: real)
    requires Distinct(a, b, c)
    requires k > 0.0
    ensures EdgeOrFace(p, a, b, c, Scale(k, n)) == EdgeOrFace(p, a, b, c, n)
  {
    EdgeTestRescaled(a, b, n, Project(a, b, p), p, k);
    EdgeTestRescaled(b, c, n, Project(b, c, p), p, k);
    EdgeTestRescaled(c, a, n, Project(c, a, p), p, k);
    FacePointRescaled(p, a, b, c, n, k);
  }

  // ---------------------------------------------------------------------------
  // The two versions of the vertex tests

  /** The corners are distinct and none of the three line parameters is exactly 0 or 1. */
  predicate OffBoundaryValues(p: Vector3, a: Vector3, b: Vector3, c: Vector3) {
    Distinct(a, b, c) &&
    Project(a, b, p) != 0.0 && Project(a, b, p) != 1.0 &&
    Project(b, c, p) != 0.0 && Project(b, c, p) != 1.0 &&
    Project(c, a, p) != 0.0 && Project(c, a, p) != 1.0
  }

  /** Away from the boundary values 0 and 1 of the three parameters, the strict and
   *  the non-strict vertex tests agree. */
  lemma VersionsAgree(p: Vector3, a: Vector3, b: Vector3, c: Vector3)
    requires OffBoundaryValues(p, a, b, c)
    ensures ClosestPointAsWritten(p, a, b, c) == ClosestPoint(p, a, b, c)
  {
  }

  /** A query that sees both edges at `a` at an obtuse or right angle gets `a`. */
  lemma VertexRegionReturnsVertex(p: Vector3, a: Vector3, b: Vector3, c: Vector3)
    requires Distinct(a, b, c)
    requires Reach(a, b, p) <= 0.0 && Reach(a, c, p) <= 0.0
    ensures ClosestPoint(p, a, b, c) == a
  {
    VertexTestMeaning(p, a, b, c);
  }

  /** The strict tests need both angles strictly obtuse. */
  lemma AsWrittenVertexRegion(p: Vector3, a: Vector3, b: Vector3, c: Vector3)
    requires Distinct(a, b, c)
    requires Reach(a, b, p) < 0.0 && Reach(a, c, p) < 0.0
    ensures ClosestPointAsWritten(p, a, b, c) == a
  {
    VertexTestMeaning(p, a, b, c);
  }

  /** The test at `a` comes first but cannot hold in the vertex region of `b`: a query
   *  that sees both edges at `b` at an obtuse or right angle gets `b`, from both versions
   *  when both angles are strictly obtuse. */
  lemma VertexRegionReturnsB(p: Vector3, a: Vector3, b: Vector3, c: Vector3)
    requires Distinct(a, b, c)
    requires Reach(b, c, p) <= 0.0 && Reach(b, a, p) <= 0.0
    ensures ClosestPoint(p, a, b, c) == b
    ensures Reach(b, c, p) < 0.0 && Reach(b, a, p) < 0.0 ==> ClosestPointAsWritten(p, a, b, c) == b
  {
    VertexTestMeaning(p, b, c, a);
  }

  /** Neither earlier test can hold in the vertex region of `c`. */
  lemma VertexRegionReturnsC(p: Vector3, a: Vector3, b: Vector3, c: Vector3)
    requires Distinct(a, b, c)
    requires Reach(c, a, p) <= 0.0 && Reach(c, b, p) <= 0.0
    ensures ClosestPoint(p, a, b, c) == c
    ensures Reach(c, a, p) < 0.0 && Reach(c, b, p) < 0.0 ==> ClosestPointAsWritten(p, a, b, c) == c
  {
    VertexTestMeaning(p, c, a, b);
  }

  /** A query already in the plane of the triangle is its own face fallback. */
  lemma FacePointFixesPlanePoints(p: Vector3, a: Vector3, b: Vector3, c: Vector3)
    requires InPlane(a, b, c, p)
    ensures FacePoint(p, a, b, c, Normal(a, b, c)) == p
  {
    var n := Normal(a, b, c);
    var center := Centroid(a, b, c);
    CentroidIsTrianglePoint(a, b, c);
    TrianglePointInPlane(a, b, c, 1.0 / 3.0, 1.0 / 3.0);
    assert Sub(center, p) == Sub(Sub(center, a), Sub(p, a));
    DotSub(Sub(center, a), Sub(p, a), n);
    assert FaceShift(p, a, b, c, n) == 0.0;
    FacePointOnNormalLine(p, a, b, c, n);
    assert Add(p, Scale(0.0, n)) == p;
  }

  // ---------------------------------------------------------------------------
  // Which branch answers, read off the dot products

  /** A query whose foot lies strictly inside edge `ab`, that lies on the far side of
   *  `ab` or on it, and that is not behind `c` along `ca`, gets the foot on `ab`,
   *  from both versions. */
  lemma EdgeRegionReturnsFoot(p: Vector3, a: Vector3, b: Vector3, c: Vector3)
    requires Distinct(a, b, c)
    requires 0.0 < Reach(a, b, p) < SqrDistance(a, b)
    requires Reach(c, a, p) > 0.0
    requires Side(a, b, c, p) <= 0.0
    ensures ClosestPoint(p, a, b, c) == PointAt(a, b, Project(a, b, p))
    ensures ClosestPointAsWritten(p, a, b, c) == PointAt(a, b, Project(a, b, p))
  {
    ProjectIsRatio(a, b, p);
    ProjectIsRatio(c, a, p);
    RatioSign(Project(a, b, p), Reach(a, b, p), SqrDistance(a, b));
    RatioSign(Project(c, a, p), Reach(c, a, p), SqrDistance(c, a));
    AboveIsSide(a, b, c, p);
  }

  /** Edge `b`-`c` is tested second: a query strictly inside the plane of edge `a`-`b`
   *  that reaches strictly into edge `b`-`c`, forward along `a`-`b`, and lies outside
   *  or on the plane of `b`-`c` gets its foot on `b`-`c`. */
  lemma EdgeBCReturnsFoot(p: Vector3, a: Vector3, b: Vector3, c: Vector3)
    requires Distinct(a, b, c)
    requires 0.0 < Reach(b, c, p) < SqrDistance(b, c)
    requires Reach(a, b, p) > 0.0
    requires Side(a, b, c, p) > 0.0 && Side(b, c, a, p) <= 0.0
    ensures ClosestPoint(p, a, b, c) == PointAt(b, c, Project(b, c, p))
    ensures ClosestPointAsWritten(p, a, b, c) == PointAt(b, c, Project(b, c, p))
  {
    ProjectIsRatio(b, c, p);
    ProjectIsRatio(a, b, p);
    RatioSign(Project(b, c, p), Reach(b, c, p), SqrDistance(b, c));
    RatioSign(Project(a, b, p), Reach(a, b, p), SqrDistance(a, b));
    AboveIsSide(a, b, c, p);
  }

  /** Edge `c`-`a` is tested last: a query strictly inside the planes of the other two
   *  edges that reaches strictly into `c`-`a`, forward along `b`-`c`, and lies outside
   *  or on the plane of `c`-`a` gets its foot on `c`-`a`. */
  lemma EdgeCAReturnsFoot(p: Vector3, a: Vector3, b: Vector3, c: Vector3)
    requires Distinct(a, b, c)
    requires 0.0 < Reach(c, a, p) < SqrDistance(c, a)
    requires Reach(b, c, p) > 0.0
    requires Side(a, b, c, p) > 0.0 && Side(b, c, a, p) > 0.0 && Side(c, a, b, p) <= 0.0
    ensures ClosestPoint(p, a, b, c) == PointAt(c, a, Project(c, a, p))
    ensures ClosestPointAsWritten(p, a, b, c) == PointAt(c, a, Project(c, a, p))
  {
    ProjectIsRatio(c, a, p);
    ProjectIsRatio(b, c, p);
    RatioSign(Project(c, a, p), Reach(c, a, p), SqrDistance(c, a));
    RatioSign(Project(b, c, p), Reach(b, c, p), SqrDistance(b, c));
    AboveIsSide(a, b, c, p);
  }

  /** A query that reaches forward along all three edges and lies strictly inside all
   *  three edge planes gets the face fallback, from both versions. */
  lemma InteriorReturnsFacePoint(p: Vector3, a: Vector3, b: Vector3, c: Vector3)
    requires Distinct(a, b, c)
    requires Reach(a, b, p) > 0.0 && Reach(b, c, p) > 0.0 && Reach(c, a, p) > 0.0
    requires Side(a, b, c, p) > 0.0 && Side(b, c, a, p) > 0.0 && Side(c, a, b, p) > 0.0
    ensures ClosestPoint(p, a, b, c) == FacePoint(p, a, b, c, Normal(a, b, c))
    ensures ClosestPointAsWritten(p, a, b, c) == FacePoint(p, a, b, c, Normal(a, b, c))
  {
    ProjectIsRatio(a, b, p);
    ProjectIsRatio(b, c, p);
    ProjectIsRatio(c, a, p);
    RatioSign(Project(a, b, p), Reach(a, b, p), SqrDistance(a, b));
    RatioSign(Project(b, c, p), Reach(b, c, p), SqrDistance(b, c));
    RatioSign(Project(c, a, p), Reach(c, a, p), SqrDistance(c, a));
    AboveIsSide(a, b, c, p);
  }
}
