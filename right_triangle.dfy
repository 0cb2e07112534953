/** The routine on the right triangle (0,0,0), (1,0,0), (0,1,0), one query per kind of
 *  answer: a corner, a point inside an edge, the projection onto the face.
 *
 *  The triangle and the query are parameters pinned to their coordinates by the
 *  preconditions.  Each lemma below settles one concrete value; the general lemmas
 *  then take those values through predicates that gather them. */
module RightTriangle {
  import opened Scalars
  import opened Vectors
  import opened TriangleGeometry
  import opened TriangleClosestPoint

  predicate IsRightTriangle(a: Vector3, b: Vector3, c: Vector3) {
    a == Vector3(0.0, 0.0, 0.0) && b == Vector3(1.0, 0.0, 0.0) && c == Vector3(0.0, 1.0, 0.0)
  }

  /** The side value of `p` for edge `ab`, read off a known normal `n` and the in-plane
   *  direction `w` across that edge. */
  lemma SideFromNormal(a: Vector3, b: Vector3, c: Vector3, p: Vector3, n: Vector3, w: Vector3)
    requires Normal(a, b, c) == n && Cross(n, Sub(b, a)) == w
    ensures Side(a, b, c, p) == Dot(w, Sub(p, a))
  {
  }

  // ---------------------------------------------------------------------------
  // The triangle

  lemma CornersDistinct(a: Vector3, b: Vector3, c: Vector3)
    requires IsRightTriangle(a, b, c)
    ensures Distinct(a, b, c)
  {
  }

  lemma NormalUp(a: Vector3, b: Vector3, c: Vector3)
    requires IsRightTriangle(a, b, c)
    ensures Normal(a, b, c) == Vector3(0.0, 0.0, 1.0)
  {
  }

  lemma NormalUpFromB(a: Vector3, b: Vector3, c: Vector3)
    requires IsRightTriangle(a, b, c)
    ensures Normal(b, c, a) == Vector3(0.0, 0.0, 1.0)
  {
  }

  lemma NormalUpFromC(a: Vector3, b: Vector3, c: Vector3)
    requires IsRightTriangle(a, b, c)
    ensures Normal(c, a, b) == Vector3(0.0, 0.0, 1.0)
  {
  }

  /** The in-plane directions across each edge, towards the opposite corner. */
  lemma AcrossAB(a: Vector3, b: Vector3, c: Vector3)
    requires IsRightTriangle(a, b, c)
    ensures Cross(Vector3(0.0, 0.0, 1.0), Sub(b, a)) == Vector3(0.0, 1.0, 0.0)
  {
  }

  lemma AcrossBC(a: Vector3, b: Vector3, c: Vector3)
    requires IsRightTriangle(a, b, c)
    ensures Cross(Vector3(0.0, 0.0, 1.0), Sub(c, b)) == Vector3(-1.0, -1.0, 0.0)
  {
  }

  lemma AcrossCA(a: Vector3, b: Vector3, c: Vector3)
    requires IsRightTriangle(a, b, c)
    ensures Cross(Vector3(0.0, 0.0, 1.0), Sub(a, c)) == Vector3(1.0, 0.0, 0.0)
  {
  }

  lemma UnitEdge(a: Vector3, b: Vector3, c: Vector3)
    requires IsRightTriangle(a, b, c)
    ensures SqrDistance(a, b) == 1.0
  {
  }

  // ---------------------------------------------------------------------------
  // A corner: (-1,-1,0) lies behind (0,0,0) along both edges there

  predicate IsCornerQuery(p: Vector3) {
    p == Vector3(-1.0, -1.0, 0.0)
  }

  predicate CornerCase(p: Vector3, a: Vector3, b: Vector3, c: Vector3) {
    Distinct(a, b, c) && Reach(a, b, p) < 0.0 && Reach(a, c, p) < 0.0
  }

  /** Behind `a` along both edges from `a`: both versions return `a`. */
  lemma CornerCaseReturnsCorner(p: Vector3, a: Vector3, b: Vector3, c: Vector3)
    requires CornerCase(p, a, b, c)
    ensures ClosestPoint(p, a, b, c) == a
    ensures ClosestPointAsWritten(p, a, b, c) == a
  {
    VertexRegionReturnsVertex(p, a, b, c);
    AsWrittenVertexRegion(p, a, b, c);
  }

  lemma CornerQueryReachAB(p: Vector3, a: Vector3, b: Vector3, c: Vector3)
    requires IsRightTriangle(a, b, c) && IsCornerQuery(p)
    ensures Reach(a, b, p) == -1.0
  {
  }

  lemma CornerQueryReachAC(p: Vector3, a: Vector3, b: Vector3, c: Vector3)
    requires IsRightTriangle(a, b, c) && IsCornerQuery(p)
    ensures Reach(a, c, p) == -1.0
  {
  }

  lemma CornerQueryIsCornerCase(p: Vector3, a: Vector3, b: Vector3, c: Vector3)
    requires IsRightTriangle(a, b, c) && IsCornerQuery(p)
    ensures CornerCase(p, a, b, c)
  {
    CornersDistinct(a, b, c);
    CornerQueryReachAB(p, a, b, c);
    CornerQueryReachAC(p, a, b, c);
  }

  /** (-1,-1,0) gets the corner (0,0,0) from the first vertex test. */
  lemma CornerScenario(p: Vector3, a: Vector3, b: Vector3, c: Vector3)
    requires IsRightTriangle(a, b, c) && IsCornerQuery(p)
    ensures ClosestPoint(p, a, b, c) == Vector3(0.0, 0.0, 0.0)
    ensures ClosestPointAsWritten(p, a, b, c) == Vector3(0.0, 0.0, 0.0)
  {
    CornerQueryIsCornerCase(p, a, b, c);
    CornerCaseReturnsCorner(p, a, b, c);
  }

  // ---------------------------------------------------------------------------
  // An edge: (0.5,-1,0) lies outside edge (0,0,0)-(1,0,0), beside its middle

  predicate IsEdgeQuery(p: Vector3) {
    p == Vector3(0.5, -1.0, 0.0)
  }

  /** Distinct corners; `p` strictly between the ends of `ab` at fraction `u`, ahead of
   *  `c` along `ca`, and not above `ab`. */
  predicate EdgeCase(p: Vector3, a: Vector3, b: Vector3, c: Vector3, u: real) {
    Distinct(a, b, c) && EdgeSpan(p, a, b, u) && Reach(c, a, p) > 0.0 && Side(a, b, c, p) <= 0.0
  }

  predicate EdgeSpan(p: Vector3, a: Vector3, b: Vector3, u: real) {
    0.0 < Reach(a, b, p) < SqrDistance(a, b) && u * SqrDistance(a, b) == Reach(a, b, p)
  }

  /** In that case both versions return the point at fraction `u` of `ab`. */
  lemma EdgeCaseReturnsFoot(p: Vector3, a: Vector3, b: Vector3, c: Vector3, u: real)
    requires EdgeCase(p, a, b, c, u)
    ensures ClosestPoint(p, a, b, c) == PointAt(a, b, u)
    ensures ClosestPointAsWritten(p, a, b, c) == PointAt(a, b, u)
  {
    ProjectIsRatio(a, b, p);
    QuotientOf(u, Reach(a, b, p), SqrDistance(a, b));
    EdgeRegionReturnsFoot(p, a, b, c);
  }

  lemma EdgeQueryReachAB(p: Vector3, a: Vector3, b: Vector3, c: Vector3)
    requires IsRightTriangle(a, b, c) && IsEdgeQuery(p)
    ensures Reach(a, b, p) == 0.5
  {
  }

  lemma EdgeQueryReachCA(p: Vector3, a: Vector3, b: Vector3, c: Vector3)
    requires IsRightTriangle(a, b, c) && IsEdgeQuery(p)
    ensures Reach(c, a, p) == 2.0
  {
  }

  lemma EdgeQueryOffset(p: Vector3, a: Vector3, b: Vector3, c: Vector3)
    requires IsRightTriangle(a, b, c) && IsEdgeQuery(p)
    ensures Dot(Vector3(0.0, 1.0, 0.0), Sub(p, a)) == -1.0
  {
  }

  lemma EdgeQuerySideAB(p: Vector3, a: Vector3, b: Vector3, c: Vector3)
    requires IsRightTriangle(a, b, c) && IsEdgeQuery(p)
    ensures Side(a, b, c, p) == -1.0
  {
    NormalUp(a, b, c);
    AcrossAB(a, b, c);
    SideFromNormal(a, b, c, p, Vector3(0.0, 0.0, 1.0), Vector3(0.0, 1.0, 0.0));
    EdgeQueryOffset(p, a, b, c);
  }

  lemma EdgeQuerySpan(p: Vector3, a: Vector3, b: Vector3, c: Vector3)
    requires IsRightTriangle(a, b, c) && IsEdgeQuery(p)
    ensures EdgeSpan(p, a, b, 0.5)
  {
    EdgeQueryReachAB(p, a, b, c);
    UnitEdge(a, b, c);
  }

  lemma EdgeQueryIsEdgeCase(p: Vector3, a: Vector3, b: Vector3, c: Vector3)
    requires IsRightTriangle(a, b, c) && IsEdgeQuery(p)
    ensures EdgeCase(p, a, b, c, 0.5)
  {
    CornersDistinct(a, b, c);
    EdgeQuerySpan(p, a, b, c);
    EdgeQueryReachCA(p, a, b, c);
    EdgeQuerySideAB(p, a, b, c);
  }

  lemma EdgeFootValue(a: Vector3, b: Vector3, c: Vector3)
    requires IsRightTriangle(a, b, c)
    ensures PointAt(a, b, 0.5) == Vector3(0.5, 0.0, 0.0)
  {
  }

  /** (0.5,-1,0) gets the foot (0.5,0,0) on edge (0,0,0)-(1,0,0) from the first edge test. */
  lemma EdgeScenario(p: Vector3, a: Vector3, b: Vector3, c: Vector3)
    requires IsRightTriangle(a, b, c) && IsEdgeQuery(p)
    ensures ClosestPoint(p, a, b, c) == Vector3(0.5, 0.0, 0.0)
    ensures ClosestPointAsWritten(p, a, b, c) == Vector3(0.5, 0.0, 0.0)
  {
    EdgeQueryIsEdgeCase(p, a, b, c);
    EdgeCaseReturnsFoot(p, a, b, c, 0.5);
    EdgeFootValue(a, b, c);
  }

  // ---------------------------------------------------------------------------
  // The face: (0.2,0.2,5) lies above the inside of the triangle

  predicate IsFaceQuery(p: Vector3) {
    p == Vector3(0.2, 0.2, 5.0)
  }

  /** Distinct corners; `p` ahead along every edge and inside every edge; `n` the
   *  normal, and `k` the multiple of `n` that takes `p` onto the plane through the
   *  centroid. */
  predicate FaceCase(p: Vector3, a: Vector3, b: Vector3, c: Vector3, n: Vector3, k: real) {
    Distinct(a, b, c) && ForwardOnAllEdges(p, a, b, c) && InsideAllEdges(p, a, b, c)
    && FaceShiftParts(p, a, b, c, n, k)
  }

  predicate ForwardOnAllEdges(p: Vector3, a: Vector3, b: Vector3, c: Vector3) {
    Reach(a, b, p) > 0.0 && Reach(b, c, p) > 0.0 && Reach(c, a, p) > 0.0
  }

  predicate InsideAllEdges(p: Vector3, a: Vector3, b: Vector3, c: Vector3) {
    Side(a, b, c, p) > 0.0 && Side(b, c, a, p) > 0.0 && Side(c, a, b, p) > 0.0
  }

  predicate FaceShiftParts(p: Vector3, a: Vector3, b: Vector3, c: Vector3, n: Vector3, k: real) {
    Normal(a, b, c) == n && SqrMagnitude(n) != 0.0
    && k * SqrMagnitude(n) == Dot(Sub(Centroid(a, b, c), p), n)
  }

  /** In that case both versions return `p + k n`. */
  lemma FaceCaseReturnsProjection(p: Vector3, a: Vector3, b: Vector3, c: Vector3, n: Vector3, k: real)
    requires FaceCase(p, a, b, c, n, k)
    ensures ClosestPoint(p, a, b, c) == Add(p, Scale(k, n))
    ensures ClosestPointAsWritten(p, a, b, c) == Add(p, Scale(k, n))
  {
    QuotientOf(k, Dot(Sub(Centroid(a, b, c), p), n), SqrMagnitude(n));
    assert FaceShift(p, a, b, c, n) == k;
    FacePointOnNormalLine(p, a, b, c, n);
    InteriorReturnsFacePoint(p, a, b, c);
  }

  lemma FaceQueryReachAB(p: Vector3, a: Vector3, b: Vector3, c: Vector3)
    requires IsRightTriangle(a, b, c) && IsFaceQuery(p)
    ensures Reach(a, b, p) == 0.2
  {
  }

  lemma FaceQueryReachBC(p: Vector3, a: Vector3, b: Vector3, c: Vector3)
    requires IsRightTriangle(a, b, c) && IsFaceQuery(p)
    ensures Reach(b, c, p) == 1.0
  {
  }

  lemma FaceQueryReachCA(p: Vector3, a: Vector3, b: Vector3, c: Vector3)
    requires IsRightTriangle(a, b, c) && IsFaceQuery(p)
    ensures Reach(c, a, p) == 0.8
  {
  }

  lemma FaceQueryOffsetAB(p: Vector3, a: Vector3, b: Vector3, c: Vector3)
    requires IsRightTriangle(a, b, c) && IsFaceQuery(p)
    ensures Dot(Vector3(0.0, 1.0, 0.0), Sub(p, a)) == 0.2
  {
  }

  lemma FaceQueryOffsetBC(p: Vector3, a: Vector3, b: Vector3, c: Vector3)
    requires IsRightTriangle(a, b, c) && IsFaceQuery(p)
    ensures Dot(Vector3(-1.0, -1.0, 0.0), Sub(p, b)) == 0.6
  {
  }

  lemma FaceQueryOffsetCA(p: Vector3, a: Vector3, b: Vector3, c: Vector3)
    requires IsRightTriangle(a, b, c) && IsFaceQuery(p)
    ensures Dot(Vector3(1.0, 0.0, 0.0), Sub(p, c)) == 0.2
  {
  }

  lemma FaceQuerySideAB(p: Vector3, a: Vector3, b: Vector3, c: Vector3)
    requires IsRightTriangle(a, b, c) && IsFaceQuery(p)
    ensures Side(a, b, c, p) == 0.2
  {
    NormalUp(a, b, c);
    AcrossAB(a, b, c);
    SideFromNormal(a, b, c, p, Vector3(0.0, 0.0, 1.0), Vector3(0.0, 1.0, 0.0));
    FaceQueryOffsetAB(p, a, b, c);
  }

  lemma FaceQuerySideBC(p: Vector3, a: Vector3, b: Vector3, c: Vector3)
    requires IsRightTriangle(a, b, c) && IsFaceQuery(p)
    ensures Side(b, c, a, p) == 0.6
  {
    NormalUpFromB(a, b, c);
    AcrossBC(a, b, c);
    SideFromNormal(b, c, a, p, Vector3(0.0, 0.0, 1.0), Vector3(-1.0, -1.0, 0.0));
    FaceQueryOffsetBC(p, a, b, c);
  }

  lemma FaceQuerySideCA(p: Vector3, a: Vector3, b: Vector3, c: Vector3)
    requires IsRightTriangle(a, b, c) && IsFaceQuery(p)
    ensures Side(c, a, b, p) == 0.2
  {
    NormalUpFromC(a, b, c);
    AcrossCA(a, b, c);
    SideFromNormal(c, a, b, p, Vector3(0.0, 0.0, 1.0), Vector3(1.0, 0.0, 0.0));
    FaceQueryOffsetCA(p, a, b, c);
  }

  lemma FaceQueryHeight(p: Vector3, a: Vector3, b: Vector3, c: Vector3)
    requires IsRightTriangle(a, b, c) && IsFaceQuery(p)
    ensures Dot(Sub(Centroid(a, b, c), p), Vector3(0.0, 0.0, 1.0)) == -5.0
  {
  }

  lemma UnitNormalLength()
    ensures SqrMagnitude(Vector3(0.0, 0.0, 1.0)) == 1.0
  {
  }

  lemma FaceQueryShiftParts(p: Vector3, a: Vector3, b: Vector3, c: Vector3)
    requires IsRightTriangle(a, b, c) && IsFaceQuery(p)
    ensures FaceShiftParts(p, a, b, c, Vector3(0.0, 0.0, 1.0), -5.0)
  {
    NormalUp(a, b, c);
    FaceQueryHeight(p, a, b, c);
    UnitNormalLength();
  }

  lemma FaceQueryForward(p: Vector3, a: Vector3, b: Vector3, c: Vector3)
    requires IsRightTriangle(a, b, c) && IsFaceQuery(p)
    ensures ForwardOnAllEdges(p, a, b, c)
  {
    FaceQueryReachAB(p, a, b, c);
    FaceQueryReachBC(p, a, b, c);
    FaceQueryReachCA(p, a, b, c);
  }

  lemma FaceQueryInside(p: Vector3, a: Vector3, b: Vector3, c: Vector3)
    requires IsRightTriangle(a, b, c) && IsFaceQuery(p)
    ensures InsideAllEdges(p, a, b, c)
  {
    FaceQuerySideAB(p, a, b, c);
    FaceQuerySideBC(p, a, b, c);
    FaceQuerySideCA(p, a, b, c);
  }

  lemma FaceQueryIsFaceCase(p: Vector3, a: Vector3, b: Vector3, c: Vector3)
    requires IsRightTriangle(a, b, c) && IsFaceQuery(p)
    ensures FaceCase(p, a, b, c, Vector3(0.0, 0.0, 1.0), -5.0)
  {
    CornersDistinct(a, b, c);
    FaceQueryForward(p, a, b, c);
    FaceQueryInside(p, a, b, c);
    FaceQueryShiftParts(p, a, b, c);
  }

  lemma FaceProjectionValue(p: Vector3, n: Vector3)
    requires IsFaceQuery(p) && n == Vector3(0.0, 0.0, 1.0)
    ensures Add(p, Scale(-5.0, n)) == Vector3(0.2, 0.2, 0.0)
  {
  }

  /** (0.2,0.2,5) gets its projection (0.2,0.2,0) onto the face from the fallback. */
  lemma FaceScenario(p: Vector3, a: Vector3, b: Vector3, c: Vector3)
    requires IsRightTriangle(a, b, c) && IsFaceQuery(p)
    ensures ClosestPoint(p, a, b, c) == Vector3(0.2, 0.2, 0.0)
    ensures ClosestPointAsWritten(p, a, b, c) == Vector3(0.2, 0.2, 0.0)
  {
    FaceQueryIsFaceCase(p, a, b, c);
    FaceCaseReturnsProjection(p, a, b, c, Vector3(0.0, 0.0, 1.0), -5.0);
    FaceProjectionValue(p, Vector3(0.0, 0.0, 1.0));
  }
}
