/** The vertex tests of the triangle routine compare the edge parameters strictly
 *  (`uca > 1 && uab < 0` and its rotations).  A query whose parameter is exactly 0
 *  on one edge and exactly 0 on the next slips past every vertex test and every
 *  edge test, and the face fallback then returns a point outside the triangle.
 *  This module exhibits one such query; the non-strict tests of
 *  `TriangleClosestPoint.ClosestPoint` return the right vertex for it. */
module VertexTestFinding {
  import opened Scalars
  import opened Vectors
  import opened TriangleGeometry
  import opened TriangleClosestPoint

  /** The parameter values that slip past the strict tests: level with `a` along `ab`,
   *  level with `b` along `bc`, beyond `a` along `ca`. */
  predicate LevelWithVertices(p: Vector3, a: Vector3, b: Vector3, c: Vector3) {
    Reach(a, b, p) == 0.0 && Reach(b, c, p) == 0.0 && Reach(c, a, p) > SqrDistance(c, a)
  }

  /** In the plane of the triangle and strictly outside edge `ab`. */
  predicate OutsideInPlane(p: Vector3, a: Vector3, b: Vector3, c: Vector3) {
    InPlane(a, b, c, p) && Side(a, b, c, p) < 0.0
  }

  predicate MissedQuery(p: Vector3, a: Vector3, b: Vector3, c: Vector3) {
    Distinct(a, b, c) && LevelWithVertices(p, a, b, c) && OutsideInPlane(p, a, b, c)
  }

  /** Stated on the parameters the routine computes: with `uab == 0`, `ubc == 0` and
   *  `uca > 1`, no strict test fires, and a query in the plane comes back unchanged
   *  from the face fallback, outside the triangle; the non-strict tests return `a`. */
  lemma AsWrittenLeavesTriangle(p: Vector3, a: Vector3, b: Vector3, c: Vector3)
    requires Distinct(a, b, c)
    requires Project(a, b, p) == 0.0 && Project(b, c, p) == 0.0 && Project(c, a, p) > 1.0
    requires InPlane(a, b, c, p) && Side(a, b, c, p) < 0.0
    ensures ClosestPointAsWritten(p, a, b, c) == p
    ensures !InTriangle(a, b, c, ClosestPointAsWritten(p, a, b, c))
    ensures ClosestPoint(p, a, b, c) == a
  {
    FacePointFixesPlanePoints(p, a, b, c);
  }

  /** The same, with the parameters read off the dot products. */
  lemma MissedQueryLeavesTriangle(p: Vector3, a: Vector3, b: Vector3, c: Vector3)
    requires MissedQuery(p, a, b, c)
    ensures ClosestPointAsWritten(p, a, b, c) == p
    ensures !InTriangle(a, b, c, ClosestPointAsWritten(p, a, b, c))
    ensures ClosestPoint(p, a, b, c) == a
  {
    ProjectIsRatio(a, b, p);
    ProjectIsRatio(b, c, p);
    ProjectIsRatio(c, a, p);
    RatioSign(Project(c, a, p), Reach(c, a, p), SqrDistance(c, a));
    AsWrittenLeavesTriangle(p, a, b, c);
  }

  // ---------------------------------------------------------------------------
  // One concrete query: the right triangle (0,0,0), (1,0,0), (0,1,0) and the point
  // (0,-1,0) one unit below its right-angle corner.  Each fact about it gets a lemma
  // of its own, so that the solver meets one concrete evaluation at a time.

  const Origin := Vector3(0.0, 0.0, 0.0)
  const UnitX := Vector3(1.0, 0.0, 0.0)
  const UnitY := Vector3(0.0, 1.0, 0.0)
  const BelowOrigin := Vector3(0.0, -1.0, 0.0)

  lemma ExampleDifferences()
    ensures Sub(BelowOrigin, Origin) == Vector3(0.0, -1.0, 0.0)
    ensures Sub(UnitX, Origin) == Vector3(1.0, 0.0, 0.0)
    ensures Sub(BelowOrigin, UnitX) == Vector3(-1.0, -1.0, 0.0)
    ensures Sub(UnitY, UnitX) == Vector3(-1.0, 1.0, 0.0)
    ensures Sub(BelowOrigin, UnitY) == Vector3(0.0, -2.0, 0.0)
    ensures Sub(Origin, UnitY) == Vector3(0.0, -1.0, 0.0)
    ensures Sub(Origin, UnitX) == Vector3(-1.0, 0.0, 0.0)
    ensures Cross(Vector3(0.0, 0.0, 1.0), Vector3(1.0, 0.0, 0.0)) == Vector3(0.0, 1.0, 0.0)
  {
  }

  lemma ExampleReachAB()
    ensures Reach(Origin, UnitX, BelowOrigin) == 0.0
  {
    ExampleDifferences();
  }

  lemma ExampleReachBC()
    ensures Reach(UnitX, UnitY, BelowOrigin) == 0.0
  {
    ExampleDifferences();
  }

  lemma ExampleReachCA()
    ensures Reach(UnitY, Origin, BelowOrigin) == 2.0
  {
    ExampleDifferences();
  }

  lemma ExampleLengthCA()
    ensures SqrDistance(UnitY, Origin) == 1.0
  {
    ExampleDifferences();
  }

  lemma ExampleNormal()
    ensures Normal(Origin, UnitX, UnitY) == Vector3(0.0, 0.0, 1.0)
  {
    ExampleDifferences();
  }

  lemma ExampleInPlane()
    ensures InPlane(Origin, UnitX, UnitY, BelowOrigin)
  {
    ExampleNormal();
    ExampleDifferences();
  }

  lemma ExampleSide()
    ensures Side(Origin, UnitX, UnitY, BelowOrigin) == -1.0
  {
    ExampleNormal();
    ExampleDifferences();
  }

  lemma ExampleDistinct()
    ensures Distinct(Origin, UnitX, UnitY)
  {
  }

  lemma ExampleLevel()
    ensures LevelWithVertices(BelowOrigin, Origin, UnitX, UnitY)
  {
    ExampleReachAB();
    ExampleReachBC();
    ExampleReachCA();
    ExampleLengthCA();
  }

  lemma ExampleOutside()
    ensures OutsideInPlane(BelowOrigin, Origin, UnitX, UnitY)
  {
    ExampleInPlane();
    ExampleSide();
  }

  lemma ExampleMissed()
    ensures MissedQuery(BelowOrigin, Origin, UnitX, UnitY)
  {
    ExampleDistinct();
    ExampleLevel();
    ExampleOutside();
  }

  /** The query (0,-1,0) against the triangle (0,0,0), (1,0,0), (0,1,0): the strict
   *  tests return the query itself, which is not on the triangle; the non-strict
   *  tests return the corner (0,0,0), one unit away. */
  lemma AsWrittenMissesCorner()
    ensures ClosestPointAsWritten(BelowOrigin, Origin, UnitX, UnitY) == BelowOrigin
    ensures !InTriangle(Origin, UnitX, UnitY, ClosestPointAsWritten(BelowOrigin, Origin, UnitX, UnitY))
    ensures ClosestPoint(BelowOrigin, Origin, UnitX, UnitY) == Origin
  {
    ExampleMissed();
    MissedQueryLeavesTriangle(BelowOrigin, Origin, UnitX, UnitY);
  }
}
