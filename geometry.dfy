/** The geometry of one triangle `(a, b, c)` and a query point `p`, in the quantities the
 *  closest-point routine computes: the normal, the projections of `p` onto the edges,
 *  and the side of each edge on which `p` lies. */
module TriangleGeometry {
  import opened Scalars
  import opened Vectors
  import Regions

  /** `Cross(t0 - t1, t0 - t2)`, the triangle normal before normalisation. */
  function Normal(a: Vector3, b: Vector3, c: Vector3): Vector3 {
    Cross(Sub(a, b), Sub(a, c))
  }

  /** `|n|^2`, four times the squared area of the triangle. */
  function AreaFactor(a: Vector3, b: Vector3, c: Vector3): real {
    SqrMagnitude(Normal(a, b, c))
  }

  /** A triangle whose vertices are not collinear. */
  predicate Nondegenerate(a: Vector3, b: Vector3, c: Vector3) {
    AreaFactor(a, b, c) > 0.0
  }

  /** `(b - a) . (c - a)`: positive exactly when the angle at `a` is acute. */
  function Corner(a: Vector3, b: Vector3, c: Vector3): real {
    Dot(Sub(b, a), Sub(c, a))
  }

  /** `(p - a) . (b - a)`: how far `p` reaches from `a` along the edge towards `b`. */
  function Reach(a: Vector3, b: Vector3, p: Vector3): real {
    Dot(Sub(p, a), Sub(b, a))
  }

  /** `(n x (b - a)) . (p - a)`: positive when `p` lies on the side of edge `ab` where `c`
   *  lies, zero on the plane through the edge along `n`, negative beyond the edge. */
  function Side(a: Vector3, b: Vector3, c: Vector3, p: Vector3): real {
    Dot(Cross(Normal(a, b, c), Sub(b, a)), Sub(p, a))
  }

  /** `q` lies in the plane through the three vertices. */
  predicate InPlane(a: Vector3, b: Vector3, c: Vector3, q: Vector3) {
    Dot(Sub(q, a), Normal(a, b, c)) == 0.0
  }

  /** `q` lies in the plane and, for each edge, on the side of the opposite vertex or on the edge. */
  predicate InTriangle(a: Vector3, b: Vector3, c: Vector3, q: Vector3) {
    InPlane(a, b, c, q) && Side(a, b, c, q) >= 0.0 && Side(b, c, a, q) >= 0.0 && Side(c, a, b, q) >= 0.0
  }

  /** The point `a + s (b - a) + t (c - a)`. */
  function TrianglePoint(a: Vector3, b: Vector3, c: Vector3, s: real, t: real): Vector3 {
    Add(a, Add(Scale(s, Sub(b, a)), Scale(t, Sub(c, a))))
  }

  /** The three corners are pairwise different points. */
  predicate Distinct(a: Vector3, b: Vector3, c: Vector3) {
    a != b && b != c && c != a
  }

  /** Coefficients of a point of the closed triangle. */
  predicate InSimplex(s: real, t: real) {
    s >= 0.0 && t >= 0.0 && s + t <= 1.0
  }

  /** `r` is at least as close to `p` as every point of the closed triangle. */
  ghost predicate Minimal(p: Vector3, r: Vector3, a: Vector3, b: Vector3, c: Vector3) {
    forall s: real, t: real :: InSimplex(s, t) ==> SqrDistance(p, r) <= SqrDistance(p, TrianglePoint(a, b, c, s, t))
  }

  /** A point of the triangle is the only point as close to it as every point of the
   *  triangle. */
  lemma OwnPointUnique(q: Vector3, r: Vector3, a: Vector3, b: Vector3, c: Vector3, s: real, t: real)
    requires InSimplex(s, t) && q == TrianglePoint(a, b, c, s, t)
    ensures Minimal(q, r, a, b, c) ==> r == q
  {
    if Minimal(q, r, a, b, c) {
      MinimalAtOwnPoint(q, r, a, b, c, s, t);
    }
  }

  lemma MinimalAtOwnPoint(q: Vector3, r: Vector3, a: Vector3, b: Vector3, c: Vector3, s: real, t: real)
    requires InSimplex(s, t) && q == TrianglePoint(a, b, c, s, t) && Minimal(q, r, a, b, c)
    ensures r == q
  {
    MinimalAt(q, r, a, b, c, s, t);
    AtOwnPoint(q, r, a, b, c, s, t);
  }

  lemma AtOwnPoint(q: Vector3, r: Vector3, a: Vector3, b: Vector3, c: Vector3, s: real, t: real)
    requires q == TrianglePoint(a, b, c, s, t)
    requires SqrDistance(q, r) <= SqrDistance(q, TrianglePoint(a, b, c, s, t))
    ensures r == q
  {
    OnlyItselfAtZero(q, r, q);
  }

  /** The closeness a `Minimal` point has to one particular point of the triangle. */
  lemma MinimalAt(q: Vector3, r: Vector3, a: Vector3, b: Vector3, c: Vector3, s: real, t: real)
    requires InSimplex(s, t) && Minimal(q, r, a, b, c)
    ensures SqrDistance(q, r) <= SqrDistance(q, TrianglePoint(a, b, c, s, t))
  {
  }

  // ---------------------------------------------------------------------------
  // The frame of a triangle: how the quantities of the three edges relate

  /** The normal computed from `a - b` and `a - c` is the usual `(b - a) x (c - a)`. */
  lemma NormalAsCross(a: Vector3, b: Vector3, c: Vector3)
    ensures Normal(a, b, c) == Cross(Sub(b, a), Sub(c, a))
  {
  }

  /** Renaming the vertices cyclically keeps the normal. */
  lemma NormalRotation(a: Vector3, b: Vector3, c: Vector3)
    ensures Normal(b, c, a) == Normal(a, b, c)
  {
  }

  /** The edge lengths, corners and reaches seen from `b` and from `c`, in terms of those seen from `a`. */
  lemma RotatedLengths(a: Vector3, b: Vector3, c: Vector3)
    ensures SqrDistance(c, a) == SqrDistance(a, c)
    ensures SqrDistance(b, c) == SqrDistance(a, b) + SqrDistance(a, c) - 2.0 * Corner(a, b, c)
  {
  }

  lemma RotatedCorners(a: Vector3, b: Vector3, c: Vector3)
    ensures Corner(b, c, a) == SqrDistance(a, b) - Corner(a, b, c)
    ensures Corner(c, a, b) == SqrDistance(a, c) - Corner(a, b, c)
  {
  }

  lemma ReachFromB(a: Vector3, b: Vector3, c: Vector3, p: Vector3)
    ensures Reach(b, c, p) == Reach(a, c, p) - Reach(a, b, p) - Corner(a, b, c) + SqrDistance(a, b)
    ensures Reach(b, a, p) == SqrDistance(a, b) - Reach(a, b, p)
  {
  }

  lemma ReachFromC(a: Vector3, b: Vector3, c: Vector3, p: Vector3)
    ensures Reach(c, b, p) == Reach(a, b, p) - Reach(a, c, p) - Corner(a, b, c) + SqrDistance(a, c)
    ensures Reach(c, a, p) == SqrDistance(a, c) - Reach(a, c, p)
  {
  }

  /** The side value of an edge in terms of edge length, corner and reaches. */
  lemma SideFormula(a: Vector3, b: Vector3, c: Vector3, p: Vector3)
    ensures Side(a, b, c, p) == SqrDistance(a, b) * Reach(a, c, p) - Corner(a, b, c) * Reach(a, b, p)
  {
    NormalAsCross(a, b, c);
    CrossCrossDot(Sub(b, a), Sub(c, a), Sub(p, a));
  }

  /** The frame identities as polynomials in the five quantities seen from `a`. */
  lemma FramePolynomials(uu: real, vv: real, A: real, d1: real, d2: real)
    ensures uu * vv - A * A == A * (uu - A) + (uu - A) * (vv - A) + (vv - A) * A
    ensures ((uu + vv - 2.0 * A) * (uu - d1) - (uu - A) * (d2 - d1 - A + uu))
            + (vv * (d1 - d2 - A + vv) - (vv - A) * (vv - d2)) + (uu * d2 - A * d1) == uu * vv - A * A
    ensures (uu * vv - A * A) * d1 == (vv * (d1 - d2 - A + vv) - (vv - A) * (vv - d2)) * uu + (uu * d2 - A * d1) * A
    ensures (uu * vv - A * A) * (uu - d1)
            == ((uu + vv - 2.0 * A) * (uu - d1) - (uu - A) * (d2 - d1 - A + uu)) * uu + (uu * d2 - A * d1) * (uu - A)
  {
  }

  /** The frame identities for named quantities: `uu`, `vv` the squared lengths of `ab`
   *  and `ac`, `A`, `B`, `C` the corners, `d1`, `d2` the reaches from `a`, `e1`, `e2` those
   *  from `b`, `f1`, `f2` those from `c`, `G` the area factor and `x`, `y`, `z` the side
   *  values of the edges opposite `a`, `b` and `c`. */
  lemma FrameAlgebra(uu: real, vv: real, A: real, B: real, C: real, ww: real, d1: real, d2: real,
                     e1: real, e2: real, f1: real, f2: real, G: real, x: real, y: real, z: real)
    requires B == uu - A && C == vv - A && ww == uu + vv - 2.0 * A
    requires e1 == d2 - d1 - A + uu && e2 == uu - d1
    requires f1 == d1 - d2 - A + vv && f2 == vv - d2
    requires G == uu * vv - A * A
    requires x == ww * e2 - B * e1 && y == vv * f1 - C * f2 && z == uu * d2 - A * d1
    ensures G == A * B + B * C + C * A
    ensures x + y + z == G
    ensures G * d1 == y * (A + B) + z * A
    ensures G * (uu - d1) == x * (A + B) + z * B
  {
    FramePolynomials(uu, vv, A, d1, d2);
    var X := (uu + vv - 2.0 * A) * (uu - d1) - (uu - A) * (d2 - d1 - A + uu);
    var Y := vv * (d1 - d2 - A + vv) - (vv - A) * (vv - d2);
    var Z := uu * d2 - A * d1;
    MulEq(ww, uu + vv - 2.0 * A, e2, uu - d1);
    MulEq(B, uu - A, e1, d2 - d1 - A + uu);
    MulEq(vv, vv, f1, d1 - d2 - A + vv);
    MulEq(C, vv - A, f2, vv - d2);
    assert x == X && y == Y;
    MulEq(A, A, B, uu - A);
    MulEq(B, uu - A, C, vv - A);
    MulEq(C, vv - A, A, A);
    MulEq(G, uu * vv - A * A, d1, d1);
    MulEq(y, Y, A + B, uu);
    MulEq(z, Z, A, A);
    MulEq(G, uu * vv - A * A, uu - d1, uu - d1);
    MulEq(x, X, A + B, uu);
    MulEq(z, Z, B, uu - A);
  }

  /** The frame of a triangle and a query: the area factor in terms of the corners, the
   *  three side values summing to it, and the reach along `ab` from either end
   *  expressed through the side values. */
  lemma Frame(a: Vector3, b: Vector3, c: Vector3, p: Vector3)
    ensures AreaFactor(a, b, c) == Corner(a, b, c) * Corner(b, c, a) + Corner(b, c, a) * Corner(c, a, b)
                                   + Corner(c, a, b) * Corner(a, b, c)
    ensures SqrDistance(a, b) == Corner(a, b, c) + Corner(b, c, a)
    ensures Side(a, b, c, p) + Side(b, c, a, p) + Side(c, a, b, p) == AreaFactor(a, b, c)
    ensures AreaFactor(a, b, c) * Reach(a, b, p)
         == Side(c, a, b, p) * (Corner(a, b, c) + Corner(b, c, a)) + Side(a, b, c, p) * Corner(a, b, c)
    ensures AreaFactor(a, b, c) * (SqrDistance(a, b) - Reach(a, b, p))
         == Side(b, c, a, p) * (Corner(a, b, c) + Corner(b, c, a)) + Side(a, b, c, p) * Corner(b, c, a)
  {
    NormalAsCross(a, b, c);
    Lagrange(Sub(b, a), Sub(c, a));
    RotatedLengths(a, b, c);
    RotatedCorners(a, b, c);
    ReachFromB(a, b, c, p);
    ReachFromC(a, b, c, p);
    SideFormula(a, b, c, p);
    SideFormula(b, c, a, p);
    SideFormula(c, a, b, p);
    FrameAlgebra(SqrDistance(a, b), SqrDistance(a, c), Corner(a, b, c), Corner(b, c, a), Corner(c, a, b),
                 SqrDistance(b, c), Reach(a, b, p), Reach(a, c, p), Reach(b, c, p), Reach(b, a, p),
                 Reach(c, b, p), Reach(c, a, p), AreaFactor(a, b, c), Side(b, c, a, p), Side(c, a, b, p),
                 Side(a, b, c, p));
  }

  /** Rotating the vertices keeps the area factor, so nondegeneracy too. */
  lemma AreaRotation(a: Vector3, b: Vector3, c: Vector3)
    ensures AreaFactor(b, c, a) == AreaFactor(a, b, c)
  {
    NormalRotation(a, b, c);
  }

  lemma EdgesFromA(a: Vector3, b: Vector3, c: Vector3)
    requires Nondegenerate(a, b, c)
    ensures SqrDistance(a, b) > 0.0 && SqrDistance(a, c) > 0.0
  {
    NormalAsCross(a, b, c);
    Lagrange(Sub(b, a), Sub(c, a));
    SqrMagnitudeNonneg(Sub(b, a));
    SqrMagnitudeNonneg(Sub(c, a));
    PositiveFactors(AreaFactor(a, b, c), SqrDistance(a, b), SqrDistance(a, c), Corner(a, b, c));
  }

  /** A nondegenerate triangle has three edges of positive length, hence three distinct vertices. */
  lemma EdgeLengths(a: Vector3, b: Vector3, c: Vector3)
    requires Nondegenerate(a, b, c)
    ensures SqrDistance(a, b) > 0.0 && SqrDistance(b, c) > 0.0 && SqrDistance(c, a) > 0.0
    ensures Distinct(a, b, c)
  {
    EdgesFromA(a, b, c);
    AreaRotation(a, b, c);
    EdgesFromA(b, c, a);
    RotatedLengths(a, b, c);
  }

  /** Where the projection parameter `((p - a) . (b - a)) / |b - a|^2` of the query on
   *  edge `ab` lies relative to 0 and 1, read off the side values: at or before `a`
   *  exactly when `y (A + B) + z A <= 0`, at or beyond `b` exactly when
   *  `x (A + B) + z B <= 0`, with `x`, `y`, `z` the side values of the edges opposite
   *  `a`, `b`, `c` and `A`, `B` the corners at `a` and `b`. */
  lemma ParameterSigns(a: Vector3, b: Vector3, c: Vector3, p: Vector3)
    requires Nondegenerate(a, b, c)
    ensures SqrDistance(a, b) > 0.0
    ensures Reach(a, b, p) / SqrDistance(a, b) <= 0.0
        <==> Side(c, a, b, p) * (Corner(a, b, c) + Corner(b, c, a)) + Side(a, b, c, p) * Corner(a, b, c) <= 0.0
    ensures Reach(a, b, p) / SqrDistance(a, b) < 0.0
        <==> Side(c, a, b, p) * (Corner(a, b, c) + Corner(b, c, a)) + Side(a, b, c, p) * Corner(a, b, c) < 0.0
    ensures Reach(a, b, p) / SqrDistance(a, b) >= 1.0
        <==> Side(b, c, a, p) * (Corner(a, b, c) + Corner(b, c, a)) + Side(a, b, c, p) * Corner(b, c, a) <= 0.0
    ensures Reach(a, b, p) / SqrDistance(a, b) > 1.0
        <==> Side(b, c, a, p) * (Corner(a, b, c) + Corner(b, c, a)) + Side(a, b, c, p) * Corner(b, c, a) < 0.0
  {
    EdgeLengths(a, b, c);
    Frame(a, b, c, p);
    var uu, d := SqrDistance(a, b), Reach(a, b, p);
    RatioSign(d / uu, d, uu);
    ScaledSign(AreaFactor(a, b, c), d, Side(c, a, b, p) * (Corner(a, b, c) + Corner(b, c, a)) + Side(a, b, c, p) * Corner(a, b, c));
    ScaledSign(AreaFactor(a, b, c), uu - d, Side(b, c, a, p) * (Corner(a, b, c) + Corner(b, c, a)) + Side(a, b, c, p) * Corner(b, c, a));
  }

  /** The side values and corners of a nondegenerate triangle have the shape the
   *  region analysis of `Regions` assumes. */
  lemma RegionShape(a: Vector3, b: Vector3, c: Vector3, p: Vector3)
    requires Nondegenerate(a, b, c)
    ensures Regions.Shape(Side(b, c, a, p), Side(c, a, b, p), Side(a, b, c, p), Corner(a, b, c), Corner(b, c, a), Corner(c, a, b))
  {
    EdgeLengths(a, b, c);
    AreaRotation(a, b, c);
    AreaRotation(b, c, a);
    Frame(a, b, c, p);
    Frame(b, c, a, p);
    Frame(c, a, b, p);
  }

  // ---------------------------------------------------------------------------
  // Moving the query along the normal

  /** Moving a point along the normal does not change its side value. */
  lemma SideShift(a: Vector3, b: Vector3, c: Vector3, p: Vector3, k: real)
    ensures Side(a, b, c, Add(p, Scale(k, Normal(a, b, c)))) == Side(a, b, c, p)
  {
    var n := Normal(a, b, c);
    var m := Cross(n, Sub(b, a));
    assert Sub(Add(p, Scale(k, n)), a) == Add(Sub(p, a), Scale(k, n));
    DotSymmetric(m, Add(Sub(p, a), Scale(k, n)));
    DotAdd(Sub(p, a), Scale(k, n), m);
    DotScale(k, n, m);
    CrossOrthogonal(n, Sub(b, a));
    DotSymmetric(n, m);
    DotSymmetric(Sub(p, a), m);
  }

  // ---------------------------------------------------------------------------
  // Points of the triangle

  /** `(a + s (b - a) + t (c - a) - a) . w = s ((b - a) . w) + t ((c - a) . w)`. */
  lemma TrianglePointDot(a: Vector3, b: Vector3, c: Vector3, s: real, t: real, w: Vector3)
    ensures Dot(Sub(TrianglePoint(a, b, c, s, t), a), w) == s * Dot(Sub(b, a), w) + t * Dot(Sub(c, a), w)
  {
    assert Sub(TrianglePoint(a, b, c, s, t), a) == Add(Scale(s, Sub(b, a)), Scale(t, Sub(c, a)));
    DotAdd(Scale(s, Sub(b, a)), Scale(t, Sub(c, a)), w);
    DotScale(s, Sub(b, a), w);
    DotScale(t, Sub(c, a), w);
  }

  /** Every point `a + s (b - a) + t (c - a)` lies in the plane of the triangle. */
  lemma TrianglePointInPlane(a: Vector3, b: Vector3, c: Vector3, s: real, t: real)
    ensures InPlane(a, b, c, TrianglePoint(a, b, c, s, t))
  {
    var n := Normal(a, b, c);
    TrianglePointDot(a, b, c, s, t, n);
    NormalAsCross(a, b, c);
    CrossOrthogonal(Sub(b, a), Sub(c, a));
    DotSymmetric(Sub(b, a), n);
    DotSymmetric(Sub(c, a), n);
  }

  /** The same point written from vertex `b` and from vertex `c`. */
  lemma TrianglePointRotation(a: Vector3, b: Vector3, c: Vector3, s: real, t: real)
    ensures TrianglePoint(a, b, c, s, t) == TrianglePoint(b, c, a, t, 1.0 - s - t)
    ensures TrianglePoint(a, b, c, s, t) == TrianglePoint(c, a, b, 1.0 - s - t, s)
  {
    TrianglePointComponents(a, b, c, s, t);
    TrianglePointComponents(b, c, a, t, 1.0 - s - t);
    TrianglePointComponents(c, a, b, 1.0 - s - t, s);
    RotationComponent(a.x, b.x, c.x, s, t);
    RotationComponent(a.y, b.y, c.y, s, t);
    RotationComponent(a.z, b.z, c.z, s, t);
  }

  /** One coordinate of `TrianglePoint`. */
  function Weighted(a: real, b: real, c: real, s: real, t: real): real {
    a + (s * (b - a) + t * (c - a))
  }

  lemma TrianglePointComponents(a: Vector3, b: Vector3, c: Vector3, s: real, t: real)
    ensures TrianglePoint(a, b, c, s, t)
         == Vector3(Weighted(a.x, b.x, c.x, s, t), Weighted(a.y, b.y, c.y, s, t), Weighted(a.z, b.z, c.z, s, t))
  {
  }

  /** One coordinate of `TrianglePointRotation`. */
  lemma RotationComponent(a: real, b: real, c: real, s: real, t: real)
    ensures Weighted(a, b, c, s, t) == Weighted(b, c, a, t, 1.0 - s - t)
    ensures Weighted(a, b, c, s, t) == Weighted(c, a, b, 1.0 - s - t, s)
  {
  }

  /** The side value of edge `ab` at `a + s (b - a) + t (c - a)` is `t` times the area factor. */
  lemma TrianglePointSide(a: Vector3, b: Vector3, c: Vector3, s: real, t: real)
    ensures Side(a, b, c, TrianglePoint(a, b, c, s, t)) == t * AreaFactor(a, b, c)
    ensures t >= 0.0 ==> Side(a, b, c, TrianglePoint(a, b, c, s, t)) >= 0.0
  {
    var q := TrianglePoint(a, b, c, s, t);
    var uu, vv, A := SqrDistance(a, b), SqrDistance(a, c), Corner(a, b, c);
    SideFormula(a, b, c, q);
    TrianglePointReaches(a, b, c, s, t);
    NormalAsCross(a, b, c);
    Lagrange(Sub(b, a), Sub(c, a));
    SideFromReaches(uu, vv, A, s, t, Reach(a, b, q), Reach(a, c, q), Side(a, b, c, q), AreaFactor(a, b, c));
    if t >= 0.0 {
      SqrMagnitudeNonneg(Normal(a, b, c));
      MulNonneg(t, AreaFactor(a, b, c));
    }
  }

  /** How far `a + s (b - a) + t (c - a)` reaches along the two edges at `a`. */
  lemma TrianglePointReaches(a: Vector3, b: Vector3, c: Vector3, s: real, t: real)
    ensures Reach(a, b, TrianglePoint(a, b, c, s, t)) == s * SqrDistance(a, b) + t * Corner(a, b, c)
    ensures Reach(a, c, TrianglePoint(a, b, c, s, t)) == s * Corner(a, b, c) + t * SqrDistance(a, c)
  {
    TrianglePointDot(a, b, c, s, t, Sub(b, a));
    TrianglePointDot(a, b, c, s, t, Sub(c, a));
    DotSymmetric(Sub(c, a), Sub(b, a));
  }

  lemma SideFromReaches(uu: real, vv: real, A: real, s: real, t: real, r1: real, r2: real, side: real, g: real)
    requires r1 == s * uu + t * A && r2 == s * A + t * vv
    requires side == uu * r2 - A * r1 && g == uu * vv - A * A
    ensures side == t * g
  {
    MulEq(uu, uu, r2, s * A + t * vv);
    MulEq(A, A, r1, s * uu + t * A);
    MulEq(t, t, g, uu * vv - A * A);
  }

  /** Every point with coefficients in the simplex lies in the triangle. */
  lemma TrianglePointInTriangle(a: Vector3, b: Vector3, c: Vector3, s: real, t: real)
    requires InSimplex(s, t)
    ensures InTriangle(a, b, c, TrianglePoint(a, b, c, s, t))
  {
    TrianglePointInPlane(a, b, c, s, t);
    TrianglePointRotation(a, b, c, s, t);
    TrianglePointSide(a, b, c, s, t);
    TrianglePointSide(b, c, a, t, 1.0 - s - t);
    TrianglePointSide(c, a, b, 1.0 - s - t, s);
  }

  // ---------------------------------------------------------------------------
  // Nearest points

  /** `w . (alpha u + beta v) = alpha (w . u) + beta (w . v)`. */
  lemma DotCombination(alpha: real, u: Vector3, beta: real, v: Vector3, w: Vector3)
    ensures Dot(w, Add(Scale(alpha, u), Scale(beta, v))) == alpha * Dot(w, u) + beta * Dot(w, v)
  {
    DotSymmetric(w, Add(Scale(alpha, u), Scale(beta, v)));
    DotAdd(Scale(alpha, u), Scale(beta, v), w);
    DotScale(alpha, u, w);
    DotScale(beta, v, w);
    DotSymmetric(u, w);
    DotSymmetric(v, w);
  }

  /** Minimality does not depend on which vertex the triangle is written from. */
  lemma MinimalRotation(p: Vector3, r: Vector3, a: Vector3, b: Vector3, c: Vector3)
    requires Minimal(p, r, b, c, a)
    ensures Minimal(p, r, a, b, c)
  {
    forall s: real, t: real | InSimplex(s, t)
      ensures SqrDistance(p, r) <= SqrDistance(p, TrianglePoint(a, b, c, s, t))
    {
      TrianglePointRotation(a, b, c, s, t);
      assert InSimplex(t, 1.0 - s - t);
    }
  }

  /** A query that sees both edges at `a` at an obtuse or right angle is nearest to `a`. */
  lemma VertexMinimal(a: Vector3, b: Vector3, c: Vector3, p: Vector3)
    requires Reach(a, b, p) <= 0.0 && Reach(a, c, p) <= 0.0
    ensures Minimal(p, a, a, b, c)
  {
    var w := Sub(p, a);
    forall s: real, t: real | InSimplex(s, t)
      ensures SqrDistance(p, a) <= SqrDistance(p, TrianglePoint(a, b, c, s, t))
    {
      var q := TrianglePoint(a, b, c, s, t);
      TrianglePointDot(a, b, c, s, t, w);
      DotSymmetric(Sub(b, a), w);
      DotSymmetric(Sub(c, a), w);
      DotSymmetric(Sub(q, a), w);
      MulNonposNonneg(Reach(a, b, p), s);
      MulNonposNonneg(Reach(a, c, p), t);
      NoFartherThan(p, a, q);
    }
  }

  /** `(p - r) . (q - r)` for the foot `r = a + k (b - a)` on the line of edge `ab` and a
   *  point `q = a + s (b - a) + t (c - a)` of the plane. */
  lemma FootDot(a: Vector3, b: Vector3, c: Vector3, p: Vector3, k: real, s: real, t: real)
    ensures Dot(Sub(p, Add(a, Scale(k, Sub(b, a)))), Sub(TrianglePoint(a, b, c, s, t), Add(a, Scale(k, Sub(b, a)))))
         == FootValue(s, k, t, Reach(a, b, p), Reach(a, c, p), SqrDistance(a, b), Corner(a, b, c))
  {
    var u, v, w := Sub(b, a), Sub(c, a), Sub(p, a);
    var r := Add(a, Scale(k, u));
    var x := Add(Scale(s - k, u), Scale(t, v));
    assert Sub(p, r) == Sub(w, Scale(k, u));
    assert Sub(TrianglePoint(a, b, c, s, t), r) == x;
    DotSub(w, Scale(k, u), x);
    DotScale(k, u, x);
    DotCombination(s - k, u, t, v, w);
    DotCombination(s - k, u, t, v, u);
    FootPolynomial(s, k, t, Reach(a, b, p), Reach(a, c, p), SqrDistance(a, b), Corner(a, b, c), Dot(w, x), Dot(u, x));
  }

  /** The value of `FootDot` in terms of the reaches `d1`, `d2`, the squared length `uu`
   *  and the corner `A` at `a`. */
  function FootValue(s: real, k: real, t: real, d1: real, d2: real, uu: real, A: real): real {
    (s - k) * (d1 - k * uu) + t * (d2 - k * A)
  }

  lemma FootPolynomial(s: real, k: real, t: real, d1: real, d2: real, uu: real, A: real, P: real, Q: real)
    requires P == (s - k) * d1 + t * d2 && Q == (s - k) * uu + t * A
    ensures P - k * Q == FootValue(s, k, t, d1, d2, uu, A)
  {
    MulEq(k, k, Q, (s - k) * uu + t * A);
  }

  /** With `k uu = d1` and `uu d2 - A d1 <= 0`, the value of `FootDot` is never positive. */
  lemma FootSign(s: real, k: real, t: real, d1: real, d2: real, uu: real, A: real, z: real)
    requires uu > 0.0 && k == d1 / uu && z == uu * d2 - A * d1 && z <= 0.0 && t >= 0.0
    ensures FootValue(s, k, t, d1, d2, uu, A) <= 0.0
  {
    assert k * uu == d1;
    MulEq(s - k, s - k, d1 - k * uu, 0.0);
    MulEq(k * uu, d1, A, A);
    assert uu * (d2 - k * A) == z;
    ScaledSign(uu, d2 - k * A, z);
    MulNonposNonneg(d2 - k * A, t);
  }

  /** A query beyond edge `ab` (or level with it) is nearest to its foot on the line of
   *  the edge, among all points of the triangle. */
  lemma EdgeMinimal(a: Vector3, b: Vector3, c: Vector3, p: Vector3)
    requires SqrDistance(a, b) > 0.0 && Side(a, b, c, p) <= 0.0
    ensures Minimal(p, Add(a, Scale(Reach(a, b, p) / SqrDistance(a, b), Sub(b, a))), a, b, c)
  {
    var k := Reach(a, b, p) / SqrDistance(a, b);
    var r := Add(a, Scale(k, Sub(b, a)));
    SideFormula(a, b, c, p);
    forall s: real, t: real | InSimplex(s, t)
      ensures SqrDistance(p, r) <= SqrDistance(p, TrianglePoint(a, b, c, s, t))
    {
      FootDot(a, b, c, p, k, s, t);
      FootSign(s, k, t, Reach(a, b, p), Reach(a, c, p), SqrDistance(a, b), Corner(a, b, c), Side(a, b, c, p));
      NoFartherThan(p, r, TrianglePoint(a, b, c, s, t));
    }
  }

  /** A point of the plane reached from the query along the normal is nearest to it. */
  lemma FaceMinimal(a: Vector3, b: Vector3, c: Vector3, p: Vector3, k: real)
    requires InPlane(a, b, c, Add(p, Scale(k, Normal(a, b, c))))
    ensures Minimal(p, Add(p, Scale(k, Normal(a, b, c))), a, b, c)
  {
    var n := Normal(a, b, c);
    var f := Add(p, Scale(k, n));
    forall s: real, t: real | InSimplex(s, t)
      ensures SqrDistance(p, f) <= SqrDistance(p, TrianglePoint(a, b, c, s, t))
    {
      var q := TrianglePoint(a, b, c, s, t);
      TrianglePointInPlane(a, b, c, s, t);
      assert Sub(p, f) == Scale(-k, n);
      assert Sub(q, f) == Sub(Sub(q, a), Sub(f, a));
      DotSub(Sub(q, a), Sub(f, a), n);
      DotScale(-k, n, Sub(q, f));
      DotSymmetric(n, Sub(q, f));
      NoFartherThan(p, f, q);
    }
  }
}
