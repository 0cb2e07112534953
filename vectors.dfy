/** Exact-arithmetic stand-in for the engine's `Vector3`: a point or direction with
 *  three real coordinates, the vector operations the closest-point routines use,
 *  and the algebraic identities their proofs rest on. */
module Vectors {
  import opened Scalars

  datatype Vector3 = Vector3(x: real, y: real, z: real)

  function Add(u: Vector3, v: Vector3): Vector3 {
    Vector3(u.x + v.x, u.y + v.y, u.z + v.z)
  }

  function Sub(u: Vector3, v: Vector3): Vector3 {
    Vector3(u.x - v.x, u.y - v.y, u.z - v.z)
  }

  function Scale(t: real, v: Vector3): Vector3 {
    Vector3(t * v.x, t * v.y, t * v.z)
  }

  function Dot(u: Vector3, v: Vector3): real {
    u.x * v.x + u.y * v.y + u.z * v.z
  }

  /** Right-handed cross product, component for component as the engine computes it. */
  function Cross(u: Vector3, v: Vector3): Vector3 {
    Vector3(u.y * v.z - u.z * v.y, u.z * v.x - u.x * v.z, u.x * v.y - u.y * v.x)
  }

  /** Squared length. */
  function SqrMagnitude(v: Vector3): real {
    Dot(v, v)
  }

  /** Squared length is never negative. */
  lemma SqrMagnitudeNonneg(v: Vector3)
    ensures SqrMagnitude(v) >= 0.0
  {
    if v != Vector3(0.0, 0.0, 0.0) {
      NonzeroPositive(v);
    }
  }

  /** A nonzero vector has positive squared length. */
  lemma NonzeroPositive(v: Vector3)
    requires v != Vector3(0.0, 0.0, 0.0)
    ensures SqrMagnitude(v) > 0.0
  {
    assert v == Vector3(v.x, v.y, v.z);
    calc {
      SqrMagnitude(v);
    ==
      v.x * v.x + v.y * v.y + v.z * v.z;
    >
      0.0;
    }
  }

  /** Only the zero vector has squared length zero. */
  lemma SqrMagnitudeZero(v: Vector3)
    requires SqrMagnitude(v) == 0.0
    ensures v == Vector3(0.0, 0.0, 0.0)
  {
    if v != Vector3(0.0, 0.0, 0.0) {
      NonzeroPositive(v);
    }
  }

  /** Distinct points are a positive squared distance apart. */
  lemma DistinctApart(p: Vector3, q: Vector3)
    requires p != q
    ensures SqrDistance(p, q) > 0.0
  {
    assert p == Vector3(p.x, p.y, p.z) && q == Vector3(q.x, q.y, q.z);
    NonzeroPositive(Sub(q, p));
  }

  /** `(q - p).sqrMagnitude`, the quantity both routines compare. */
  function SqrDistance(p: Vector3, q: Vector3): real {
    SqrMagnitude(Sub(q, p))
  }

  /** The engine's `Vector3.ProjectOnPlane(v, n)`: `v` minus its component along `n`,
   *  so the result is orthogonal to `n` and differs from `v` by a multiple of `n`.
   *  The engine returns `v` unchanged when `n` is (numerically) zero; here that
   *  cut-off is exact. */
  function ProjectOnPlane(v: Vector3, n: Vector3): (r: Vector3)
    ensures SqrMagnitude(n) == 0.0 ==> r == v
    ensures SqrMagnitude(n) > 0.0 ==> Dot(r, n) == 0.0
    ensures Cross(Sub(v, r), n) == Vector3(0.0, 0.0, 0.0)
  {
    var nn := SqrMagnitude(n);
    if nn == 0.0 then v
    else
      var k := Dot(v, n) / nn;
      DotSub(v, Scale(k, n), n);
      DotScale(k, n, n);
      Sub(v, Scale(k, n))
  }

  // ---------------------------------------------------------------------------
  // Identities of the dot and cross products

  lemma DotSymmetric(u: Vector3, v: Vector3)
    ensures Dot(u, v) == Dot(v, u)
  {
  }

  lemma DotAdd(u: Vector3, v: Vector3, w: Vector3)
    ensures Dot(Add(u, v), w) == Dot(u, w) + Dot(v, w)
  {
  }

  lemma DotSub(u: Vector3, v: Vector3, w: Vector3)
    ensures Dot(Sub(u, v), w) == Dot(u, w) - Dot(v, w)
  {
  }

  lemma DotScale(t: real, u: Vector3, w: Vector3)
    ensures Dot(Scale(t, u), w) == t * Dot(u, w)
  {
  }

  /** The cross product is orthogonal to both of its factors. */
  lemma CrossOrthogonal(u: Vector3, v: Vector3)
    ensures Dot(Cross(u, v), u) == 0.0 && Dot(Cross(u, v), v) == 0.0
  {
  }

  /** Lagrange's identity: `|u x v|^2 = |u|^2 |v|^2 - (u . v)^2`. */
  lemma Lagrange(u: Vector3, v: Vector3)
    ensures SqrMagnitude(Cross(u, v)) == SqrMagnitude(u) * SqrMagnitude(v) - Dot(u, v) * Dot(u, v)
  {
  }

  lemma CrossCrossDotLeft(u: Vector3, v: Vector3, w: Vector3)
    ensures Dot(Cross(Cross(u, v), u), w) == ((u.z * v.x - u.x * v.z) * u.z - (u.x * v.y - u.y * v.x) * u.y) * w.x
           + ((u.x * v.y - u.y * v.x) * u.x - (u.y * v.z - u.z * v.y) * u.z) * w.y
           + ((u.y * v.z - u.z * v.y) * u.y - (u.z * v.x - u.x * v.z) * u.x) * w.z
  {
  }

  lemma CrossCrossDotRight(u: Vector3, v: Vector3, w: Vector3)
    ensures SqrMagnitude(u) * Dot(w, v) - Dot(u, v) * Dot(w, u) == (u.x * u.x + u.y * u.y + u.z * u.z) * (w.x * v.x + w.y * v.y + w.z * v.z)
            - (u.x * v.x + u.y * v.y + u.z * v.z) * (w.x * u.x + w.y * u.y + w.z * u.z)
  {
    MulEq(SqrMagnitude(u), u.x * u.x + u.y * u.y + u.z * u.z, Dot(w, v), w.x * v.x + w.y * v.y + w.z * v.z);
    MulEq(Dot(u, v), u.x * v.x + u.y * v.y + u.z * v.z, Dot(w, u), w.x * u.x + w.y * u.y + w.z * u.z);
  }

  lemma CrossCrossDotMiddle(u: Vector3, v: Vector3, w: Vector3)
    ensures ((u.z * v.x - u.x * v.z) * u.z - (u.x * v.y - u.y * v.x) * u.y) * w.x
           + ((u.x * v.y - u.y * v.x) * u.x - (u.y * v.z - u.z * v.y) * u.z) * w.y
           + ((u.y * v.z - u.z * v.y) * u.y - (u.z * v.x - u.x * v.z) * u.x) * w.z == (u.x * u.x + u.y * u.y + u.z * u.z) * (w.x * v.x + w.y * v.y + w.z * v.z)
            - (u.x * v.x + u.y * v.y + u.z * v.z) * (w.x * u.x + w.y * u.y + w.z * u.z)
  {
  }

  /** `((u x v) x u) . w = |u|^2 (w . v) - (u . v)(w . u)`: how far `w` reaches, inside the
   *  plane of `u` and `v`, towards the side of `u` where `v` lies. The three helpers
   *  expand the two sides into coordinates and equate the expansions. */
  lemma CrossCrossDot(u: Vector3, v: Vector3, w: Vector3)
    ensures Dot(Cross(Cross(u, v), u), w) == SqrMagnitude(u) * Dot(w, v) - Dot(u, v) * Dot(w, u)
  {
    CrossCrossDotLeft(u, v, w);
    CrossCrossDotRight(u, v, w);
    CrossCrossDotMiddle(u, v, w);
  }

  /** `|q - p|^2 = |r - p|^2 + 2 (p - r).(r - q) + |q - r|^2` for any intermediate point `r`. */
  lemma DistanceSplit(p: Vector3, r: Vector3, q: Vector3)
    ensures SqrDistance(p, q) == SqrDistance(p, r) + 2.0 * Dot(Sub(p, r), Sub(r, q)) + SqrDistance(r, q)
  {
  }

  /** No point other than `q` itself is as close to `q` as `q` is. */
  lemma OnlyItselfAtZero(q: Vector3, r: Vector3, w: Vector3)
    requires w == q && SqrDistance(q, r) <= SqrDistance(q, w)
    ensures r == q
  {
    if r != q {
      DistinctApart(q, r);
      SelfDistance(q);
    }
  }

  lemma SelfDistance(q: Vector3)
    ensures SqrDistance(q, q) == 0.0
  {
    assert Sub(q, q) == Vector3(0.0, 0.0, 0.0);
  }

  /** A point `r` that sees `p` and `q` at an obtuse or right angle is no farther from `p` than `q` is. */
  lemma NoFartherThan(p: Vector3, r: Vector3, q: Vector3)
    requires Dot(Sub(p, r), Sub(q, r)) <= 0.0
    ensures SqrDistance(p, r) <= SqrDistance(p, q)
  {
    DistanceSplit(p, r, q);
    assert Dot(Sub(p, r), Sub(r, q)) == -Dot(Sub(p, r), Sub(q, r));
  }

  // ---------------------------------------------------------------------------
  // Positive rescaling of a normal, which is what `.normalized` does to a nonzero vector

  lemma ScaleScale(c: real, k: real, n: Vector3)
    ensures Scale(c, Scale(k, n)) == Scale(c * k, n)
  {
  }

  lemma SqrMagnitudeScale(k: real, n: Vector3)
    ensures SqrMagnitude(Scale(k, n)) == k * k * SqrMagnitude(n)
  {
    MulEq(k * k, k * k, SqrMagnitude(n), n.x * n.x + n.y * n.y + n.z * n.z);
  }

  lemma DotScaleRight(v: Vector3, k: real, n: Vector3)
    ensures Dot(v, Scale(k, n)) == k * Dot(v, n)
  {
    MulEq(k, k, Dot(v, n), v.x * n.x + v.y * n.y + v.z * n.z);
  }

  /** Rescaling `n` by `k` rescales `(v . n) / |n|^2` by `1 / k`. */
  lemma RescaledCoefficient(d: real, nn: real, k: real, mm: real)
    requires nn > 0.0 && k > 0.0 && mm == k * k * nn && (mm > 0.0 || mm < 0.0)
    ensures (k * d) / mm * k == d / nn
  {
    var q := d / nn;
    var r := (k * d) / mm;
    assert q * nn == d;
    assert r * mm == k * d;
    assert (r * k - q) * (k * nn) == 0.0;
    MulPos(k, nn);
    ZeroProduct(k * nn, r * k - q);
  }

  /** Projecting onto the plane of `n` or onto that of any positive multiple of `n`
   *  (in particular `n.normalized`) gives the same point. */
  lemma ProjectOnPlaneRescaled(v: Vector3, n: Vector3, k: real)
    requires k > 0.0
    ensures ProjectOnPlane(v, Scale(k, n)) == ProjectOnPlane(v, n)
  {
    if SqrMagnitude(n) == 0.0 {
      ZeroRescaled(n, k);
    } else {
      SqrMagnitudeNonneg(n);
      NonzeroRescaled(v, n, k);
    }
  }

  lemma ZeroRescaled(n: Vector3, k: real)
    requires SqrMagnitude(n) == 0.0
    ensures Scale(k, n) == n
  {
    SqrMagnitudeZero(n);
  }

  lemma NonzeroRescaled(v: Vector3, n: Vector3, k: real)
    requires SqrMagnitude(n) > 0.0 && k > 0.0
    ensures ProjectOnPlane(v, Scale(k, n)) == ProjectOnPlane(v, n)
  {
    var m := Scale(k, n);
    var nn, mm := SqrMagnitude(n), SqrMagnitude(m);
    SqrMagnitudeScale(k, n);
    MulPos(k, nn);
    MulPos(k, k * nn);
    DotScaleRight(v, k, n);
    RescaledCoefficient(Dot(v, n), nn, k, mm);
    DivEq(Dot(v, m), k * Dot(v, n), mm, mm);
    var c := Dot(v, m) / mm;
    ScaleScale(c, k, n);
    MulEq(c, (k * Dot(v, n)) / mm, k, k);
    assert mm != 0.0;
    assert c * k == Dot(v, n) / nn;
    assert Scale(c, m) == Scale(Dot(v, n) / nn, n);
    assert ProjectOnPlane(v, m) == Sub(v, Scale(c, m));
  }

  lemma CrossRescaledLeft(m: Vector3, d: Vector3, q: Vector3, k: real)
    ensures Dot(Cross(Scale(k, m), d), q)
         == (k * m.y * d.z - k * m.z * d.y) * q.x + (k * m.z * d.x - k * m.x * d.z) * q.y
            + (k * m.x * d.y - k * m.y * d.x) * q.z
  {
  }

  lemma CrossRescaledRight(m: Vector3, d: Vector3, q: Vector3, k: real)
    ensures k * Dot(Cross(m, d), q)
         == k * ((m.y * d.z - m.z * d.y) * q.x + (m.z * d.x - m.x * d.z) * q.y + (m.x * d.y - m.y * d.x) * q.z)
  {
    MulEq(k, k, Dot(Cross(m, d), q), (m.y * d.z - m.z * d.y) * q.x + (m.z * d.x - m.x * d.z) * q.y + (m.x * d.y - m.y * d.x) * q.z);
  }

  /** The side-of-plane value `(m x d) . q` scales with `m`, so a positive rescaling of
   *  `m` keeps its sign. */
  lemma CrossRescaled(m: Vector3, d: Vector3, q: Vector3, k: real)
    ensures Dot(Cross(Scale(k, m), d), q) == k * Dot(Cross(m, d), q)
  {
    CrossRescaledLeft(m, d, q, k);
    CrossRescaledRight(m, d, q, k);
  }
}
