module Regions {
  import opened Scalars

  predicate VertexFires(x: real, y: real, z: real, A: real, B: real, C: real) {
    z * (C + A) + y * A <= 0.0 && y * (A + B) + z * A <= 0.0
  }

  predicate EdgeFires(x: real, y: real, z: real, A: real, B: real, C: real) {
    y * (A + B) + z * A > 0.0 && x * (A + B) + z * B > 0.0 && z <= 0.0
  }

  predicate Shape(x: real, y: real, z: real, A: real, B: real, C: real) {
    A + B > 0.0 && B + C > 0.0 && C + A > 0.0 &&
    A * B + B * C + C * A > 0.0 && x + y + z == A * B + B * C + C * A
  }

  /** The algebraic heart of the cover: for a nondegenerate triangle, a ratio bounded
   *  by `h X / (X + Y)` is also bounded by `h (X + Z) / X`. */
  lemma Core(k: real, h: real, X: real, Y: real, Z: real)
    requires X > 0.0 && h > 0.0 && X + Y > 0.0 && X + Z > 0.0
    requires X * Y + Y * Z + Z * X > 0.0
    requires k * (X + Y) <= h * X
    ensures k * X <= h * (X + Z)
  {
    MulLe(k * (X + Y), h * X, X);
    assert (h * X) * X - (h * (X + Z)) * (X + Y) == -(h * (X * Y + Y * Z + Z * X));
    MulPos(h, X * Y + Y * Z + Z * X);
    assert (k * X) * (X + Y) == (k * (X + Y)) * X;
    LeCancel(k * X, h * (X + Z), X + Y);
  }

  /** Behind vertex `a` along `ab` and outside `ab`, a failed vertex-`a` test
   *  leaves `y` and `A` both negative. */
  lemma NotVertexA(x: real, y: real, z: real, A: real, B: real, C: real)
    requires Shape(x, y, z, A, B, C)
    requires z < 0.0 && y * (A + B) + z * A <= 0.0
    requires z * (C + A) + y * A > 0.0
    ensures y < 0.0 && A < 0.0
  {
    MulNegPos(z, C + A);
    ProductSigns(y, A);
    if A > 0.0 {
      Core(y, -z, A, B, C);
    }
  }

  /** With `y` and `A` negative, edge `ca` or vertex `c` claims the query. */
  lemma EdgeCAOrVertexC(x: real, y: real, z: real, A: real, B: real, C: real)
    requires Shape(x, y, z, A, B, C)
    requires z < 0.0 && y < 0.0 && A < 0.0
    requires z * (C + A) + y * A > 0.0
    ensures EdgeFires(z, x, y, C, A, B) || VertexFires(z, x, y, C, A, B)
  {
    if x * (C + A) + y * C <= 0.0 && y * (B + C) + x * C > 0.0 {
      Core(x, -y, C, A, B);
    }
  }

  /** Query behind vertex `a` along edge `ab` and outside edge `ab`: vertex `a`,
   *  edge `ca` or vertex `c` claims it. */
  lemma BehindA(x: real, y: real, z: real, A: real, B: real, C: real)
    requires Shape(x, y, z, A, B, C)
    requires z < 0.0 && y * (A + B) + z * A <= 0.0
    ensures VertexFires(x, y, z, A, B, C) || EdgeFires(z, x, y, C, A, B) || VertexFires(z, x, y, C, A, B)
  {
    if !VertexFires(x, y, z, A, B, C) {
      NotVertexA(x, y, z, A, B, C);
      EdgeCAOrVertexC(x, y, z, A, B, C);
    }
  }

  /** A query strictly outside edge `ab` is claimed by a vertex test or an edge test. */
  lemma OutsideAB(x: real, y: real, z: real, A: real, B: real, C: real)
    requires Shape(x, y, z, A, B, C)
    requires z < 0.0
    ensures VertexFires(x, y, z, A, B, C) || VertexFires(y, z, x, B, C, A) || VertexFires(z, x, y, C, A, B)
         || EdgeFires(x, y, z, A, B, C) || EdgeFires(y, z, x, B, C, A) || EdgeFires(z, x, y, C, A, B)
  {
    if y * (A + B) + z * A <= 0.0 {
      BehindA(x, y, z, A, B, C);
    } else if x * (A + B) + z * B <= 0.0 {
      BehindA(y, x, z, B, A, C);
    }
  }

  predicate AnyFires(x: real, y: real, z: real, A: real, B: real, C: real) {
    VertexFires(x, y, z, A, B, C) || VertexFires(y, z, x, B, C, A) || VertexFires(z, x, y, C, A, B)
    || EdgeFires(x, y, z, A, B, C) || EdgeFires(y, z, x, B, C, A) || EdgeFires(z, x, y, C, A, B)
  }

  /** When no vertex test and no edge test claims the query, all three side
   *  values are non-negative: the query projects into the triangle. */
  lemma Cover(x: real, y: real, z: real, A: real, B: real, C: real)
    requires Shape(x, y, z, A, B, C)
    requires !AnyFires(x, y, z, A, B, C)
    ensures x >= 0.0 && y >= 0.0 && z >= 0.0
  {
    if z < 0.0 {
      OutsideAB(x, y, z, A, B, C);
    }
    if x < 0.0 {
      OutsideAB(y, z, x, B, C, A);
    }
    if y < 0.0 {
      OutsideAB(z, x, y, C, A, B);
    }
  }
}
