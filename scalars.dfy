/** Sign and product facts about real numbers that the nonlinear steps of the
 *  geometric proofs are broken into. */
module Scalars {

  /** Equals times equals: lets a product of two defined quantities be rewritten
   *  into the product of their definitions. */
  lemma MulEq(a: real, b: real, c: real, d: real)
    requires a == b && c == d
    ensures a * c == b * d
  {
  }

  lemma DivEq(a: real, b: real, c: real, d: real)
    requires a == b && c == d && c != 0.0
    ensures a / c == b / d
  {
  }

  /** Dividing by a nonzero number and multiplying back gives the number divided. */
  lemma DivCancel(e: real, m: real)
    requires m != 0.0
    ensures (e / m) * m == e
  {
  }

  /** A factor recovered from its product: `u` is the quotient `d / n`. */
  lemma QuotientOf(u: real, d: real, n: real)
    requires n != 0.0 && u * n == d
    ensures d / n == u
  {
  }

  lemma MulPos(a: real, b: real)
    requires a > 0.0 && b > 0.0
    ensures a * b > 0.0
  {
  }

  lemma MulNegPos(a: real, b: real)
    requires a < 0.0 && b > 0.0
    ensures a * b < 0.0
  {
  }

  lemma MulNonneg(a: real, b: real)
    requires a >= 0.0 && b >= 0.0
    ensures a * b >= 0.0
  {
    if a > 0.0 && b > 0.0 {
      MulPos(a, b);
    }
  }

  lemma MulNonposNonneg(a: real, b: real)
    requires a <= 0.0 && b >= 0.0
    ensures a * b <= 0.0
  {
    MulNonneg(-a, b);
  }

  lemma MulLe(a: real, b: real, c: real)
    requires a <= b && c > 0.0
    ensures a * c <= b * c
  {
    if a < b {
      MulPos(b - a, c);
    }
  }

  lemma MulLt(a: real, b: real, c: real)
    requires a < b && c > 0.0
    ensures a * c < b * c
  {
    MulPos(b - a, c);
  }

  /** Cancelling a positive factor from both sides of an inequality. */
  lemma LeCancel(a: real, b: real, c: real)
    requires a * c <= b * c && c > 0.0
    ensures a <= b
  {
    if a > b {
      MulLt(b, a, c);
    }
  }

  /** A positive product has factors of the same sign. */
  lemma ProductSigns(a: real, b: real)
    requires a * b > 0.0
    ensures (a > 0.0 && b > 0.0) || (a < 0.0 && b < 0.0)
  {
    if a > 0.0 && b < 0.0 {
      MulNegPos(b, a);
    } else if a < 0.0 && b > 0.0 {
      MulNegPos(a, b);
    }
  }

  lemma ZeroProduct(a: real, b: real)
    requires a * b == 0.0 && a > 0.0
    ensures b == 0.0
  {
    if b > 0.0 {
      MulPos(a, b);
    } else if b < 0.0 {
      MulPos(a, -b);
    }
  }

  /** Multiplying by a positive factor keeps the sign. */
  lemma ScaledSign(g: real, d: real, y: real)
    requires g > 0.0 && g * d == y
    ensures (y <= 0.0 <==> d <= 0.0) && (y < 0.0 <==> d < 0.0)
  {
    if d > 0.0 {
      MulPos(g, d);
    } else if d < 0.0 {
      MulPos(g, -d);
    }
  }

  /** How the ratio `d / n` compares with 0 and 1, read off `d` itself. */
  lemma RatioSign(q: real, d: real, n: real)
    requires n > 0.0 && q == d / n
    ensures (q <= 0.0 <==> d <= 0.0) && (q < 0.0 <==> d < 0.0)
    ensures (q >= 1.0 <==> d >= n) && (q > 1.0 <==> d > n)
  {
    assert q * n == d;
    ScaledSign(n, q, d);
    assert n * (q - 1.0) == d - n;
    ScaledSign(n, q - 1.0, d - n);
  }

  lemma SquareNonneg(a: real)
    ensures a * a >= 0.0
  {
    if a < 0.0 {
      MulPos(-a, -a);
    } else {
      MulNonneg(a, a);
    }
  }

  /** If `uu vv - A^2` is positive for non-negative `uu` and `vv`, both are positive. */
  lemma PositiveFactors(g: real, uu: real, vv: real, A: real)
    requires g == uu * vv - A * A && g > 0.0 && uu >= 0.0 && vv >= 0.0
    ensures uu > 0.0 && vv > 0.0
  {
    SquareNonneg(A);
    if uu == 0.0 || vv == 0.0 {
      MulEq(uu, uu, vv, vv);
    }
  }
}
