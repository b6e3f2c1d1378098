/**
 Facts about products, quotients and powers of ten that the fixed-point
 proofs share.  Each lemma is about variables only, so that no proof has to
 do nonlinear reasoning with the literal 10^18.
 */
module Arithmetic {

  /** 10^n */
  function Pow10(n: nat): (r: nat)
    ensures r > 0
  {
    if n == 0 then 1 else 10 * Pow10(n - 1)
  }

  lemma MulMono(a: nat, b: nat, c: nat)
    requires a <= b
    ensures a * c <= b * c
    ensures c * a <= c * b
  {
  }

  /** 10^(a+b) == 10^a * 10^b */
  lemma {:induction false} Pow10Adds(a: nat, b: nat)
    ensures Pow10(a + b) == Pow10(a) * Pow10(b)
  {
    if a == 0 {
    } else {
      Pow10Adds(a - 1, b);
      calc {
        Pow10(a + b);
        10 * Pow10(a - 1 + b);
        10 * (Pow10(a - 1) * Pow10(b));
        (10 * Pow10(a - 1)) * Pow10(b);
      }
    }
  }

  /** The only multiple of d strictly between -d and d is zero. */
  lemma SmallMultiple(k: int, d: int)
    requires d > 0
    requires -d < k * d < d
    ensures k == 0
  {
  }

  /** The quotient is the only q with q*d <= n < q*d + d. */
  lemma DivUnique(n: int, d: int, q: int)
    requires d > 0
    requires q * d <= n < q * d + d
    ensures n / d == q
  {
    DivBounds(n, d);
    var k := q - n / d;
    assert k * d == q * d - (n / d) * d;
    SmallMultiple(k, d);
  }

  lemma DivBounds(n: int, d: int)
    requires d > 0
    ensures (n / d) * d <= n < (n / d) * d + d
  {
  }

  /** q is at most the quotient exactly when q*d fits into n. */
  lemma DivAtLeast(n: int, d: int, q: int)
    requires d > 0
    ensures q <= n / d <==> q * d <= n
  {
    DivBounds(n, d);
    var k := n / d - q;
    assert k * d == (n / d) * d - q * d;
    if k >= 0 {
      assert k * d >= 0;
    } else {
      assert (-k) * d >= d by { MulMono(1, -k, d); }
      assert (-k) * d == -(k * d);
    }
  }

  lemma CancelFactor(x: int, y: int, k: int)
    requires k > 0 && x * k <= y * k
    ensures x <= y
  {
    DivAtLeast(y * k, k, x);
    DivUnique(y * k, k, y);
  }

  lemma DivMono(a: int, b: int, d: int)
    requires d > 0
    requires a <= b
    ensures a / d <= b / d
  {
    DivBounds(a, d);
    DivAtLeast(b, d, a / d);
  }

  lemma MulAssoc(a: int, b: int, c: int)
    ensures (a * b) * c == a * (b * c)
    ensures (a * b) * c == (a * c) * b
  {
  }

  lemma DivNonneg(n: nat, d: nat)
    requires d > 0
    ensures n / d >= 0
  {
  }

  /** If p brackets n in steps of a, and q brackets p in steps of b, then q brackets n in steps of b*a. */
  lemma NestedBrackets(n: nat, a: nat, b: nat, p: nat, q: nat)
    requires p * a <= n < p * a + a
    requires q * b <= p < q * b + b
    ensures (q * b) * a <= n < (q * b) * a + b * a
  {
    var qb := q * b;
    MulMono(qb, p, a);
    MulMono(p + 1, qb + b, a);
    assert (p + 1) * a == p * a + a;
    assert (qb + b) * a == qb * a + b * a;
  }

  /** Nested truncations collapse. */
  lemma DivDiv(n: nat, a: nat, b: nat)
    requires a > 0 && b > 0
    ensures a * b > 0
    ensures (n / a) / b == n / (a * b)
  {
    DivNonneg(n, a);
    var p := n / a;
    DivNonneg(p, b);
    var q := p / b;
    DivBounds(n, a);
    DivBounds(p, b);
    NestedBrackets(n, a, b, p, q);
    MulAssoc(q, b, a);
    assert a * b == b * a;
    DivUnique(n, a * b, q);
  }

  /** A common factor cancels. */
  lemma DivCancel(n: int, d: int, c: int)
    requires d > 0 && c > 0
    ensures d * c > 0
    ensures (n * c) / (d * c) == n / d
  {
    var q := n / d;
    DivBounds(n, d);
    assert q * (d * c) == (q * d) * c;
    assert (q * d) * c <= n * c by {
      assert (n - q * d) * c >= 0;
      assert (n - q * d) * c == n * c - (q * d) * c;
    }
    assert n * c < q * (d * c) + d * c by {
      assert (q * d + d - n) * c > 0;
      assert (q * d + d - n) * c == (q * d) * c + d * c - n * c;
    }
    DivUnique(n * c, d * c, q);
  }

  /** Adding a whole multiple of the divisor adds to the quotient. */
  lemma DivAddMultiple(k: int, d: int, n: int)
    requires d > 0
    ensures (k * d + n) / d == k + n / d
  {
    DivBounds(n, d);
    assert (k + n / d) * d == k * d + (n / d) * d;
    DivUnique(k * d + n, d, k + n / d);
  }

  lemma RealMulNonneg(x: real, y: real)
    requires x >= 0.0 && y >= 0.0
    ensures x * y >= 0.0
  {
  }

  lemma RealMulMono(x: real, y: real, z: real)
    requires x <= y && z >= 0.0
    ensures x * z <= y * z
    ensures z * x <= z * y
  {
  }

  /** Multiplying by a number in [0, 1] moves towards zero. */
  lemma UnitFactor(u: real, d: real)
    requires 0.0 <= u <= 1.0
    ensures d >= 0.0 ==> 0.0 <= u * d <= d
    ensures d <= 0.0 ==> d <= u * d <= 0.0
  {
  }
}
