/** The outcome of an operation that may throw (or revert). */
module Outcomes {
  datatype Result<+T> = Ok(value: T) | Err

  datatype Option<+T> = Some(value: T) | None
}

/**
 The fixed-point arithmetic of `Decimal`.

 A Decimal is represented by its `_bigNumber`: a natural number that counts
 units of 10^-18.  BigNumber is unbounded, and so is `nat`.
 */
module Decimal {
  import opened Arithmetic
  import opened Outcomes

  const PRECISION: nat := 18
  const DIGITS: nat := 1_000_000_000_000_000_000
  const HALF: nat := 500_000_000_000_000_000
  const ONE: nat := DIGITS

  /** MAX_UINT_256 */
  const INFINITY: nat := 0xffff_ffff_ffff_ffff_ffff_ffff_ffff_ffff_ffff_ffff_ffff_ffff_ffff_ffff_ffff_ffff

  /** A Decimal never holds a negative number, so subtraction throws on underflow. */
  function Sub(a: nat, b: nat): Result<nat> {
    if b <= a then Ok(a - b) else Err
  }

  function Mul(a: nat, b: nat): nat {
    (a * b) / DIGITS
  }

  function Div(a: nat, b: nat): nat {
    if b == 0 then INFINITY else (a * DIGITS) / b
  }

  function DivCeil(a: nat, b: nat): nat {
    if b == 0 then INFINITY else (a * DIGITS + (b - 1)) / b
  }

  function MulDiv(a: nat, b: nat, c: nat): nat {
    if c == 0 then INFINITY else (a * b) / c
  }

  function Min(a: nat, b: nat): nat {
    if a < b then a else b
  }

  lemma MulMonotone(a: nat, a': nat, b: nat, b': nat)
    requires a <= a' && b <= b'
    ensures Mul(a, b) <= Mul(a', b')
  {
    MulMono(a, a', b);
    MulMono(b, b', a');
    DivMono(a * b, a' * b', DIGITS);
  }

  lemma MulAtLeast(x: nat, b: nat, a: nat)
    ensures a <= Mul(x, b) <==> a * DIGITS <= x * b
  {
  }

  lemma DivCeilAtMost(n: nat, b: nat, x: nat)
    requires b > 0
    ensures (n + (b - 1)) / b <= x <==> n <= x * b
  {
    DivAtLeast(n + (b - 1), b, x + 1);
    assert (x + 1) * b == x * b + b;
  }

  /**
   Rounding-down multiplication and rounding-up division form a Galois
   connection: `_divCeil` is the least factor whose product reaches `a`.
   */
  lemma MulReachesExactlyFromDivCeil(x: nat, a: nat, b: nat)
    requires b > 0
    ensures Mul(x, b) >= a <==> x >= DivCeil(a, b)
  {
    MulAtLeast(x, b, a);
    DivCeilAtMost(a * DIGITS, b, x);
  }

  /** Dividing and multiplying back brackets the dividend from both sides. */
  lemma DivMulBrackets(a: nat, b: nat)
    requires b > 0
    ensures Mul(Div(a, b), b) <= a <= Mul(DivCeil(a, b), b)
  {
  }

  /**
   `a.mul(b).div(c)` truncates twice and `a.mulDiv(b, c)` once: the former
   never exceeds the latter and loses less than DIGITS/c + 1 units.
   */
  lemma MulThenDivAgainstMulDiv(a: nat, b: nat, c: nat)
    requires c > 0
    ensures Div(Mul(a, b), c) <= MulDiv(a, b, c)
    ensures (MulDiv(a, b, c) - Div(Mul(a, b), c)) * c < DIGITS + c
  {
    var p := a * b;
    var q := Mul(a, b) * DIGITS;
    DivBounds(p, DIGITS);
    assert q <= p < q + DIGITS;
    DivMono(q, p, c);
    DivBounds(p, c);
    DivBounds(q, c);
    assert (p / c - q / c) * c == (p / c) * c - (q / c) * c;
  }
}
