/**
 `Decimal.pow`: exponentiation by squaring in which every product is rounded
 to the nearest unit, and the on-chain `_decPow` it mirrors.
 */
module DecimalPow {
  import opened Arithmetic
  import opened Decimal
  import opened Outcomes

  /** The product rounded to the nearest unit, ties upwards. */
  function RoundedMul(x: nat, y: nat): nat {
    (x * y + HALF) / DIGITS
  }

  /** What the squaring loop returns when it is at `x`, `y` with exponent `n` to go. */
  function PowLoop(x: nat, y: nat, n: nat): nat
    requires n >= 1
    decreases n
  {
    if n == 1 then RoundedMul(x, y)
    else if n % 2 == 1 then PowLoop(RoundedMul(x, x), RoundedMul(x, y), n / 2)
    else PowLoop(RoundedMul(x, x), y, n / 2)
  }

  function Pow(base: nat, n: nat): nat {
    if n == 0 then ONE else PowLoop(base, DIGITS, n)
  }

  // ----- Rounding

  lemma RoundedMulByOne(x: nat)
    ensures RoundedMul(x, DIGITS) == x
    ensures RoundedMul(DIGITS, x) == x
  {
  }

  lemma RoundedMulMono(x: nat, x': nat, y: nat, y': nat)
    requires x <= x' && y <= y'
    ensures RoundedMul(x, y) <= RoundedMul(x', y')
  {
    MulMono(x, x', y);
    MulMono(y, y', x');
    DivMono(x * y + HALF, x' * y' + HALF, DIGITS);
  }

  /** Multiplying by at most ONE does not increase, by at least ONE does not decrease. */
  lemma RoundedMulAroundOne(x: nat, y: nat)
    ensures x <= DIGITS ==> RoundedMul(x, y) <= y && RoundedMul(y, x) <= y
    ensures x >= DIGITS ==> RoundedMul(x, y) >= y && RoundedMul(y, x) >= y
  {
  }

  // ----- Monotone in the base

  lemma {:induction false} PowLoopMono(x: nat, x': nat, y: nat, y': nat, n: nat)
    requires n >= 1
    requires x <= x' && y <= y'
    ensures PowLoop(x, y, n) <= PowLoop(x', y', n)
    decreases n
  {
    RoundedMulMono(x, x', y, y');
    if n > 1 {
      RoundedMulMono(x, x', x, x');
      if n % 2 == 1 {
        PowLoopMono(RoundedMul(x, x), RoundedMul(x', x'), RoundedMul(x, y), RoundedMul(x', y'), n / 2);
      } else {
        PowLoopMono(RoundedMul(x, x), RoundedMul(x', x'), y, y', n / 2);
      }
    }
  }

  /** For every exponent a larger base gives no smaller power. */
  lemma PowMonotoneInBase(a: nat, b: nat, n: nat)
    requires a <= b
    ensures Pow(a, n) <= Pow(b, n)
  {
    if n > 0 {
      PowLoopMono(a, b, DIGITS, DIGITS, n);
    }
  }

  lemma {:induction false} PowLoopOfOne(n: nat)
    requires n >= 1
    ensures PowLoop(DIGITS, DIGITS, n) == DIGITS
    decreases n
  {
    RoundedMulByOne(DIGITS);
    if n > 1 {
      PowLoopOfOne(n / 2);
    }
  }

  /** Powers stay on the side of ONE that their base is on. */
  lemma PowStaysOnItsSideOfOne(a: nat, n: nat)
    ensures a <= ONE ==> Pow(a, n) <= ONE
    ensures a >= ONE ==> Pow(a, n) >= ONE
  {
    if n > 0 {
      PowLoopOfOne(n);
      if a <= ONE { PowMonotoneInBase(a, ONE, n); }
      if a >= ONE { PowMonotoneInBase(ONE, a, n); }
    }
  }

  // ----- Antitone in the exponent

  /** One more squaring step from a unit accumulator is the same as starting with `z` accumulated. */
  lemma {:induction false} PowLoopShift(z: nat, n: nat)
    requires n >= 1
    ensures PowLoop(z, DIGITS, n + 1) == PowLoop(z, z, n)
    decreases n
  {
    var z2 := RoundedMul(z, z);
    RoundedMulByOne(z);
    RoundedMulByOne(z2);
    if n == 1 {
      assert PowLoop(z, DIGITS, 2) == PowLoop(z2, DIGITS, 1);
    } else if n % 2 == 0 {
      assert (n + 1) / 2 == n / 2 && (n + 1) % 2 == 1;
    } else {
      assert (n + 1) / 2 == n / 2 + 1 && (n + 1) % 2 == 0;
      PowLoopShift(z2, n / 2);
    }
  }

  /**
   Although every step rounds, the power of a base at most ONE never grows
   with the exponent, and that of a base at least ONE never shrinks.
   */
  lemma PowStepInExponent(a: nat, n: nat)
    ensures a <= ONE ==> Pow(a, n + 1) <= Pow(a, n)
    ensures a >= ONE ==> Pow(a, n + 1) >= Pow(a, n)
  {
    if n == 0 {
      RoundedMulByOne(a);
    } else {
      PowLoopShift(a, n);
      if a <= ONE { PowLoopMono(a, a, a, DIGITS, n); }
      if a >= ONE { PowLoopMono(a, a, DIGITS, a, n); }
    }
  }

  lemma {:induction false} PowMonotoneInExponent(a: nat, n: nat, m: nat)
    requires n <= m
    ensures a <= ONE ==> Pow(a, m) <= Pow(a, n)
    ensures a >= ONE ==> Pow(a, m) >= Pow(a, n)
    decreases m
  {
    if n < m {
      PowMonotoneInExponent(a, n, m - 1);
      PowStepInExponent(a, m - 1);
    }
  }

  // ----- Distance from the exact power

  /** The exact n-th power. */
  function RealPow(x: real, n: nat): real {
    if n == 0 then 1.0 else x * RealPow(x, n - 1)
  }

  ghost predicate Close(a: real, b: real, e: real) {
    -e <= a - b <= e
  }

  /** `v` units, as a number. */
  function Value(v: nat): real {
    v as real / DIGITS as real
  }

  lemma {:induction false} RealPowAdds(x: real, n: nat, m: nat)
    ensures RealPow(x, n + m) == RealPow(x, n) * RealPow(x, m)
  {
    if n > 0 {
      RealPowAdds(x, n - 1, m);
      assert RealPow(x, n + m) == x * RealPow(x, n - 1 + m);
      RealMulAssoc(x, RealPow(x, n - 1), RealPow(x, m));
    }
  }

  lemma RealMulAssoc(x: real, y: real, z: real)
    ensures x * (y * z) == (x * y) * z
  {
  }

  lemma {:induction false} RealPowOfSquare(x: real, n: nat)
    ensures RealPow(x * x, n) == RealPow(x, 2 * n)
  {
    if n > 0 {
      RealPowOfSquare(x, n - 1);
      calc {
        RealPow(x * x, n);
        (x * x) * RealPow(x * x, n - 1);
        (x * x) * RealPow(x, 2 * (n - 1));
        x * (x * RealPow(x, 2 * n - 2));
        x * RealPow(x, 2 * n - 1);
        RealPow(x, 2 * n);
      }
    }
  }

  lemma ProductOfUnit(x: real, y: real)
    requires 0.0 <= x <= 1.0 && 0.0 <= y <= 1.0
    ensures 0.0 <= x * y <= 1.0
  {
    UnitFactor(x, y);
  }

  ghost predicate TowardsZero(p: real, d: real) {
    if d >= 0.0 then 0.0 <= p <= d else d <= p <= 0.0
  }

  lemma ScaledTowardsZero(u: real, d: real)
    requires 0.0 <= u <= 1.0
    ensures TowardsZero(u * d, d)
  {
    UnitFactor(u, d);
  }

  lemma BoundTowardsZero(p: real, d: real, e: real)
    requires TowardsZero(p, d) && -e <= d <= e
    ensures -e <= p <= e
  {
  }

  lemma ScaledError(u: real, d: real, e: real)
    requires 0.0 <= u <= 1.0
    requires -e <= d <= e
    ensures -e <= u * d <= e
  {
    ScaledTowardsZero(u, d);
    BoundTowardsZero(u * d, d, e);
  }

  /** The rounded product is within half a unit of the exact product of its arguments. */
  lemma RoundedMulIsNearest(x: nat, y: nat)
    ensures Close(RoundedMul(x, y) as real, Value(x) * y as real, 0.5)
  {
  }

  lemma ProductDeviation(u: real, y: real, d: real, tx: real, ty: real)
    ensures u * y - d * (tx * ty) == u * (y - d * ty) + ty * (u * d - d * tx)
  {
  }

  lemma ValueIsUnit(x: nat)
    requires x <= DIGITS
    ensures 0.0 <= Value(x) <= 1.0 && Value(x) * DIGITS as real == x as real
  {
  }

  /** Errors of the factors add up, and rounding adds half a unit. */
  lemma ProductError(x: nat, y: nat, tx: real, ty: real, ex: real, ey: real)
    requires x <= DIGITS
    requires 0.0 <= tx <= 1.0 && 0.0 <= ty <= 1.0
    requires Close(x as real, DIGITS as real * tx, ex)
    requires Close(y as real, DIGITS as real * ty, ey)
    ensures Close(RoundedMul(x, y) as real, DIGITS as real * (tx * ty), ex + ey + 0.5)
  {
    var d, u := DIGITS as real, Value(x);
    ValueIsUnit(x);
    ScaledError(u, y as real - d * ty, ey);
    ScaledError(ty, u * d - d * tx, ex);
    ProductDeviation(u, y as real, d, tx, ty);
    RoundedMulIsNearest(x, y);
  }

  /** The loop with exact products. */
  function ExactLoop(tx: real, ty: real, n: nat): real
    requires n >= 1
    decreases n
  {
    if n == 1 then tx * ty
    else if n % 2 == 1 then ExactLoop(tx * tx, tx * ty, n / 2)
    else ExactLoop(tx * tx, ty, n / 2)
  }

  /** How far the loop's result can be off when `x` is off by ex and `y` by ey. */
  function LoopError(ex: real, ey: real, n: nat): real
    requires n >= 1
    decreases n
  {
    if n == 1 then ex + ey + 0.5
    else if n % 2 == 1 then LoopError(ex + ex + 0.5, ex + ey + 0.5, n / 2)
    else LoopError(ex + ex + 0.5, ey, n / 2)
  }

  /** The same when `y` is exactly ONE: multiplying by it rounds nothing away. */
  function LoopErrorFromOne(ex: real, n: nat): real
    requires n >= 1
    decreases n
  {
    if n == 1 then ex
    else if n % 2 == 1 then LoopError(ex + ex + 0.5, ex, n / 2)
    else LoopErrorFromOne(ex + ex + 0.5, n / 2)
  }

  lemma {:induction false} ExactLoopIsPower(tx: real, ty: real, n: nat)
    requires n >= 1
    ensures ExactLoop(tx, ty, n) == RealPow(tx, n) * ty
    decreases n
  {
    if n == 1 {
      assert RealPow(tx, 1) == tx * RealPow(tx, 0) == tx;
    } else {
      var m := n / 2;
      RealPowOfSquare(tx, m);
      var p := RealPow(tx, 2 * m);
      if n % 2 == 1 {
        ExactLoopIsPower(tx * tx, tx * ty, m);
        assert RealPow(tx, n) == tx * p;
        assert p * (tx * ty) == (tx * p) * ty;
      } else {
        ExactLoopIsPower(tx * tx, ty, m);
      }
    }
  }

  /** k times the error of the base, that of the accumulator and half a unit for each of k roundings. */
  function LinearError(k: real, ex: real, ey: real): real {
    k * ex + ey + k / 2.0
  }

  /** What one halving of the exponent does to a linear bound. */
  lemma HalvedLinearError(k: real, ex: real, ey: real)
    ensures LinearError(k, ex + ex + 0.5, ey) == LinearError(2.0 * k, ex, ey)
    ensures LinearError(k, ex + ex + 0.5, ex + ey + 0.5) == LinearError(2.0 * k + 1.0, ex, ey)
  {
    assert k * (ex + ex) == k * ex + k * ex;
  }

  lemma HalvedOperand(n: nat)
    ensures n as real == 2.0 * (n / 2) as real + if n % 2 == 1 then 1.0 else 0.0
  {
  }

  /** Squaring doubles the error in `x`, yet the roundings add up to n/2 only. */
  lemma {:induction false} LoopErrorIsLinear(ex: real, ey: real, n: nat)
    requires n >= 1
    ensures LoopError(ex, ey, n) == LinearError(n as real, ex, ey)
    decreases n
  {
    if n > 1 {
      HalvedOperand(n);
      HalvedLinearError((n / 2) as real, ex, ey);
      LoopErrorIsLinear(ex + ex + 0.5, if n % 2 == 1 then ex + ey + 0.5 else ey, n / 2);
    }
  }

  lemma {:induction false} LoopErrorFromOneIsLinear(ex: real, n: nat)
    requires n >= 1
    ensures LoopErrorFromOne(ex, n) == LinearError(n as real, ex, -0.5)
    decreases n
  {
    if n > 1 {
      HalvedOperand(n);
      HalvedLinearError((n / 2) as real, ex, -0.5);
      if n % 2 == 1 {
        LoopErrorIsLinear(ex + ex + 0.5, ex, n / 2);
      } else {
        LoopErrorFromOneIsLinear(ex + ex + 0.5, n / 2);
      }
    }
  }

  /** `v` is at most ONE and approximates `t`, which is too, with an error of at most `e` units. */
  ghost predicate Approximates(v: nat, t: real, e: real) {
    && v <= DIGITS
    && 0.0 <= t <= 1.0
    && Close(v as real, DIGITS as real * t, e)
  }

  /** Errors add up under RoundedMul, with half a unit for rounding. */
  ghost predicate ErrorsAdd(near: (nat, real, real) -> bool, x: nat, y: nat, tx: real, ty: real, ex: real, ey: real) {
    near(x, tx, ex) && near(y, ty, ey) ==> near(RoundedMul(x, y), tx * ty, ex + ey + 0.5)
  }

  ghost predicate AddsErrors(near: (nat, real, real) -> bool) {
    forall x: nat, y: nat, tx, ty, ex, ey :: ErrorsAdd(near, x, y, tx, ty, ex, ey)
  }

  lemma {:induction false} PowLoopTracksExactLoop(near: (nat, real, real) -> bool, x: nat, y: nat, n: nat,
                                                  tx: real, ty: real, ex: real, ey: real)
    requires n >= 1
    requires AddsErrors(near)
    requires near(x, tx, ex) && near(y, ty, ey)
    ensures near(PowLoop(x, y, n), ExactLoop(tx, ty, n), LoopError(ex, ey, n))
    decreases n
  {
    assert ErrorsAdd(near, x, y, tx, ty, ex, ey);
    if n > 1 {
      assert ErrorsAdd(near, x, x, tx, tx, ex, ex);
      if n % 2 == 1 {
        PowLoopTracksExactLoop(near, RoundedMul(x, x), RoundedMul(x, y), n / 2, tx * tx, tx * ty,
                               ex + ex + 0.5, ex + ey + 0.5);
      } else {
        PowLoopTracksExactLoop(near, RoundedMul(x, x), y, n / 2, tx * tx, ty, ex + ex + 0.5, ey);
      }
    }
  }

  lemma {:induction false} PowLoopFromOneTracksExactLoop(near: (nat, real, real) -> bool, x: nat, n: nat,
                                                         tx: real, ex: real)
    requires n >= 1
    requires AddsErrors(near)
    requires near(x, tx, ex)
    ensures near(PowLoop(x, DIGITS, n), ExactLoop(tx, 1.0, n), LoopErrorFromOne(ex, n))
    decreases n
  {
    RoundedMulByOne(x);
    if n > 1 {
      assert ErrorsAdd(near, x, x, tx, tx, ex, ex);
      if n % 2 == 1 {
        PowLoopTracksExactLoop(near, RoundedMul(x, x), x, n / 2, tx * tx, tx, ex + ex + 0.5, ex);
      } else {
        PowLoopFromOneTracksExactLoop(near, RoundedMul(x, x), n / 2, tx * tx, ex + ex + 0.5);
      }
    }
  }

  lemma ApproximatesProduct(x: nat, y: nat, tx: real, ty: real, ex: real, ey: real)
    requires Approximates(x, tx, ex) && Approximates(y, ty, ey)
    ensures Approximates(RoundedMul(x, y), tx * ty, ex + ey + 0.5)
  {
    ProductError(x, y, tx, ty, ex, ey);
    ProductOfUnit(tx, ty);
    RoundedMulAroundOne(x, y);
  }

  lemma ApproximatesAddsErrors(near: (nat, real, real) -> bool)
    requires forall v: nat, t, e :: near(v, t, e) <==> Approximates(v, t, e)
    ensures AddsErrors(near)
  {
    forall x: nat, y: nat, tx, ty, ex, ey
      ensures ErrorsAdd(near, x, y, tx, ty, ex, ey)
    {
      if near(x, tx, ex) && near(y, ty, ey) {
        ApproximatesProduct(x, y, tx, ty, ex, ey);
      }
    }
  }

  lemma PowTracksRealPow(near: (nat, real, real) -> bool, a: nat, n: nat, t: real)
    requires AddsErrors(near) && near(a, t, 0.0) && n >= 1
    ensures near(Pow(a, n), RealPow(t, n), (n - 1) as real / 2.0)
  {
    PowLoopFromOneTracksExactLoop(near, a, n, t, 0.0);
    ExactLoopIsPower(t, 1.0, n);
    LoopErrorFromOneIsLinear(0.0, n);
  }

  /**
   For a base at most ONE the computed power is within (n-1)/2 units of the
   exact n-th power, although squaring doubles the errors made before it.
   */
  lemma PowError(a: nat, n: nat)
    requires a <= ONE
    requires n >= 1
    ensures Close(Pow(a, n) as real, DIGITS as real * RealPow(Value(a), n), (n - 1) as real / 2.0)
  {
    var near := (v: nat, t: real, e: real) => Approximates(v, t, e);
    ApproximatesAddsErrors(near);
    ValueIsUnit(a);
    PowTracksRealPow(near, a, n, Value(a));
  }

  // ----- The loops themselves

  const MAX_UINT_32: int := 0xffff_ffff

  /** `Decimal.pow`: throws unless 0 <= exponent <= 0xffffffff. */
  method PowBySquaring(base: nat, exponent: int) returns (r: Result<nat>)
    ensures 0 <= exponent <= MAX_UINT_32 ==> r == Ok(Pow(base, exponent))
    ensures !(0 <= exponent <= MAX_UINT_32) ==> r == Err
  {
    if !(0 <= exponent <= MAX_UINT_32) {
      return Err;
    }
    if exponent == 0 {
      return Ok(ONE);
    }
    if exponent == 1 {
      RoundedMulByOne(base);
      return Ok(base);
    }
    var x, y, n := base, DIGITS, exponent;
    while n > 1
      invariant n >= 1
      invariant PowLoop(x, y, n) == Pow(base, exponent)
    {
      if n % 2 == 1 {
        y := RoundedMul(x, y);
      }
      x := RoundedMul(x, x);
      n := n / 2;
    }
    r := Ok(RoundedMul(x, y));
  }

  const MINUTES_CAP: nat := 525_600_000

  /** The on-chain `_decPow`: the exponent is capped instead of rejected. */
  method DecPow(base: nat, minutes: nat) returns (r: nat)
    ensures r == Pow(base, if minutes > MINUTES_CAP then MINUTES_CAP else minutes)
  {
    var n := if minutes > MINUTES_CAP then MINUTES_CAP else minutes;
    if n == 0 {
      return DIGITS;
    }
    ghost var exponent := n;
    var y, x := DIGITS, base;
    while n > 1
      invariant n >= 1
      invariant PowLoop(x, y, n) == Pow(base, exponent)
    {
      if n % 2 == 0 {
        x := RoundedMul(x, x);
        n := n / 2;
      } else {
        y := RoundedMul(x, y);
        x := RoundedMul(x, x);
        n := (n - 1) / 2;
      }
    }
    r := RoundedMul(x, y);
  }

  /**
   The cap makes no difference in one direction only: for a base at most ONE
   the chain's decay factor is never below the client's, and within the cap
   the two are the same number.
   */
  lemma CappedExponent(base: nat, minutes: nat)
    requires base <= ONE
    ensures Pow(base, if minutes > MINUTES_CAP then MINUTES_CAP else minutes) >= Pow(base, minutes)
  {
    if minutes > MINUTES_CAP {
      PowMonotoneInExponent(base, MINUTES_CAP, minutes);
    }
  }
}
