/**
 `Fees`: the base rate that decays minute by minute since the last fee
 operation, and the borrowing and redemption rates built on it.
 Dates are milliseconds since the epoch.
 */
module FeeRates {
  import opened Arithmetic
  import opened Decimal
  import opened DecimalPow
  import opened Outcomes

  const MINIMUM_BORROWING_RATE: nat := 50_000_000_000_000_000
  const MAXIMUM_BORROWING_RATE: nat := 75_000_000_000_000_000
  const MINIMUM_REDEMPTION_RATE: nat := 19_000_000_000_000_000

  datatype FeesData = FeesData(
    baseRateWithoutDecay: nat,
    minuteDecayFactor: nat,
    beta: nat,
    lastFeeOperation: int,
    timeOfLatestBlock: int,
    recoveryMode: bool
  )

  /** The constructor asserts that the decay factor is below ONE. */
  type Fees = f: FeesData | f.minuteDecayFactor < ONE
    witness FeesData(0, 0, 0, 0, 0, false)

  function SetRecoveryMode(f: Fees, recoveryMode: bool): Fees {
    f.(recoveryMode := recoveryMode)
  }

  /** Negative elapsed time is clamped to zero. */
  function MinutesSinceLastFeeOperation(f: Fees, when: int): nat {
    (if when - f.lastFeeOperation > 0 then when - f.lastFeeOperation else 0) / 60000
  }

  /** Throws, through `pow`, when more than 0xffffffff minutes have passed. */
  function BaseRate(f: Fees, when: int): Result<nat> {
    var minutes := MinutesSinceLastFeeOperation(f, when);
    if minutes <= MAX_UINT_32 then
      Ok(Mul(Pow(f.minuteDecayFactor, minutes), f.baseRateWithoutDecay))
    else
      Err
  }

  function BorrowingRate(f: Fees, when: int): Result<nat> {
    if f.recoveryMode then
      Ok(0)
    else
      match BaseRate(f, when)
      case Ok(rate) => Ok(Min(MINIMUM_BORROWING_RATE + rate, MAXIMUM_BORROWING_RATE))
      case Err => Err
  }

  function RedemptionRate(f: Fees, redeemedFraction: nat, when: int): Result<nat> {
    match BaseRate(f, when)
    case Ok(rate) =>
      var increased := if redeemedFraction != 0 then Div(redeemedFraction, f.beta) + rate else rate;
      Ok(Min(MINIMUM_REDEMPTION_RATE + increased, ONE))
    case Err => Err
  }

  /** `Fees.equals` */
  predicate Equals(f: Fees, g: Fees) {
    && f.baseRateWithoutDecay == g.baseRateWithoutDecay
    && f.minuteDecayFactor == g.minuteDecayFactor
    && f.beta == g.beta
    && f.lastFeeOperation == g.lastFeeOperation
    && f.timeOfLatestBlock == g.timeOfLatestBlock
    && f.recoveryMode == g.recoveryMode
  }

  // ----- Decay

  lemma MinutesMonotone(f: Fees, earlier: int, later: int)
    requires earlier <= later
    ensures MinutesSinceLastFeeOperation(f, earlier) <= MinutesSinceLastFeeOperation(f, later)
  {
  }

  /** Rounding at every multiplication notwithstanding, the base rate never grows as time passes. */
  lemma BaseRateNeverGrows(f: Fees, earlier: int, later: int)
    requires earlier <= later
    ensures BaseRate(f, later).Ok? ==> BaseRate(f, earlier).Ok?
    ensures BaseRate(f, later).Ok? ==> BaseRate(f, later).value <= BaseRate(f, earlier).value
  {
    MinutesMonotone(f, earlier, later);
    var n := MinutesSinceLastFeeOperation(f, earlier);
    var m := MinutesSinceLastFeeOperation(f, later);
    PowMonotoneInExponent(f.minuteDecayFactor, n, m);
    MulMonotone(Pow(f.minuteDecayFactor, m), Pow(f.minuteDecayFactor, n),
                f.baseRateWithoutDecay, f.baseRateWithoutDecay);
  }

  /** It starts at the stored rate, and stays there for times before the last fee operation. */
  lemma BaseRateStartsAtStoredRate(f: Fees, when: int)
    ensures when < f.lastFeeOperation + 60000 ==> BaseRate(f, when) == Ok(f.baseRateWithoutDecay)
    ensures BaseRate(f, when).Ok? ==> BaseRate(f, when).value <= f.baseRateWithoutDecay
  {
    DivAddMultiple(f.baseRateWithoutDecay, DIGITS, 0);
    if when >= f.lastFeeOperation + 60000 {
      BaseRateNeverGrows(f, f.lastFeeOperation, when);
    }
  }

  /** p is t to within (n-1)/2 units. */
  ghost predicate Tracks(p: nat, t: real, n: nat) {
    n >= 1 && Close(p as real, DIGITS as real * t, (n - 1) as real / 2.0)
  }

  /** p times the rate is t times the rate to within (n+1)/2 units. */
  ghost predicate TracksRate(p: nat, t: real, n: nat, rate: nat) {
    Close(Mul(p, rate) as real, t * rate as real, (n + 1) as real / 2.0)
  }

  lemma DecayError(p: nat, t: real, n: nat, rate: nat)
    requires rate <= ONE && Tracks(p, t, n)
    ensures TracksRate(p, t, n, rate)
  {
    TruncatedMulError(p, rate, t, (n - 1) as real / 2.0, (n + 1) as real / 2.0);
  }

  lemma DecayErrors(rate: nat)
    requires rate <= ONE
    ensures forall p: nat, t: real, n: nat :: Tracks(p, t, n) ==> TracksRate(p, t, n, rate)
  {
    forall p: nat, t: real, n: nat | Tracks(p, t, n)
      ensures TracksRate(p, t, n, rate)
    {
      DecayError(p, t, n, rate);
    }
  }

  lemma PowTracks(factor: nat, m: nat)
    requires factor <= ONE && m >= 1
    ensures Tracks(Pow(factor, m), RealPow(Value(factor), m), m)
  {
    PowError(factor, m);
  }

  lemma PowDecay(tracks: (nat, real, nat) -> bool, decays: (nat, real, nat) -> bool, factor: nat, m: nat)
    requires tracks(Pow(factor, m), RealPow(Value(factor), m), m)
    requires forall p: nat, t: real, n: nat :: tracks(p, t, n) ==> decays(p, t, n)
    ensures decays(Pow(factor, m), RealPow(Value(factor), m), m)
  {
  }

  lemma PowDecayError(factor: nat, rate: nat, m: nat)
    requires factor <= ONE && rate <= ONE && m >= 1
    ensures TracksRate(Pow(factor, m), RealPow(Value(factor), m), m, rate)
  {
    var decays := (p: nat, t: real, n: nat) => TracksRate(p, t, n, rate);
    DecayErrors(rate);
    PowTracks(factor, m);
    PowDecay(Tracks, decays, factor, m);
    assert decays(Pow(factor, m), RealPow(Value(factor), m), m);
  }

  /** After m minutes the rate is the exact exponential decay to within (m+1)/2 units. */
  lemma BaseRateTracksExactDecay(f: Fees, when: int)
    requires f.baseRateWithoutDecay <= ONE
    requires BaseRate(f, when).Ok?
    requires MinutesSinceLastFeeOperation(f, when) >= 1
    ensures var m := MinutesSinceLastFeeOperation(f, when);
            Close(BaseRate(f, when).value as real,
                  RealPow(Value(f.minuteDecayFactor), m) * f.baseRateWithoutDecay as real,
                  (m + 1) as real / 2.0)
  {
    PowDecayError(f.minuteDecayFactor, f.baseRateWithoutDecay, MinutesSinceLastFeeOperation(f, when));
  }

  /** `mul` truncates the exact product, losing less than one unit. */
  lemma MulIsTruncated(p: nat, r: nat)
    ensures Mul(p, r) as real <= Value(r) * p as real < Mul(p, r) as real + 1.0
  {
    var d, q := DIGITS as real, Mul(p, r) as real;
    DivBounds(p * r, DIGITS);
    assert (p * r) as real == p as real * r as real == Value(r) * p as real * d;
    assert q * d <= Value(r) * p as real * d < (q + 1.0) * d;
  }

  lemma TruncatedMulError(p: nat, r: nat, t: real, e: real, e': real)
    requires r <= ONE && e' == e + 1.0
    requires Close(p as real, DIGITS as real * t, e)
    ensures Close(Mul(p, r) as real, t * r as real, e')
  {
    var d, u := DIGITS as real, Value(r);
    ValueIsUnit(r);
    ScaledError(u, p as real - d * t, e);
    MulIsTruncated(p, r);
    assert u * (p as real - d * t) == u * p as real - t * (u * d);
  }

  // ----- The rates that users pay

  /** Outside recovery mode the borrowing rate stays between its bounds, and it never grows with time. */
  lemma BorrowingRateLaws(f: Fees, earlier: int, later: int)
    requires earlier <= later
    ensures BorrowingRate(f, later).Ok? ==>
              && BorrowingRate(f, earlier).Ok?
              && BorrowingRate(f, later).value <= BorrowingRate(f, earlier).value
    ensures BorrowingRate(f, earlier).Ok? ==>
              if f.recoveryMode then BorrowingRate(f, earlier).value == 0
              else MINIMUM_BORROWING_RATE <= BorrowingRate(f, earlier).value <= MAXIMUM_BORROWING_RATE
  {
    BaseRateNeverGrows(f, earlier, later);
  }

  lemma DivMonotone(a: nat, a': nat, b: nat)
    requires a <= a'
    ensures Div(a, b) <= Div(a', b)
  {
    if b > 0 {
      MulMono(a, a', DIGITS);
      DivMono(a * DIGITS, a' * DIGITS, b);
    }
  }

  /**
   The redemption rate stays between its floor and 100%, never grows with
   time and never shrinks with the redeemed fraction.
   */
  lemma RedemptionRateLaws(f: Fees, fraction: nat, fraction': nat, earlier: int, later: int)
    requires earlier <= later && fraction <= fraction'
    requires RedemptionRate(f, fraction, later).Ok?
    ensures RedemptionRate(f, fraction', earlier).Ok?
    ensures RedemptionRate(f, fraction, later).value <= RedemptionRate(f, fraction', earlier).value
    ensures MINIMUM_REDEMPTION_RATE <= RedemptionRate(f, fraction, later).value <= ONE
  {
    BaseRateNeverGrows(f, earlier, later);
    DivMonotone(fraction, fraction', f.beta);
  }

  /**
   Outside recovery mode the borrowing rate is the base rate above its
   minimum, or the maximum if and only if the base rate reaches it.
   */
  lemma BorrowingRateIs(f: Fees, when: int)
    ensures BorrowingRate(f, when).Ok? <==> f.recoveryMode || BaseRate(f, when).Ok?
    ensures !f.recoveryMode && BaseRate(f, when).Ok? ==>
              var v, rate := BorrowingRate(f, when).value, BaseRate(f, when).value;
              && (v < MAXIMUM_BORROWING_RATE ==> v - MINIMUM_BORROWING_RATE == rate)
              && (v == MAXIMUM_BORROWING_RATE <==> rate >= MAXIMUM_BORROWING_RATE - MINIMUM_BORROWING_RATE)
  {
  }

  /** The quotient of a Decimal by beta. */
  lemma DivIs(x: nat, beta: nat)
    requires beta > 0
    ensures Div(x, beta) * beta <= x * ONE < (Div(x, beta) + 1) * beta
    ensures forall k: nat :: Div(x, beta) >= k <==> x * ONE >= k * beta
  {
    DivBounds(x * DIGITS, beta);
    assert (Div(x, beta) + 1) * beta == Div(x, beta) * beta + beta;
    forall k: nat
      ensures Div(x, beta) >= k <==> x * ONE >= k * beta
    {
      DivAtLeast(x * DIGITS, beta, k);
    }
  }

  /** With nothing redeemed, the redemption rate is the base rate above its minimum, or 100%. */
  lemma RedemptionRateStarts(f: Fees, when: int)
    ensures RedemptionRate(f, 0, when).Ok? <==> BaseRate(f, when).Ok?
    ensures BaseRate(f, when).Ok? ==>
              var v, rate := RedemptionRate(f, 0, when).value, BaseRate(f, when).value;
              && (v < ONE ==> v - MINIMUM_REDEMPTION_RATE == rate)
              && (v == ONE <==> rate >= ONE - MINIMUM_REDEMPTION_RATE)
  {
  }

  /**
   A redeemed fraction raises it by the fraction divided by beta, truncated,
   or to 100% if and only if that is reached.
   */
  lemma RedemptionRateIs(f: Fees, x: nat, when: int)
    requires BaseRate(f, when).Ok?
    ensures RedemptionRate(f, 0, when).Ok? && RedemptionRate(f, x, when).Ok?
    ensures var v0, v := RedemptionRate(f, 0, when).value, RedemptionRate(f, x, when).value;
            if f.beta == 0 then v == (if x == 0 then v0 else ONE)
            else
              && v0 <= v <= ONE
              && (v < ONE ==> (v - v0) * f.beta <= x * ONE < (v - v0 + 1) * f.beta)
              && (v == ONE <==> x * ONE >= (ONE - v0) * f.beta)
  {
    if f.beta > 0 {
      DivIs(x, f.beta);
      if x == 0 {
        DivUnique(0, f.beta, 0);
      }
    }
  }

  // ----- Agreement with the chain

  /** The chain's `_calcDecayedBaseRate`, `seconds` after the last fee operation. */
  function DecayedBaseRate(baseRate: nat, decayFactor: nat, seconds: nat): nat {
    var minutes := seconds / 60;
    Mul(baseRate, Pow(decayFactor, if minutes > MINUTES_CAP then MINUTES_CAP else minutes))
  }

  /**
   The client computes the rate the chain will use: exactly, up to the
   chain's cap of 1000 years, and at most that rate beyond it.
   */
  lemma ClientAgreesWithChain(f: Fees, seconds: nat)
    requires seconds / 60 <= MAX_UINT_32
    ensures var client := BaseRate(f, f.lastFeeOperation + 1000 * seconds);
            var chain := DecayedBaseRate(f.baseRateWithoutDecay, f.minuteDecayFactor, seconds);
            && client.Ok?
            && client.value <= chain
            && (seconds / 60 <= MINUTES_CAP ==> client.value == chain)
  {
    DivCancel(seconds, 60, 1000);
    var minutes := seconds / 60;
    assert MinutesSinceLastFeeOperation(f, f.lastFeeOperation + 1000 * seconds) == minutes;
    CappedExponent(f.minuteDecayFactor, minutes);
    var capped := if minutes > MINUTES_CAP then MINUTES_CAP else minutes;
    MulMonotone(Pow(f.minuteDecayFactor, minutes), Pow(f.minuteDecayFactor, capped),
                f.baseRateWithoutDecay, f.baseRateWithoutDecay);
    assert Pow(f.minuteDecayFactor, capped) * f.baseRateWithoutDecay
        == f.baseRateWithoutDecay * Pow(f.minuteDecayFactor, capped);
  }
}
