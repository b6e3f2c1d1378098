/**
 What truncation costs a depositor of the Stability Pool: what can be
 withdrawn and claimed is pinned from both sides to exact worth and
 earnings.
 */
module StabilityPoolShares {
  import opened Arithmetic
  import opened StabilityPool

  predicate Brackets(k: nat, x: real) {
    k as real <= x < k as real + 1.0
  }

  lemma FloorDivBrackets(n: nat, d: nat)
    requires d > 0
    ensures Brackets(FloorDiv(n, d), n as real / d as real)
  {
    FloorDivAtMost(n, d);
    DivBounds(n, d);
    var q := FloorDiv(n, d);
    assert (q * d + d) as real == (q as real + 1.0) * d as real by {
      assert (q * d) as real == q as real * d as real;
    }
    QuotientBelow(q as real + 1.0, d as real, n as real);
  }

  lemma QuotientBelow(q: real, d: real, n: real)
    requires d > 0.0 && n < q * d
    ensures n / d < q
  {
  }

  /** Truncating twice truncates once: no more is lost over a change of scale. */
  lemma NestedFloorBrackets(q: nat, x: real, s: nat)
    requires s > 0 && Brackets(q, x)
    ensures Brackets(FloorDiv(q, s), x / s as real)
  {
    var r := FloorDiv(q, s);
    FloorDivAtMost(q, s);
    DivBounds(q, s);
    assert q + 1 <= r * s + s;
    assert (r * s + s) as real == (r as real + 1.0) * s as real by {
      assert (r * s) as real == r as real * s as real;
    }
    QuotientBelow(r as real + 1.0, s as real, x);
    QuotientAtLeast(r as real, s as real, x);
  }

  /** The deposit is of this epoch and at most one change of scale old. */
  predicate InReach(a: Product, d: Deposit) {
    d.value > 0 && d.at.epoch == a.epoch && d.at.scale <= a.scale <= d.at.scale + 1
  }

  lemma ProductBrackets(v: nat, a: nat, b: nat)
    requires b > 0
    ensures Brackets(FloorDiv(v * a, b), Proportion(v, a, b))
  {
    FloorDivBrackets(v * a, b);
    assert (v * a) as real == v as real * a as real;
  }

  lemma ScaledProductBrackets(v: nat, a: nat, b: nat, s: nat)
    requires b > 0 && s > 0
    ensures Brackets(FloorDiv(FloorDiv(v * a, b), s), Proportion(v, a, b) / s as real)
  {
    ProductBrackets(v, a, b);
    NestedFloorBrackets(FloorDiv(v * a, b), Proportion(v, a, b), s);
  }

  /** What is left of v when a stake of less than a billionth of it is cut to nothing. */
  function Cut(stake: nat, v: nat): nat {
    if stake < v / 1_000_000_000 then 0 else stake
  }

  /** The outcome is the whole part of w, or nothing if w is below 1 or below a billionth of v. */
  ghost predicate IsCutOf(outcome: nat, w: real, v: nat) {
    if outcome > 0 then Brackets(outcome, w) && outcome >= v / 1_000_000_000
    else w < 1.0 || w < (v / 1_000_000_000) as real
  }

  lemma CutLaws(stake: nat, w: real, v: nat)
    requires Brackets(stake, w)
    ensures IsCutOf(Cut(stake, v), w, v)
  {
  }

  /** The stake before it is cut. */
  function StakeOf(a: Product, d: Deposit): nat
    requires d.at.P > 0
  {
    var stake := FloorDiv(d.value * a.P, d.at.P);
    if a.scale == d.at.scale then stake else FloorDiv(stake, SCALE_FACTOR)
  }

  lemma CompoundedIsCutStake(p: Pool, d: Deposit)
    requires WellFormedDeposit(p, d) && InReach(p.product, d)
    ensures Compounded(p, d) == Cut(StakeOf(p.product, d), d.value)
  {
  }

  lemma StakeOfRatio(holds: (nat, real) -> bool, a: Product, d: Deposit)
    requires d.at.P > 0
    requires holds(FloorDiv(d.value * a.P, d.at.P), Proportion(d.value, a.P, d.at.P))
    requires holds(FloorDiv(FloorDiv(d.value * a.P, d.at.P), SCALE_FACTOR),
                   Proportion(d.value, a.P, d.at.P) / SCALE_FACTOR as real)
    ensures holds(StakeOf(a, d), RatioWorth(a, d))
  {
  }

  lemma StakeBrackets(a: Product, d: Deposit)
    requires d.at.P > 0
    ensures Brackets(StakeOf(a, d), RatioWorth(a, d))
  {
    ProductBrackets(d.value, a.P, d.at.P);
    ScaledProductBrackets(d.value, a.P, d.at.P, SCALE_FACTOR);
    StakeOfRatio(Brackets, a, d);
  }

  /**
   A depositor can withdraw exactly the whole part of what the deposit is
   worth, except that nothing is left of it after two changes of scale, in a
   later epoch, or when less than a billionth remains.
   */
  lemma CompoundedIsCutOfWorth(p: Pool, d: Deposit)
    requires WellFormedDeposit(p, d)
    ensures if InReach(p.product, d) then IsCutOf(Compounded(p, d), Worth(p.product, d), d.value)
            else Compounded(p, d) == 0
  {
    if InReach(p.product, d) {
      WorthInScale(p.product, d);
      StakeBrackets(p.product, d);
      CompoundedIsCutStake(p, d);
      CutLaws(StakeOf(p.product, d), Worth(p.product, d), d.value);
    }
  }

  // ----- Shrinking

  lemma LargestInScale(P: nat, factor: nat, k: real)
    requires k > 0.0
    ensures !AtMostPart((FloorDiv(P * factor, DECIMAL_PRECISION) + 1) as real / k, P as real / k, factor)
  {
  }

  lemma LargestInNextScale(P: nat, factor: nat, k: real)
    requires k > 0.0
    ensures SCALE_FACTOR as real * k > 0.0
    ensures !AtMostPart((FloorDiv(P * factor * SCALE_FACTOR,
                                  DECIMAL_PRECISION) + 1) as real / (SCALE_FACTOR as real * k),
                        P as real / k, factor)
  {
  }

  /**
   The product loses less than one unit of P at its new scale: shrinking
   yields the largest product not above the exact one.
   */
  lemma ShrunkLevelIsLargest(a: Product, factor: nat)
    requires factor > 0
    ensures var b := Shrunk(a, factor);
            && b.epoch == a.epoch
            && AtMostPart(Level(b.P, b.scale), Level(a.P, a.scale), factor)
            && !AtMostPart(Level(b.P + 1, b.scale), Level(a.P, a.scale), factor)
  {
    ShrunkLevel(a, factor);
    if Shrunk(a, factor).scale == a.scale {
      LargestInScale(a.P, factor, ScalePower(a.scale));
    } else {
      LargestInNextScale(a.P, factor, ScalePower(a.scale));
    }
  }

  // ----- ETH gains

  /**
   A gain adds to what a deposit within reach has earned exactly the
   deposit's worth times the gain per unit, and nothing to any other.
   */
  lemma GainIsSharedByWorth(p: Pool, q: Pool, gain: nat, d: Deposit)
    requires WellFormedDeposit(p, d)
    requires q.sums == WithGain(p, gain)
    ensures ExactShare(Earned(q, d), Earned(p, d), if InReach(p.product, d) then Worth(p.product, d) else 0.0,
                       gain as real)
  {
    if InReach(p.product, d) {
      WorthInScale(p.product, d);
      EarnedInScale(p, q, gain, d);
    } else {
      PortionsAfterGain(p, q, gain, d);
    }
  }

  /** The claim, a whole number, is short of what was earned by less than one unit and the given part. */
  predicate NearlyAll(claim: nat, earned: real, part: real) {
    var claimed := claim as real * DECIMAL_PRECISION as real;
    claimed <= earned < claimed + DECIMAL_PRECISION as real + part
  }

  lemma ClaimOf(v: nat, x: nat, b: nat, exact: real)
    requires v > 0 && b > 0 && x as real <= exact < x as real + 1.0
    ensures NearlyAll(FloorDiv(FloorDiv(v * x, b), DECIMAL_PRECISION), v as real / b as real * exact,
                      v as real / b as real)
  {
    FloorTwice(v, x, b, exact);
    ScaledProductBrackets(v, x, b, DECIMAL_PRECISION);
    ClaimArithmetic(v, b, x, exact, FloorDiv(FloorDiv(v * x, b), DECIMAL_PRECISION), DECIMAL_PRECISION);
  }

  /** A claim falls short of what was earned by less than one unit and the deposit's share of one unit of S. */
  lemma EthGainIsNearlyAllEarned(p: Pool, d: Deposit)
    requires WellFormedDeposit(p, d) && d.value > 0
    ensures NearlyAll(EthGain(p, d), Earned(p, d), d.value as real / d.at.P as real)
  {
    PortionsAtMostExact(p, d);
    PortionsBelowNext(p, d);
    ClaimOf(d.value, Portions(p, d), d.at.P, ExactPortions(p, d));
  }

  lemma PortionsBelowNext(p: Pool, d: Deposit)
    requires WellFormedDeposit(p, d) && d.value > 0
    ensures ExactPortions(p, d) < Portions(p, d) as real + 1.0
  {
  }

  lemma TimesBelow(y: real, c: real, k: real)
    requires c > 0.0 && y / c < k
    ensures y < k * c
  {
  }

  lemma ClaimArithmetic(v: nat, b: nat, x: nat, exact: real, claim: nat, c: nat)
    requires v > 0 && b > 0 && c > 0 && exact < x as real + 1.0
    requires Brackets(claim, v as real * x as real / b as real / c as real)
    ensures v as real / b as real * exact < claim as real * c as real + c as real + v as real / b as real
  {
    var r := v as real / b as real;
    assert r > 0.0;
    assert v as real * x as real / b as real == r * x as real;
    TimesBelow(r * x as real, c as real, claim as real + 1.0);
    assert (claim as real + 1.0) * c as real == claim as real * c as real + c as real;
    RealMulMono(exact, x as real + 1.0, r);
    assert r * (x as real + 1.0) == r * x as real + r;
  }
}
