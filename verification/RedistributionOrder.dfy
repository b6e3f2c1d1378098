/**
 Whether redistribution keeps Troves sorted by their nominal ratio.  The
 sorted list relies on it; with truncated stakes and rewards it holds up to
 a gap, and the gap is made precise here.
 */
module RedistributionOrder {
  import opened Arithmetic
  import opened Outcomes
  import opened Redistribution
  import opened RedistributionSafety

  // ----- Troves that a run does not touch

  predicate Touches(op: Op, i: nat) {
    match op
    case Open(j, _, _) => i == j
    case Adjust(j, _, _) => i == j
    case Close(j) => i == j
    case Liquidate(victims, _, _) => i in victims
  }

  predicate Untouched(ops: seq<Op>, i: nat) {
    forall op :: op in ops ==> !Touches(op, i)
  }

  lemma StepLeavesOthers(s: System, op: Op, i: nat)
    requires Valid(s) && Step(s, op).Ok? && i < |s.troves| && !Touches(op, i)
    ensures Step(s, op).value.troves[i] == s.troves[i]
  {
    if op.Liquidate? {
      SeizeAllKeepsValid(s, op.victims);
    }
  }

  lemma {:induction false} RunLeavesOthers(s: System, ops: seq<Op>, i: nat)
    requires Valid(s) && i < |s.troves| && Untouched(ops, i)
    ensures Run(s, ops).troves[i] == s.troves[i]
  {
    if ops != [] {
      var init, last := ops[..|ops| - 1], ops[|ops| - 1];
      assert forall op :: op in init ==> op in ops;
      assert last in ops;
      RunLeavesOthers(s, init, i);
      if Step(Run(s, init), last).Ok? {
        StepLeavesOthers(Run(s, init), last, i);
      }
    }
  }

  // ----- Amounts drift by less than one unit

  /** k is less than one unit away from x. */
  predicate Near(k: nat, x: real) {
    x - 1.0 < k as real < x + 1.0
  }

  /** An amount with its exact share of a gain per unit staked. */
  function Gained(amount: nat, stake: nat, gain: nat): (r: real)
    ensures r >= 0.0
  {
    ExactShareIsNonneg(stake, gain);
    amount as real + ExactShare(stake, gain)
  }

  function ExactShare(stake: nat, gain: nat): real {
    (stake * gain) as real / DECIMAL_PRECISION as real
  }

  lemma ExactShareIsNonneg(stake: nat, gain: nat)
    ensures ExactShare(stake, gain) >= 0.0
  {
  }

  lemma TruncatedBounds(x: nat)
    ensures Truncated(x) as real <= x as real / DECIMAL_PRECISION as real < Truncated(x) as real + 1.0
  {
    DivBounds(x, DECIMAL_PRECISION);
    assert (Truncated(x) * DECIMAL_PRECISION) as real == Truncated(x) as real * DECIMAL_PRECISION as real;
  }

  /** However often a share grows, truncating it once costs less than one unit in all. */
  lemma ShareDrift(stake: nat, at: nat, before: nat, after: nat)
    requires at <= before <= after
    ensures Near(Truncated(Share(stake, at, after)),
                 Truncated(Share(stake, at, before)) as real + ExactShare(stake, after - before))
  {
    var x, y := stake * (before - at), stake * (after - before);
    assert stake * (after - at) == x + y;
    TruncatedBounds(x);
    TruncatedBounds(x + y);
    assert (x + y) as real / DECIMAL_PRECISION as real
        == x as real / DECIMAL_PRECISION as real + y as real / DECIMAL_PRECISION as real;
  }

  /** The running totals of r are those of s or later ones. */
  predicate Later(s: System, r: System) {
    s.ethPerStake <= r.ethPerStake && s.debtPerStake <= r.debtPerStake
  }

  predicate RecordedBy(t: Trove, s: System) {
    t.atETH <= s.ethPerStake && t.atDebt <= s.debtPerStake
  }

  function ExactColl(s: System, r: System, t: Trove): (x: real)
    requires Later(s, r)
    ensures x >= 0.0
  {
    Gained(CurrentColl(s, t), t.stake, r.ethPerStake - s.ethPerStake)
  }

  function ExactDebt(s: System, r: System, t: Trove): (x: real)
    requires Later(s, r)
    ensures x >= 0.0
  {
    Gained(CurrentDebt(s, t), t.stake, r.debtPerStake - s.debtPerStake)
  }

  lemma AmountsDrift(s: System, r: System, t: Trove)
    requires Later(s, r) && RecordedBy(t, s)
    ensures Near(CurrentColl(r, t), ExactColl(s, r, t))
    ensures Near(CurrentDebt(r, t), ExactDebt(s, r, t))
  {
    ShareDrift(t.stake, t.atETH, s.ethPerStake, r.ethPerStake);
    ShareDrift(t.stake, t.atDebt, s.debtPerStake, r.debtPerStake);
  }

  // ----- The gap between two Troves

  function Cross(a: nat, b: nat, c: nat, d: nat): int {
    a * b - c * d
  }

  function ExactCross(a: real, b: real, c: real, d: real): real {
    a * b - c * d
  }

  function Total(a: nat, b: nat, c: nat, d: nat): nat {
    a + b + c + d + 1
  }

  predicate Within(gap: int, exact: real, tolerance: nat) {
    exact - tolerance as real < gap as real < exact + tolerance as real
  }

  /** How far the ratio of q is above that of p, as a difference of cross products. */
  function Gap(s: System, p: Trove, q: Trove): int {
    Cross(CurrentColl(s, q), CurrentDebt(s, p), CurrentColl(s, p), CurrentDebt(s, q))
  }

  /** The gap that exact shares of what was redistributed between s and r would leave. */
  function ExactGap(s: System, r: System, p: Trove, q: Trove): real
    requires Later(s, r)
  {
    ExactCross(ExactColl(s, r, q), ExactDebt(s, r, p), ExactColl(s, r, p), ExactDebt(s, r, q))
  }

  /** All four amounts, and one more. */
  function Tolerance(r: System, p: Trove, q: Trove): nat {
    Total(CurrentColl(r, q), CurrentDebt(r, p), CurrentColl(r, p), CurrentDebt(r, q))
  }

  lemma ProductBelow(x: real, y: real, a: real, b: real)
    requires 0.0 <= x < a && 0.0 <= y < b
    ensures x * y < a * b
  {
    assert (a - x) * b > 0.0;
    assert x * (b - y) >= 0.0;
  }

  lemma ProductAtLeast(x: real, y: real, a: real, b: real)
    requires 0.0 <= x && 0.0 <= y && x > a - 1.0 && y > b - 1.0 && a >= 0.0 && b >= 0.0
    ensures x * y >= a * b - a - b
  {
    if a >= 1.0 && b >= 1.0 {
      ProductBelow(a - 1.0, b - 1.0, x, y);
      assert (a - 1.0) * (b - 1.0) == a * b - a - b + 1.0;
    } else {
      RealMulNonneg(x, y);
      if a < 1.0 {
        RealMulNonneg(1.0 - a, b);
        assert (1.0 - a) * b == b - a * b;
      } else {
        RealMulNonneg(1.0 - b, a);
        assert (1.0 - b) * a == a - a * b;
      }
    }
  }

  /** The product of two amounts is within their sum of the product of what they are near to. */
  lemma ProductNear(a: nat, b: nat, x: real, y: real)
    requires Near(a, x) && Near(b, y) && x >= 0.0 && y >= 0.0
    ensures x * y - (a + b + 1) as real < (a * b) as real <= x * y + (a + b) as real
  {
    var c, d := a as real, b as real;
    assert (a * b) as real == c * d;
    ProductBelow(x, y, c + 1.0, d + 1.0);
    assert (c + 1.0) * (d + 1.0) == c * d + c + d + 1.0;
    ProductAtLeast(x, y, c, d);
  }

  lemma GapNear(a: nat, b: nat, c: nat, d: nat, x: real, y: real, u: real, v: real)
    requires Near(a, x) && Near(b, y) && Near(c, u) && Near(d, v) && x >= 0.0 && y >= 0.0 && u >= 0.0 && v >= 0.0
    ensures Within(Cross(a, b, c, d), ExactCross(x, y, u, v), Total(a, b, c, d))
  {
    ProductNear(a, b, x, y);
    ProductNear(c, d, u, v);
  }

  lemma GapOfAmounts(within: (int, real, nat) -> bool, s: System, r: System, p: Trove, q: Trove)
    requires Later(s, r)
    requires within(Cross(CurrentColl(r, q), CurrentDebt(r, p), CurrentColl(r, p), CurrentDebt(r, q)),
                    ExactCross(ExactColl(s, r, q), ExactDebt(s, r, p), ExactColl(s, r, p), ExactDebt(s, r, q)),
                    Total(CurrentColl(r, q), CurrentDebt(r, p), CurrentColl(r, p), CurrentDebt(r, q)))
    ensures within(Gap(r, p, q), ExactGap(s, r, p, q), Tolerance(r, p, q))
  {
  }

  /** Truncation moves the gap between two Troves by less than the tolerance, in either direction. */
  lemma GapDrift(s: System, r: System, p: Trove, q: Trove)
    requires Later(s, r) && RecordedBy(p, s) && RecordedBy(q, s)
    ensures Within(Gap(r, p, q), ExactGap(s, r, p, q), Tolerance(r, p, q))
  {
    AmountsDrift(s, r, p);
    AmountsDrift(s, r, q);
    GapNear(CurrentColl(r, q), CurrentDebt(r, p), CurrentColl(r, p), CurrentDebt(r, q),
            ExactColl(s, r, q), ExactDebt(s, r, p), ExactColl(s, r, p), ExactDebt(s, r, q));
    GapOfAmounts(Within, s, r, p, q);
  }

  // ----- What the exact gap is made of

  /** A gain per unit staked, as a number. */
  function PerUnit(gain: nat): (r: real)
    ensures r >= 0.0
  {
    gain as real / DECIMAL_PRECISION as real
  }

  /** How far the collateral of q exceeds that of p per unit staked; zero if stakes are proportional to collateral. */
  function Imbalance(s: System, p: Trove, q: Trove): int {
    Cross(CurrentColl(s, q), p.stake, CurrentColl(s, p), q.stake)
  }

  /** How far the debt of p exceeds that of q per unit staked. */
  function Lead(s: System, p: Trove, q: Trove): int {
    Cross(q.stake, CurrentDebt(s, p), p.stake, CurrentDebt(s, q))
  }

  lemma ShareIsProduct(stake: nat, gain: nat)
    ensures ExactShare(stake, gain) == stake as real * PerUnit(gain)
  {
    assert (stake * gain) as real == stake as real * gain as real;
  }

  lemma CrossIsExact(a: nat, b: nat, c: nat, d: nat)
    ensures Cross(a, b, c, d) as real == ExactCross(a as real, b as real, c as real, d as real)
  {
    assert (a * b) as real == a as real * b as real;
    assert (c * d) as real == c as real * d as real;
  }

  /** A gap, and what gains of f and e per unit add to it. */
  function Split(gap: real, imbalance: real, lead: real, e: real, f: real): real {
    gap + f * imbalance + e * lead
  }

  function Plus(amount: real, stake: real, gain: real): real {
    amount + stake * gain
  }

  lemma CrossOfGains(a: real, b: real, c: real, d: real, p: real, q: real, e: real, f: real)
    ensures ExactCross(Plus(a, q, e), Plus(b, p, f), Plus(c, p, e), Plus(d, q, f))
         == Split(ExactCross(a, b, c, d), ExactCross(a, p, c, q), ExactCross(q, b, p, d), e, f)
  {
    var qe, pe, pf, qf := q * e, p * e, p * f, q * f;
    assert (a + qe) * (b + pf) == a * b + a * pf + qe * b + qe * pf;
    assert (c + pe) * (d + qf) == c * d + c * qf + pe * d + pe * qf;
    assert qe * pf == (p * q) * (e * f) == pe * qf;
    assert a * pf - c * qf == f * (a * p - c * q);
    assert qe * b - pe * d == e * (q * b - p * d);
  }

  lemma ExactAmounts(s: System, r: System, t: Trove)
    requires Later(s, r)
    ensures ExactColl(s, r, t)
         == Plus(CurrentColl(s, t) as real, t.stake as real, PerUnit(r.ethPerStake - s.ethPerStake))
    ensures ExactDebt(s, r, t)
         == Plus(CurrentDebt(s, t) as real, t.stake as real, PerUnit(r.debtPerStake - s.debtPerStake))
  {
    ShareIsProduct(t.stake, r.ethPerStake - s.ethPerStake);
    ShareIsProduct(t.stake, r.debtPerStake - s.debtPerStake);
  }

  /**
   The gap after exact shares: the gap before, the debt passed on times the
   imbalance, and the collateral passed on times the lead.
   */
  lemma ExactGapSplits(s: System, r: System, p: Trove, q: Trove)
    requires Later(s, r)
    ensures ExactGap(s, r, p, q)
         == Split(Gap(s, p, q) as real, Imbalance(s, p, q) as real, Lead(s, p, q) as real,
                  PerUnit(r.ethPerStake - s.ethPerStake), PerUnit(r.debtPerStake - s.debtPerStake))
  {
    var e, f := PerUnit(r.ethPerStake - s.ethPerStake), PerUnit(r.debtPerStake - s.debtPerStake);
    var a, b, c, d := CurrentColl(s, q), CurrentDebt(s, p), CurrentColl(s, p), CurrentDebt(s, q);
    ExactAmounts(s, r, p);
    ExactAmounts(s, r, q);
    CrossIsExact(a, b, c, d);
    CrossIsExact(a, p.stake, c, q.stake);
    CrossIsExact(q.stake, b, p.stake, d);
    CrossOfGains(a as real, b as real, c as real, d as real, p.stake as real, q.stake as real, e, f);
  }

  // ----- Order over runs

  /** Over every run, truncation moves the gap between two untouched Troves by less than the tolerance, once. */
  lemma RunGapDrift(s: System, ops: seq<Op>, i: nat, j: nat)
    requires Valid(s) && i < |s.troves| && j < |s.troves| && Untouched(ops, i) && Untouched(ops, j)
    ensures var r, p, q := Run(s, ops), s.troves[i], s.troves[j];
            && r.troves[i] == p && r.troves[j] == q
            && Within(Gap(r, p, q), ExactGap(s, r, p, q), Tolerance(r, p, q))
  {
    RunLeavesOthers(s, ops, i);
    RunLeavesOthers(s, ops, j);
    assert s.troves[i] in s.troves && s.troves[j] in s.troves;
    GapDrift(s, Run(s, ops), s.troves[i], s.troves[j]);
  }

  /** So the order is kept if the exact gap is large enough, and reversed if it is as large the other way. */
  lemma OrderOverRun(s: System, ops: seq<Op>, i: nat, j: nat)
    requires Valid(s) && i < |s.troves| && j < |s.troves| && Untouched(ops, i) && Untouched(ops, j)
    ensures var r, p, q := Run(s, ops), s.troves[i], s.troves[j];
            && (ExactGap(s, r, p, q) >= Tolerance(r, p, q) as real ==> Gap(r, p, q) > 0)
            && (ExactGap(s, r, p, q) <= -(Tolerance(r, p, q) as real) ==> Gap(r, p, q) < 0)
  {
    RunGapDrift(s, ops, i, j);
  }

  // ----- Nominal ratios

  /** Nominal ratios compare like cross products, up to ties. */
  lemma RatioFollowsCross(a: nat, b: nat, c: nat, d: nat)
    requires b > 0 && d > 0 && Cross(a, b, c, d) >= 0
    ensures NominalCR(c, b).value <= NominalCR(a, d).value
  {
    var q := NominalCR(c, b).value;
    DivBounds(c * NICR_PRECISION, b);
    assert q * b <= c * NICR_PRECISION;
    RatioStep(q, a, b, c, d, NICR_PRECISION);
    DivAtLeast(a * NICR_PRECISION, d, q);
  }

  lemma RatioStep(q: nat, a: nat, b: nat, c: nat, d: nat, n: nat)
    requires b > 0 && q * b <= c * n && c * d <= a * b
    ensures q * d <= a * n
  {
    MulMono(q * b, c * n, d);
    MulMono(c * d, a * b, n);
    MulAssoc(q, b, d);
    MulAssoc(c, n, d);
    MulAssoc(a, b, n);
    assert (q * d) * b == (q * b) * d <= (c * n) * d == (c * d) * n <= (a * b) * n == (a * n) * b;
    CancelFactor(q * d, a * n, b);
  }

  /** The ratio is the greatest whose share of the debt the scaled collateral makes up, and infinite without debt. */
  lemma NominalCRIs(coll: nat, debt: nat)
    ensures NominalCR(coll, debt).None? <==> debt == 0
    ensures debt > 0 ==> forall q: nat :: q <= NominalCR(coll, debt).value <==> q * debt <= coll * NICR_PRECISION
  {
    if debt > 0 {
      forall q: nat
        ensures q <= NominalCR(coll, debt).value <==> q * debt <= coll * NICR_PRECISION
      {
        DivAtLeast(coll * NICR_PRECISION, debt, q);
      }
    }
  }

  function Ratio(s: System, t: Trove): Option<nat> {
    NominalCR(CurrentColl(s, t), CurrentDebt(s, t))
  }

  lemma RatioFollowsGap(s: System, p: Trove, q: Trove)
    requires CurrentDebt(s, p) > 0 && CurrentDebt(s, q) > 0
    ensures Gap(s, p, q) >= 0 ==> Ratio(s, p).value <= Ratio(s, q).value
    ensures Ratio(s, p).value < Ratio(s, q).value ==> Gap(s, p, q) > 0
  {
    if Gap(s, p, q) >= 0 {
      RatioFollowsCross(CurrentColl(s, q), CurrentDebt(s, p), CurrentColl(s, p), CurrentDebt(s, q));
    } else {
      RatioFollowsCross(CurrentColl(s, p), CurrentDebt(s, q), CurrentColl(s, q), CurrentDebt(s, p));
    }
    if Gap(s, p, q) == 0 {
      RatioFollowsCross(CurrentColl(s, p), CurrentDebt(s, q), CurrentColl(s, q), CurrentDebt(s, p));
    }
  }

  lemma ShareNeverFalls(stake: nat, at: nat, before: nat, after: nat)
    requires at <= before <= after
    ensures Truncated(Share(stake, at, before)) <= Truncated(Share(stake, at, after))
  {
    MulMono(before - at, after - at, stake);
    DivMono(Share(stake, at, before), Share(stake, at, after), DECIMAL_PRECISION);
  }

  lemma AmountsNeverFall(s: System, r: System, t: Trove)
    requires Later(s, r) && RecordedBy(t, s)
    ensures CurrentColl(r, t) >= CurrentColl(s, t) && CurrentDebt(r, t) >= CurrentDebt(s, t)
  {
    ShareNeverFalls(t.stake, t.atETH, s.ethPerStake, r.ethPerStake);
    ShareNeverFalls(t.stake, t.atDebt, s.debtPerStake, r.debtPerStake);
  }

  // ----- Ratios that fall or rise

  /** What a Trove's collateral and debt, before, have to do with those after: negative if the ratio has fallen. */
  function Change(s: System, r: System, t: Trove): int {
    Cross(CurrentColl(r, t), CurrentDebt(s, t), CurrentColl(s, t), CurrentDebt(r, t))
  }

  /** Gains of e collateral and f debt per unit staked, against the collateral and debt there is. */
  function Weight(stake: real, e: real, f: real, coll: real, debt: real): real {
    stake * (e * debt - f * coll)
  }

  function Rise(s: System, r: System, t: Trove): real
    requires Later(s, r)
  {
    Weight(t.stake as real, PerUnit(r.ethPerStake - s.ethPerStake), PerUnit(r.debtPerStake - s.debtPerStake),
           CurrentColl(s, t) as real, CurrentDebt(s, t) as real)
  }

  predicate Around(x: real, exact: real, bound: real) {
    exact - bound <= x <= exact + bound
  }

  lemma ChangeSplits(c: real, d: real, stake: real, e: real, f: real, x: real, y: real)
    ensures ExactCross(Plus(c, stake, e) + x, d, c, Plus(d, stake, f) + y) == Weight(stake, e, f, c, d) + x * d - y * c
  {
    var se, sf := stake * e, stake * f;
    assert (c + se + x) * d == c * d + se * d + x * d;
    assert c * (d + sf + y) == c * d + c * sf + y * c;
    assert stake * (e * d - f * c) == se * d - c * sf;
  }

  lemma AtMostOneTimes(x: real, d: real)
    requires -1.0 <= x <= 1.0 && d >= 0.0
    ensures Around(x * d, 0.0, d)
  {
    RealMulMono(-1.0, x, d);
    RealMulMono(x, 1.0, d);
  }

  lemma AroundBoth(w: real, u: real, v: real, c: real, d: real)
    requires Around(u, 0.0, d) && Around(v, 0.0, c)
    ensures Around(w + u - v, w, c + d)
  {
  }

  lemma ChangeNear(c: real, d: real, c': real, d': real, stake: real, e: real, f: real)
    requires c >= 0.0 && d >= 0.0
    requires Around(c', Plus(c, stake, e), 1.0) && Around(d', Plus(d, stake, f), 1.0)
    ensures Around(ExactCross(c', d, c, d'), Weight(stake, e, f, c, d), c + d)
  {
    var x, y := c' - Plus(c, stake, e), d' - Plus(d, stake, f);
    ChangeSplits(c, d, stake, e, f, x, y);
    AtMostOneTimes(x, d);
    AtMostOneTimes(y, c);
    AroundBoth(Weight(stake, e, f, c, d), x * d, y * c, c, d);
    assert c' == Plus(c, stake, e) + x && d' == Plus(d, stake, f) + y;
  }

  /** Between s and r the ratio changes by what the gains weigh, to within the collateral and debt before. */
  lemma ChangeDrift(s: System, r: System, t: Trove)
    requires Later(s, r) && RecordedBy(t, s)
    ensures Around(Change(s, r, t) as real, Rise(s, r, t), (CurrentColl(s, t) + CurrentDebt(s, t)) as real)
  {
    var c, d, c', d' := CurrentColl(s, t), CurrentDebt(s, t), CurrentColl(r, t), CurrentDebt(r, t);
    AmountsDrift(s, r, t);
    ExactAmounts(s, r, t);
    CrossIsExact(c', d, c, d');
    ChangeNear(c as real, d as real, c' as real, d' as real, t.stake as real,
               PerUnit(r.ethPerStake - s.ethPerStake), PerUnit(r.debtPerStake - s.debtPerStake));
  }

  lemma RatioFollowsChange(s: System, r: System, t: Trove)
    requires CurrentDebt(s, t) > 0 && CurrentDebt(r, t) > 0
    ensures Change(s, r, t) <= 0 ==> Ratio(r, t).value <= Ratio(s, t).value
    ensures Change(s, r, t) >= 0 ==> Ratio(r, t).value >= Ratio(s, t).value
  {
    if Change(s, r, t) <= 0 {
      RatioFollowsCross(CurrentColl(s, t), CurrentDebt(r, t), CurrentColl(r, t), CurrentDebt(s, t));
    }
    if Change(s, r, t) >= 0 {
      RatioFollowsCross(CurrentColl(r, t), CurrentDebt(s, t), CurrentColl(s, t), CurrentDebt(r, t));
    }
  }

  /**
   Over every run the ratio of an untouched Trove falls if the gains weigh
   more against it than its collateral and debt, and rises if they weigh as
   much for it.
   */
  lemma RatioOverRun(s: System, ops: seq<Op>, i: nat)
    requires Valid(s) && i < |s.troves| && Untouched(ops, i) && CurrentDebt(s, s.troves[i]) > 0
    ensures var r, t := Run(s, ops), s.troves[i];
            var bound := (CurrentColl(s, t) + CurrentDebt(s, t)) as real;
            && r.troves[i] == t && CurrentDebt(r, t) > 0
            && (Rise(s, r, t) < -bound ==> Change(s, r, t) < 0 && Ratio(r, t).value <= Ratio(s, t).value)
            && (Rise(s, r, t) > bound ==> Change(s, r, t) > 0 && Ratio(r, t).value >= Ratio(s, t).value)
  {
    var r, t := Run(s, ops), s.troves[i];
    RunLeavesOthers(s, ops, i);
    assert t in s.troves;
    AmountsNeverFall(s, r, t);
    ChangeDrift(s, r, t);
    RatioFollowsChange(s, r, t);
  }

  // ----- One liquidation, from the system before it

  /** The stakes that are left to share in a liquidation. */
  function StakesLeft(s: System, op: Op): nat
    requires Accounted(s) && Step(s, op).Ok? && op.Liquidate?
  {
    SeizeAll(s, op.victims).value.totalStakes
  }

  /** What an amount, with the error carried on, gives per unit staked; without debt nothing is passed on. */
  function GainPerStake(amount: nat, error: nat, stakes: nat, debt: nat): nat
    requires debt > 0 ==> stakes > 0
  {
    if debt == 0 then 0 else Quotient(amount * DECIMAL_PRECISION + error, stakes)
  }

  function EthGain(s: System, op: Op): nat
    requires Accounted(s) && Step(s, op).Ok? && op.Liquidate?
  {
    GainPerStake(op.coll, s.ethError, StakesLeft(s, op), op.debt)
  }

  function DebtGain(s: System, op: Op): nat
    requires Accounted(s) && Step(s, op).Ok? && op.Liquidate?
  {
    GainPerStake(op.debt, s.debtError, StakesLeft(s, op), op.debt)
  }

  lemma RedistributionGains(s: System, coll: nat, debt: nat)
    requires debt > 0 ==> s.totalStakes > 0
    ensures var r := Snapshot(Redistribute(s, coll, debt));
            && r.ethPerStake == s.ethPerStake + GainPerStake(coll, s.ethError, s.totalStakes, debt)
            && r.debtPerStake == s.debtPerStake + GainPerStake(debt, s.debtError, s.totalStakes, debt)
  {
  }

  lemma LiquidationGains(s: System, op: Op)
    requires Valid(s) && Step(s, op).Ok? && op.Liquidate?
    ensures Step(s, op).value.ethPerStake == s.ethPerStake + EthGain(s, op)
    ensures Step(s, op).value.debtPerStake == s.debtPerStake + DebtGain(s, op)
  {
    LiquidationSteps(s, op);
    var left := SeizeAll(s, op.victims).value;
    RedistributionGains(left, op.coll, op.debt);
  }

  /** The whole units that a share grows by, with the remainder of what was pending before. */
  function TakenOn(share: nat, more: nat): nat {
    Truncated(share % DECIMAL_PRECISION + more)
  }

  lemma TruncatedSum(share: nat, more: nat)
    ensures Truncated(share + more) == Truncated(share) + TakenOn(share, more)
  {
    var d := DECIMAL_PRECISION;
    var q, k, rest := Truncated(share), TakenOn(share, more), share % d + more;
    DivBounds(rest, d);
    assert share == q * d + share % d;
    assert (q + k) * d == q * d + k * d;
    DivUnique(share + more, d, q + k);
  }

  lemma AmountTakenOn(amount: nat, stake: nat, at: nat, perStake: nat, gain: nat)
    requires at <= perStake
    ensures amount + Truncated(Share(stake, at, perStake + gain))
         == amount + Truncated(Share(stake, at, perStake)) + TakenOn(Share(stake, at, perStake), gain * stake)
  {
    ShareGrows(stake, at, perStake, gain);
    TruncatedSum(Share(stake, at, perStake), gain * stake);
  }

  /** The collateral that a Trove takes on from a gain per unit staked. */
  function CollTaken(s: System, t: Trove, gain: nat): nat {
    TakenOn(Share(t.stake, t.atETH, s.ethPerStake), gain * t.stake)
  }

  function DebtTaken(s: System, t: Trove, gain: nat): nat {
    TakenOn(Share(t.stake, t.atDebt, s.debtPerStake), gain * t.stake)
  }

  lemma AmountsTakenOn(s: System, r: System, t: Trove)
    requires Later(s, r) && RecordedBy(t, s)
    ensures CurrentColl(r, t) == CurrentColl(s, t) + CollTaken(s, t, r.ethPerStake - s.ethPerStake)
    ensures CurrentDebt(r, t) == CurrentDebt(s, t) + DebtTaken(s, t, r.debtPerStake - s.debtPerStake)
  {
    AmountTakenOn(t.coll, t.stake, t.atETH, s.ethPerStake, r.ethPerStake - s.ethPerStake);
    AmountTakenOn(t.debt, t.stake, t.atDebt, s.debtPerStake, r.debtPerStake - s.debtPerStake);
  }

  lemma ChangeIs(s: System, r: System, t: Trove)
    requires Later(s, r) && RecordedBy(t, s)
    ensures Change(s, r, t)
         == CollTaken(s, t, r.ethPerStake - s.ethPerStake) * CurrentDebt(s, t)
            - CurrentColl(s, t) * DebtTaken(s, t, r.debtPerStake - s.debtPerStake)
  {
    AmountsTakenOn(s, r, t);
    CrossOfMore(CurrentColl(s, t), CurrentDebt(s, t),
                CollTaken(s, t, r.ethPerStake - s.ethPerStake), DebtTaken(s, t, r.debtPerStake - s.debtPerStake));
  }

  lemma CrossOfMore(c: nat, d: nat, x: nat, y: nat)
    ensures Cross(c + x, d, c, d + y) == x * d - c * y
  {
    assert (c + x) * d == c * d + x * d;
    assert c * (d + y) == c * d + c * y;
  }

  /**
   A liquidation lowers the ratio of a Trove that it leaves if and only if
   the debt it takes on, at the ratio of the Trove, is worth more than the
   collateral; both follow from the amounts passed on, the carried errors,
   the stakes left and the remainders of what was pending.
   */
  lemma RatioFallsIff(s: System, op: Op, i: nat)
    requires Valid(s) && Step(s, op).Ok? && op.Liquidate? && i < |s.troves| && i !in op.victims
    ensures var r, t := Step(s, op).value, s.troves[i];
            && r.troves[i] == t
            && var coll, debt := CollTaken(s, t, EthGain(s, op)), DebtTaken(s, t, DebtGain(s, op));
               && (Change(s, r, t) < 0 <==> coll * CurrentDebt(s, t) < CurrentColl(s, t) * debt)
               && (Change(s, r, t) > 0 <==> coll * CurrentDebt(s, t) > CurrentColl(s, t) * debt)
  {
    assert s.troves[i] in s.troves;
    StepLeavesOthers(s, op, i);
    LiquidationGains(s, op);
    ChangeIs(s, Step(s, op).value, s.troves[i]);
  }

  /** A list of Troves, all with debt, in descending order of nominal ratio. */
  predicate Descending(s: System, order: seq<nat>) {
    && (forall k :: 0 <= k < |order| ==> order[k] < |s.troves| && CurrentDebt(s, s.troves[order[k]]) > 0)
    && forall k, l :: 0 <= k < l < |order| ==>
         Ratio(s, s.troves[order[l]]).value <= Ratio(s, s.troves[order[k]]).value
  }

  /** The exact gap between any two Troves of the list outweighs truncation. */
  ghost predicate Separated(s: System, r: System, order: seq<nat>)
    requires Later(s, r)
  {
    && (forall k :: 0 <= k < |order| ==> order[k] < |s.troves|)
    && forall k, l :: 0 <= k < l < |order| ==>
         var p, q := s.troves[order[l]], s.troves[order[k]];
         ExactGap(s, r, p, q) >= Tolerance(r, p, q) as real
  }

  /** A well separated list of untouched Troves is sorted after the run without moving a node. */
  lemma RunKeepsSorted(s: System, ops: seq<Op>, order: seq<nat>)
    requires Valid(s) && (forall i :: i in order ==> Untouched(ops, i))
    requires Descending(s, order) && Separated(s, Run(s, ops), order)
    ensures Descending(Run(s, ops), order)
  {
    var r := Run(s, ops);
    forall k | 0 <= k < |order|
      ensures r.troves[order[k]] == s.troves[order[k]] && CurrentDebt(r, r.troves[order[k]]) > 0
    {
      assert order[k] in order;
      RunLeavesOthers(s, ops, order[k]);
      assert s.troves[order[k]] in s.troves;
      AmountsNeverFall(s, r, s.troves[order[k]]);
    }
    forall k, l | 0 <= k < l < |order|
      ensures Ratio(r, r.troves[order[l]]).value <= Ratio(r, r.troves[order[k]]).value
    {
      assert order[k] in order && order[l] in order;
      OrderOverRun(s, ops, order[l], order[k]);
      RatioFollowsGap(r, s.troves[order[l]], s.troves[order[k]]);
    }
  }

  // ----- Troves recorded since the last liquidation

  /** The stake is what the present snapshots give for the collateral. */
  predicate Fresh(s: System, t: Trove) {
    t.stake == NewStake(s, CurrentColl(s, t))
  }

  lemma PresentColl(s: System, t: Trove)
    requires t.atETH == s.ethPerStake
    ensures CurrentColl(s, t) == t.coll
  {
    ShareIsZero(t.stake, t.atETH, s.ethPerStake);
  }

  /** Opening and adjusting leave a fresh Trove; it stays fresh until the next liquidation. */
  lemma FreshUntilLiquidation(s: System, op: Op, i: nat)
    requires Valid(s) && i < |s.troves| && Step(s, op).Ok? && !op.Liquidate?
    requires (Fresh(s, s.troves[i]) && !Touches(op, i)) || (Touches(op, i) && !op.Close?)
    ensures Fresh(Step(s, op).value, Step(s, op).value.troves[i])
  {
    var r := Step(s, op).value;
    if Touches(op, i) {
      if op.Adjust? {
        ApplyPendingKeepsValid(s, i);
      }
      PresentColl(r, r.troves[i]);
    } else {
      StepLeavesOthers(s, op, i);
    }
  }

  lemma NewStakeBounds(s: System, coll: nat)
    requires s.collSnapshot > 0
    ensures NewStake(s, coll) * s.collSnapshot <= coll * s.stakesSnapshot
         < NewStake(s, coll) * s.collSnapshot + s.collSnapshot
  {
    DivBounds(coll * s.stakesSnapshot, s.collSnapshot);
  }

  /** With remainders x and y below tc, the cross product of collateral and stakes is at most the collateral. */
  lemma TruncatedStakes(a: nat, c: nat, p: nat, q: nat, ts: nat, tc: nat, x: nat, y: nat)
    requires x < tc && y < tc && p * tc + x == c * ts && q * tc + y == a * ts
    ensures 0 <= Cross(a, p, c, q) + a && Cross(a, p, c, q) <= c
  {
    var u := Cross(a, p, c, q);
    var ax, cy := a * x, c * y;
    assert a * (p * tc + x) == c * (q * tc + y) by { MulAssoc(a, c, ts); MulAssoc(c, a, ts); }
    assert a * (p * tc + x) == (a * p) * tc + ax by { MulAssoc(a, p, tc); }
    assert c * (q * tc + y) == (c * q) * tc + cy by { MulAssoc(c, q, tc); }
    assert u * tc == cy - ax;
    MulMono(x, tc, a);
    MulMono(y, tc, c);
    CancelFactor(u, c, tc);
    assert (u + a) * tc == u * tc + a * tc;
    CancelFactor(0, u + a, tc);
  }

  /** Between fresh Troves the imbalance is at most their collateral. */
  lemma FreshImbalance(s: System, p: Trove, q: Trove)
    requires Fresh(s, p) && Fresh(s, q)
    ensures 0 <= Imbalance(s, p, q) + CurrentColl(s, q) && Imbalance(s, p, q) <= CurrentColl(s, p)
  {
    if s.collSnapshot > 0 {
      var c, a := CurrentColl(s, p), CurrentColl(s, q);
      NewStakeBounds(s, c);
      NewStakeBounds(s, a);
      TruncatedStakes(a, c, p.stake, q.stake, s.stakesSnapshot, s.collSnapshot,
                      c * s.stakesSnapshot - p.stake * s.collSnapshot, a * s.stakesSnapshot - q.stake * s.collSnapshot);
    }
  }

  lemma CrossIdentity(a: int, b: int, c: int, d: int, p: int, q: int)
    ensures c * (q * b - p * d) == p * (a * b - c * d) - b * (a * p - c * q)
  {
    assert c * (q * b - p * d) == c * q * b - c * p * d;
    assert p * (a * b - c * d) == p * a * b - c * p * d;
    assert b * (a * p - c * q) == p * a * b - c * q * b;
  }

  lemma LeadBound(a: nat, b: nat, c: nat, d: nat, p: nat, q: nat)
    requires Cross(a, b, c, d) >= 0 && Cross(a, p, c, q) <= c && (c == 0 ==> p == 0)
    ensures 0 <= Cross(q, b, p, d) + b
  {
    var v, g, u := Cross(q, b, p, d), Cross(a, b, c, d), Cross(a, p, c, q);
    if c == 0 {
      assert v == q * b;
    } else {
      CrossIdentity(a, b, c, d, p, q);
      assert c * v == p * g - b * u;
      assert p * g >= 0;
      assert b * (c - u) >= 0;
      assert (v + b) * c == c * v + b * c;
      assert b * (c - u) == b * c - b * u;
      CancelFactor(0, v + b, c);
    }
  }

  lemma NoStakeWithoutColl(s: System)
    ensures NewStake(s, 0) == 0
  {
    if s.collSnapshot > 0 {
      DivUnique(0, s.collSnapshot, 0);
    }
  }

  lemma FreshLead(s: System, p: Trove, q: Trove)
    requires Fresh(s, p) && Fresh(s, q) && Gap(s, p, q) >= 0
    ensures 0 <= Lead(s, p, q) + CurrentDebt(s, p)
  {
    FreshImbalance(s, p, q);
    NoStakeWithoutColl(s);
    LeadBound(CurrentColl(s, q), CurrentDebt(s, p), CurrentColl(s, p), CurrentDebt(s, q), p.stake, q.stake);
  }

  /** The gap outweighs the gains per unit times the given amounts, and the bound. */
  predicate Outweighs(gap: real, e: real, f: real, coll: real, debt: real, bound: real) {
    gap >= f * coll + e * debt + bound
  }

  lemma SplitAtLeast(gap: real, imbalance: real, lead: real, e: real, f: real, coll: real, debt: real, bound: real)
    requires e >= 0.0 && f >= 0.0 && imbalance + coll >= 0.0 && lead + debt >= 0.0
    requires Outweighs(gap, e, f, coll, debt, bound)
    ensures Split(gap, imbalance, lead, e, f) >= bound
  {
    RealMulNonneg(f, imbalance + coll);
    RealMulNonneg(e, lead + debt);
    assert f * (imbalance + coll) == f * imbalance + f * coll;
    assert e * (lead + debt) == e * lead + e * debt;
  }

  /** The gap between p and q outweighs what is redistributed to them between s and r, and truncation. */
  predicate WideGap(s: System, r: System, p: Trove, q: Trove)
    requires Later(s, r)
  {
    Outweighs(Gap(s, p, q) as real, PerUnit(r.ethPerStake - s.ethPerStake), PerUnit(r.debtPerStake - s.debtPerStake),
              CurrentColl(s, q) as real, CurrentDebt(s, p) as real, Tolerance(r, p, q) as real)
  }

  lemma WideGapIsPositive(gap: real, e: real, f: real, coll: real, debt: real, bound: real)
    requires Outweighs(gap, e, f, coll, debt, bound)
    requires e >= 0.0 && f >= 0.0 && coll >= 0.0 && debt >= 0.0 && bound >= 0.0
    ensures gap >= 0.0
  {
    RealMulNonneg(f, coll);
    RealMulNonneg(e, debt);
  }

  lemma FreshExactGap(s: System, r: System, p: Trove, q: Trove)
    requires Later(s, r) && Fresh(s, p) && Fresh(s, q) && WideGap(s, r, p, q)
    ensures ExactGap(s, r, p, q) >= Tolerance(r, p, q) as real
  {
    var e, f := PerUnit(r.ethPerStake - s.ethPerStake), PerUnit(r.debtPerStake - s.debtPerStake);
    WideGapIsPositive(Gap(s, p, q) as real, e, f, CurrentColl(s, q) as real, CurrentDebt(s, p) as real,
                      Tolerance(r, p, q) as real);
    FreshImbalance(s, p, q);
    FreshLead(s, p, q);
    SplitAtLeast(Gap(s, p, q) as real, Imbalance(s, p, q) as real, Lead(s, p, q) as real, e, f,
                 CurrentColl(s, q) as real, CurrentDebt(s, p) as real, Tolerance(r, p, q) as real);
    ExactGapSplits(s, r, p, q);
  }

  /**
   Fresh Troves stay in order over every run that does not touch them if the
   gap between them outweighs the debt passed on per unit staked times the
   one's collateral, the collateral passed on times the other's debt, and
   the tolerance.
   */
  lemma FreshOrderKept(s: System, ops: seq<Op>, i: nat, j: nat)
    requires Valid(s) && i < |s.troves| && j < |s.troves| && Untouched(ops, i) && Untouched(ops, j)
    requires Fresh(s, s.troves[i]) && Fresh(s, s.troves[j])
    requires WideGap(s, Run(s, ops), s.troves[i], s.troves[j])
    ensures Gap(Run(s, ops), s.troves[i], s.troves[j]) > 0
  {
    FreshExactGap(s, Run(s, ops), s.troves[i], s.troves[j]);
    OrderOverRun(s, ops, i, j);
  }

  // ----- Order across one liquidation

  /** At least the tolerance after gains of e and f per unit staked. */
  function ToleranceAfter(s: System, p: Trove, q: Trove, e: real, f: real): real {
    Grown(Tolerance(s, p, q) as real, p.stake as real + q.stake as real, e, f)
  }

  function Grown(tolerance: real, stakes: real, e: real, f: real): real {
    tolerance + stakes * (e + f) + 4.0
  }

  lemma TotalGrows(a: nat, b: nat, c: nat, d: nat, a': nat, b': nat, c': nat, d': nat,
                   p: real, q: real, e: real, f: real)
    requires Near(a', Plus(a as real, q, e)) && Near(b', Plus(b as real, p, f))
    requires Near(c', Plus(c as real, p, e)) && Near(d', Plus(d as real, q, f))
    ensures Total(a', b', c', d') as real <= Grown(Total(a, b, c, d) as real, p + q, e, f)
  {
    assert (p + q) * (e + f) == p * e + p * f + q * e + q * f;
  }

  lemma ToleranceGrows(s: System, r: System, p: Trove, q: Trove)
    requires Later(s, r) && RecordedBy(p, s) && RecordedBy(q, s)
    ensures Tolerance(r, p, q) as real
         <= ToleranceAfter(s, p, q, PerUnit(r.ethPerStake - s.ethPerStake), PerUnit(r.debtPerStake - s.debtPerStake))
  {
    AmountsDrift(s, r, p);
    AmountsDrift(s, r, q);
    ExactAmounts(s, r, p);
    ExactAmounts(s, r, q);
    TotalGrows(CurrentColl(s, q), CurrentDebt(s, p), CurrentColl(s, p), CurrentDebt(s, q),
               CurrentColl(r, q), CurrentDebt(r, p), CurrentColl(r, p), CurrentDebt(r, q),
               p.stake as real, q.stake as real,
               PerUnit(r.ethPerStake - s.ethPerStake), PerUnit(r.debtPerStake - s.debtPerStake));
  }

  lemma OutweighsLess(gap: real, e: real, f: real, coll: real, debt: real, bound: real, bound': real)
    requires Outweighs(gap, e, f, coll, debt, bound) && bound' <= bound
    ensures Outweighs(gap, e, f, coll, debt, bound')
  {
  }

  /**
   A liquidation keeps two fresh Troves in order if the gap between them
   outweighs what it passes on per unit staked, and truncation; all of it
   known before the liquidation.
   */
  lemma LiquidationKeepsOrder(s: System, op: Op, i: nat, j: nat)
    requires Valid(s) && Step(s, op).Ok? && op.Liquidate? && i < |s.troves| && j < |s.troves|
    requires i !in op.victims && j !in op.victims && Fresh(s, s.troves[i]) && Fresh(s, s.troves[j])
    requires var p, q, e, f := s.troves[i], s.troves[j], PerUnit(EthGain(s, op)), PerUnit(DebtGain(s, op));
             Outweighs(Gap(s, p, q) as real, e, f, CurrentColl(s, q) as real, CurrentDebt(s, p) as real,
                       ToleranceAfter(s, p, q, e, f))
    ensures Gap(Step(s, op).value, s.troves[i], s.troves[j]) > 0
  {
    var r, p, q := Step(s, op).value, s.troves[i], s.troves[j];
    assert p in s.troves && q in s.troves;
    LiquidationGains(s, op);
    var e, f := PerUnit(EthGain(s, op)), PerUnit(DebtGain(s, op));
    ToleranceGrows(s, r, p, q);
    OutweighsLess(Gap(s, p, q) as real, e, f, CurrentColl(s, q) as real, CurrentDebt(s, p) as real,
                  ToleranceAfter(s, p, q, e, f), Tolerance(r, p, q) as real);
    FreshExactGap(s, r, p, q);
    GapDrift(s, r, p, q);
  }
}
