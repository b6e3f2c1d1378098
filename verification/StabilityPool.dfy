/**
 `StabilityPool`: deposits that shrink and earn with every liquidation,
 tracked for all depositors at once by a running product P and running sums
 S, both kept as truncated integers with error feedback.

 Depositors are numbered; a slot of value 0 is an address without deposit.
 Amounts are unbounded: the 256-bit range is not modelled.  ZERO issuance
 (the sums G and the front ends) is left out.
 */
module StabilityPool {
  import opened Arithmetic
  import opened Outcomes

  const DECIMAL_PRECISION: nat := 1_000_000_000_000_000_000
  const SCALE_FACTOR: nat := 1_000_000_000

  /** The running product P, how often it was scaled up, and how often the pool was emptied. */
  datatype Product = Product(P: nat, scale: nat, epoch: nat)

  /** A deposit as last recorded, with the product and the sum S of that time. */
  datatype Deposit = Deposit(value: nat, at: Product, S: nat)

  const NoDeposit: Deposit := Deposit(0, Product(0, 0, 0), 0)

  datatype Pool = Pool(
    product: Product,
    sums: map<(nat, nat), nat>,
    total: nat,
    eth: nat,
    lossError: nat,
    ethError: nat,
    deposits: seq<Deposit>
  ) {
    /** epochToScaleToSum */
    function SumAt(e: nat, s: nat): nat {
      if (e, s) in sums then sums[(e, s)] else 0
    }
  }

  /** The pool after `setAddresses`, with n addresses. */
  function Initial(n: nat): Pool {
    Pool(Product(DECIMAL_PRECISION, 0, 0), map[], 0, 0, 0, 0, seq(n, _ => NoDeposit))
  }

  /** A deposit's snapshot was taken in the past. */
  predicate WellFormedDeposit(p: Pool, d: Deposit) {
    d.value > 0 ==>
      && d.at.P > 0
      && (d.at.epoch < p.product.epoch || (d.at.epoch == p.product.epoch && d.at.scale <= p.product.scale))
      && d.S <= p.SumAt(d.at.epoch, d.at.scale)
  }

  /** The sums of scales and epochs yet to come are zero. */
  ghost predicate NoFutureSums(p: Pool) {
    forall e: nat, s: nat ::
      e > p.product.epoch || (e == p.product.epoch && s > p.product.scale) ==> p.SumAt(e, s) == 0
  }

  ghost predicate WellFormed(p: Pool) {
    && p.product.P > 0
    && (forall i :: 0 <= i < |p.deposits| ==> WellFormedDeposit(p, p.deposits[i]))
    && NoFutureSums(p)
  }

  // ----- Views

  function FloorDiv(n: nat, d: nat): nat
    requires d > 0
  {
    DivNonneg(n, d);
    n / d
  }

  /** `getCompoundedZUSDDeposit` */
  function Compounded(p: Pool, d: Deposit): nat
    requires WellFormedDeposit(p, d)
  {
    if d.value == 0 || d.at.epoch < p.product.epoch then 0
    else
      var diff := p.product.scale - d.at.scale;
      var stake := if diff == 0 then FloorDiv(d.value * p.product.P, d.at.P)
                   else if diff == 1 then FloorDiv(FloorDiv(d.value * p.product.P, d.at.P), SCALE_FACTOR)
                   else 0;
      if stake < d.value / 1_000_000_000 then 0 else stake
  }

  /** What the sums S have gained since the snapshot, over at most one change of scale. */
  function Portions(p: Pool, d: Deposit): nat
    requires WellFormedDeposit(p, d) && d.value > 0
  {
    (p.SumAt(d.at.epoch, d.at.scale) - d.S) + FloorDiv(p.SumAt(d.at.epoch, d.at.scale + 1), SCALE_FACTOR)
  }

  /** `getDepositorETHGain` */
  function EthGain(p: Pool, d: Deposit): nat
    requires WellFormedDeposit(p, d)
  {
    if d.value == 0 then 0
    else FloorDiv(FloorDiv(d.value * Portions(p, d), d.at.P), DECIMAL_PRECISION)
  }

  // ----- Operations; Err is a revert

  datatype PerUnit = PerUnit(amount: nat, error: nat)

  /** The loss per unit staked, rounded up, and the error carried to the next offset. */
  function LossPerUnit(total: nat, debt: nat, lastError: nat): PerUnit
    requires 0 < debt <= total
    requires debt < total ==> lastError <= debt * DECIMAL_PRECISION
  {
    if debt == total then PerUnit(DECIMAL_PRECISION, 0)
    else
      var numerator := debt * DECIMAL_PRECISION - lastError;
      DivBounds(numerator, total);
      var amount := FloorDiv(numerator, total) + 1;
      PerUnit(amount, amount * total - numerator)
  }

  /** The ETH gain per unit staked, rounded down, and the error carried to the next offset. */
  function GainPerUnit(total: nat, coll: nat, lastError: nat): PerUnit
    requires 0 < total
  {
    var numerator := coll * DECIMAL_PRECISION + lastError;
    DivBounds(numerator, total);
    var amount := FloorDiv(numerator, total);
    PerUnit(amount, numerator - amount * total)
  }

  /** S grows by the gain at the present product. */
  function WithGain(p: Pool, gainPerUnit: nat): map<(nat, nat), nat> {
    var key := (p.product.epoch, p.product.scale);
    p.sums[key := p.SumAt(key.0, key.1) + gainPerUnit * p.product.P]
  }

  /** Every deposit shrinks to `factor` parts in 10^18. */
  function Shrunk(a: Product, factor: nat): Product {
    if factor == 0 then Product(DECIMAL_PRECISION, 0, a.epoch + 1)
    else if FloorDiv(a.P * factor, DECIMAL_PRECISION) < SCALE_FACTOR then
      Product(FloorDiv(a.P * factor * SCALE_FACTOR, DECIMAL_PRECISION), a.scale + 1, a.epoch)
    else Product(FloorDiv(a.P * factor, DECIMAL_PRECISION), a.scale, a.epoch)
  }

  /** `offset`: debt is cancelled against the deposits, which receive the collateral. */
  function Offset(p: Pool, debt: nat, coll: nat): Result<Pool> {
    if p.total == 0 || debt == 0 then Ok(p)
    else if debt > p.total || (debt < p.total && debt * DECIMAL_PRECISION < p.lossError) then Err
    else
      var loss := LossPerUnit(p.total, debt, p.lossError);
      var gain := GainPerUnit(p.total, coll, p.ethError);
      if loss.amount > DECIMAL_PRECISION then Err
      else
        var product := Shrunk(p.product, DECIMAL_PRECISION - loss.amount);
        if product.P == 0 then Err
        else Ok(Pool(product, WithGain(p, gain.amount), p.total - debt, p.eth + coll,
                     loss.error, gain.error, p.deposits))
  }

  /** `_updateDepositAndSnapshots` */
  function Renewed(p: Pool, value: nat): Deposit {
    if value == 0 then NoDeposit
    else Deposit(value, p.product, p.SumAt(p.product.epoch, p.product.scale))
  }

  /** Pays out the ETH gain and records the deposit anew, with `paidIn` more or `paidOut` less in the pool. */
  function Settle(p: Pool, who: nat, paidIn: nat, paidOut: nat): Result<Pool>
    requires WellFormed(p) && who < |p.deposits|
  {
    var d := p.deposits[who];
    var compounded := Compounded(p, d);
    var gain := EthGain(p, d);
    if compounded > d.value || gain > p.eth || paidOut > compounded + paidIn || paidOut > p.total + paidIn then Err
    else Ok(p.(total := p.total + paidIn - paidOut,
               eth := p.eth - gain,
               deposits := p.deposits[who := Renewed(p, compounded + paidIn - paidOut)]))
  }

  datatype Op =
    | Provide(who: nat, amount: nat)
    | Withdraw(who: nat, amount: nat, noUndercollateralizedTroves: bool)
    | MoveGainToTrove(who: nat, hasTrove: bool)
    | Liquidate(debt: nat, coll: nat)

  /** A step of the contract; a revert leaves the pool as it was. */
  function Step(p: Pool, op: Op): Result<Pool>
    requires WellFormed(p)
  {
    match op
    case Liquidate(debt, coll) => Offset(p, debt, coll)
    case Provide(who, amount) =>
      if who >= |p.deposits| || amount == 0 then Err else Settle(p, who, amount, 0)
    case Withdraw(who, amount, noneBelow) =>
      if who >= |p.deposits| || (amount != 0 && !noneBelow) || p.deposits[who].value == 0 then Err
      else
        var compounded := Compounded(p, p.deposits[who]);
        Settle(p, who, 0, if amount < compounded then amount else compounded)
    case MoveGainToTrove(who, hasTrove) =>
      if who >= |p.deposits| || p.deposits[who].value == 0 || !hasTrove || EthGain(p, p.deposits[who]) == 0 then Err
      else Settle(p, who, 0, 0)
  }

  // ----- Well-formedness is kept

  lemma SumsAfterGain(p: Pool, q: Pool, gain: nat, e: nat, s: nat)
    requires q.sums == WithGain(p, gain)
    ensures q.SumAt(e, s)
         == p.SumAt(e, s) + if e == p.product.epoch && s == p.product.scale then gain * p.product.P else 0
  {
  }

  lemma OffsetWellFormed(p: Pool, debt: nat, coll: nat)
    requires WellFormed(p)
    requires Offset(p, debt, coll).Ok?
    ensures WellFormed(Offset(p, debt, coll).value)
    ensures Offset(p, debt, coll).value.deposits == p.deposits
  {
    if p.total > 0 && debt > 0 {
      var q := Offset(p, debt, coll).value;
      var gain := GainPerUnit(p.total, coll, p.ethError).amount;
      forall e: nat, s: nat
        ensures q.SumAt(e, s) >= p.SumAt(e, s)
        ensures e > q.product.epoch || (e == q.product.epoch && s > q.product.scale) ==> q.SumAt(e, s) == 0
      {
        SumsAfterGain(p, q, gain, e, s);
        MulMono(0, gain, p.product.P);
      }
      forall i | 0 <= i < |q.deposits|
        ensures WellFormedDeposit(q, q.deposits[i])
      {
        assert WellFormedDeposit(p, p.deposits[i]);
        var at := p.deposits[i].at;
        assert q.SumAt(at.epoch, at.scale) >= p.SumAt(at.epoch, at.scale);
      }
    }
  }

  lemma SettleWellFormed(p: Pool, who: nat, paidIn: nat, paidOut: nat)
    requires WellFormed(p) && who < |p.deposits|
    requires Settle(p, who, paidIn, paidOut).Ok?
    ensures WellFormed(Settle(p, who, paidIn, paidOut).value)
  {
    var q := Settle(p, who, paidIn, paidOut).value;
    forall e: nat, s: nat
      ensures q.SumAt(e, s) == p.SumAt(e, s)
    {
    }
    forall i | 0 <= i < |q.deposits|
      ensures WellFormedDeposit(q, q.deposits[i])
    {
      if i != who {
        assert WellFormedDeposit(p, p.deposits[i]);
      }
    }
  }

  lemma StepWellFormed(p: Pool, op: Op)
    requires WellFormed(p)
    requires Step(p, op).Ok?
    ensures WellFormed(Step(p, op).value)
  {
    match op
    case Liquidate(debt, coll) => OffsetWellFormed(p, debt, coll);
    case Provide(who, amount) => SettleWellFormed(p, who, amount, 0);
    case Withdraw(who, amount, _) =>
      var compounded := Compounded(p, p.deposits[who]);
      SettleWellFormed(p, who, 0, if amount < compounded then amount else compounded);
    case MoveGainToTrove(who, _) => SettleWellFormed(p, who, 0, 0);
  }

  // ----- What deposits are worth, exactly

  /** 10^(9k) */
  function ScalePower(k: nat): (r: real)
    ensures r > 0.0
  {
    if k == 0 then 1.0 else SCALE_FACTOR as real * ScalePower(k - 1)
  }

  /** The product that P stands for at its scale. */
  function Level(P: nat, scale: nat): (r: real)
    ensures r >= 0.0
    ensures P > 0 ==> r > 0.0
  {
    P as real / ScalePower(scale)
  }

  /** A deposit of the given epoch relative to the product at its snapshot; past deposits weigh nothing. */
  function Weight(epoch: nat, d: Deposit): (r: real)
    ensures r >= 0.0
  {
    if d.value == 0 || d.at.epoch != epoch || d.at.P == 0 then 0.0
    else
      RealDivNonneg(d.value as real, Level(d.at.P, d.at.scale));
      d.value as real / Level(d.at.P, d.at.scale)
  }

  lemma RealDivNonneg(a: real, b: real)
    requires a >= 0.0 && b > 0.0
    ensures a / b >= 0.0
  {
  }

  /** What a deposit is worth at the present product, without truncation. */
  function Worth(a: Product, d: Deposit): real {
    Weighed(Level(a.P, a.scale), Weight(a.epoch, d))
  }

  function Weighed(level: real, weight: real): real {
    level * weight
  }

  /** What all deposits together are worth. */
  function TotalWorth(a: Product, ds: seq<Deposit>): real {
    if ds == [] then 0.0 else TotalWorth(a, ds[..|ds| - 1]) + Worth(a, ds[|ds| - 1])
  }

  lemma {:induction false} TotalWorthUpdate(a: Product, ds: seq<Deposit>, i: nat, d: Deposit)
    requires i < |ds|
    ensures TotalWorth(a, ds[i := d]) == TotalWorth(a, ds) - Worth(a, ds[i]) + Worth(a, d)
  {
    var init := ds[..|ds| - 1];
    if i == |ds| - 1 {
      assert ds[i := d][..|ds| - 1] == init;
    } else {
      TotalWorthUpdate(a, init, i, d);
      assert ds[i := d][..|ds| - 1] == init[i := d];
    }
  }

  lemma {:induction false} TotalWorthNonneg(a: Product, ds: seq<Deposit>)
    ensures TotalWorth(a, ds) >= 0.0
  {
    if ds != [] {
      TotalWorthNonneg(a, ds[..|ds| - 1]);
      WorthNonneg(a, ds[|ds| - 1]);
    }
  }

  /** In a new epoch nothing is worth anything yet. */
  lemma {:induction false} TotalWorthOfPast(a: Product, ds: seq<Deposit>)
    requires forall i :: 0 <= i < |ds| && ds[i].value > 0 ==> ds[i].at.epoch < a.epoch
    ensures TotalWorth(a, ds) == 0.0
  {
    if ds != [] {
      var init := ds[..|ds| - 1];
      assert forall i :: 0 <= i < |init| ==> init[i] == ds[i];
      TotalWorthOfPast(a, init);
    }
  }

  // ----- Truncation only lowers a compounded deposit

  lemma FloorDivAtMost(n: nat, d: nat)
    requires d > 0
    ensures FloorDiv(n, d) as real * d as real <= n as real
    ensures FloorDiv(n, d) as real <= n as real / d as real
  {
  }

  lemma QuotientAtLeast(q: real, d: real, n: real)
    requires d > 0.0 && q * d <= n
    ensures q <= n / d
  {
  }

  lemma RatioOfLevels(v: real, a: real, b: real, k: real, l: real)
    requires b > 0.0 && k > 0.0 && l > 0.0
    ensures (b / k) > 0.0
    ensures (a / (k * l)) * (v / (b / k)) == v * a / b / l
  {
  }

  function Proportion(value: nat, P: nat, Q: nat): real
    requires Q > 0
  {
    value as real * P as real / Q as real
  }

  /** A deposit's value times the ratio of the products, over at most one change of scale. */
  function RatioWorth(a: Product, d: Deposit): real
    requires d.at.P > 0
  {
    if a.scale == d.at.scale then Proportion(d.value, a.P, d.at.P)
    else Proportion(d.value, a.P, d.at.P) / SCALE_FACTOR as real
  }

  lemma LevelOfScale(P: nat, scale: nat, other: nat)
    requires other == scale || other == scale + 1
    ensures Level(P, other)
         == P as real / (ScalePower(scale) * if other == scale then 1.0 else SCALE_FACTOR as real)
  {
  }

  lemma WorthInScale(a: Product, d: Deposit)
    requires d.value > 0 && d.at.epoch == a.epoch && d.at.P > 0
    requires d.at.scale <= a.scale <= d.at.scale + 1
    ensures Worth(a, d) == RatioWorth(a, d)
  {
    var l := if a.scale == d.at.scale then 1.0 else SCALE_FACTOR as real;
    LevelOfScale(a.P, d.at.scale, a.scale);
    RatioOfLevels(d.value as real, a.P as real, d.at.P as real, ScalePower(d.at.scale), l);
  }

  lemma WorthNonneg(a: Product, d: Deposit)
    ensures Worth(a, d) >= 0.0
  {
  }

  lemma CompoundedAtMostRatio(p: Pool, d: Deposit)
    requires WellFormedDeposit(p, d)
    requires d.value > 0 && d.at.epoch == p.product.epoch && p.product.scale <= d.at.scale + 1
    ensures Compounded(p, d) as real <= RatioWorth(p.product, d) || Compounded(p, d) == 0
  {
  }

  /** Truncation only ever lowers what a depositor can withdraw. */
  lemma CompoundedAtMostWorth(p: Pool, d: Deposit)
    requires WellFormedDeposit(p, d)
    ensures Compounded(p, d) as real <= Worth(p.product, d)
  {
    WorthNonneg(p.product, d);
    if d.value > 0 && d.at.epoch == p.product.epoch && p.product.scale <= d.at.scale + 1 {
      WorthInScale(p.product, d);
      CompoundedAtMostRatio(p, d);
    }
  }

  /** A renewed deposit is worth exactly its value. */
  lemma RenewedWorth(p: Pool, value: nat)
    requires p.product.P > 0
    ensures Worth(p.product, Renewed(p, value)) == value as real
  {
  }

  // ----- Deposits are covered

  /** By how much w exceeds t, in units of 10^-18. */
  function ExcessOf(w: real, t: real): real {
    DECIMAL_PRECISION as real * (w - t)
  }

  /** By how much the deposits are worth more than the pool holds, in units of 10^-18. */
  function Excess(p: Pool): real {
    ExcessOf(TotalWorth(p.product, p.deposits), p.total as real)
  }

  /** The excess is at most the bound less the carried error, which is within the bound. */
  ghost predicate Covered(p: Pool, bound: real) {
    && Excess(p) + p.lossError as real <= bound
    && p.lossError as real <= bound
  }

  /** Settling a deposit never adds to the excess. */
  lemma SettleExcess(p: Pool, who: nat, paidIn: nat, paidOut: nat)
    requires WellFormed(p) && who < |p.deposits|
    requires Settle(p, who, paidIn, paidOut).Ok?
    ensures Excess(Settle(p, who, paidIn, paidOut).value) <= Excess(p)
  {
    var d := p.deposits[who];
    var value := Compounded(p, d) + paidIn - paidOut;
    CompoundedAtMostWorth(p, d);
    RenewedWorth(p, value);
    TotalWorthUpdate(p.product, p.deposits, who, Renewed(p, value));
  }

  /** The loss charged is at most everything, and accounts for the debt up to the change of the carried error. */
  lemma LossAccounting(total: nat, debt: nat, lastError: nat)
    requires 0 < debt <= total
    requires debt < total ==> lastError <= debt * DECIMAL_PRECISION
    ensures var loss := LossPerUnit(total, debt, lastError);
            && 0 < loss.amount <= DECIMAL_PRECISION
            && loss.error <= total
            && (debt < total ==> loss.error > 0)
            && (debt < total ==> loss.amount * total == debt * DECIMAL_PRECISION - lastError + loss.error)
  {
  }

  /** Shrinking by a factor multiplies the exact product by at most that factor. */
  lemma ShrunkLevel(a: Product, factor: nat)
    requires factor > 0
    ensures Shrunk(a, factor).epoch == a.epoch
    ensures AtMostPart(Level(Shrunk(a, factor).P, Shrunk(a, factor).scale), Level(a.P, a.scale), factor)
  {
  }

  /** x is at most `factor` parts in 10^18 of u. */
  predicate AtMostPart(x: real, u: real, factor: nat) {
    x * DECIMAL_PRECISION as real <= u * factor as real
  }

  lemma PartsAdd(x: real, y: real, u: real, v: real, factor: nat)
    requires AtMostPart(x, u, factor) && AtMostPart(y, v, factor)
    ensures AtMostPart(x + y, u + v, factor)
  {
  }

  lemma PartsScale(l: real, m: real, w: real, factor: nat)
    requires AtMostPart(l, m, factor) && w >= 0.0
    ensures AtMostPart(Weighed(l, w), Weighed(m, w), factor)
  {
    var c, f := DECIMAL_PRECISION as real, factor as real;
    RealMulMono(l * c, m * f, w);
    assert (l * w) * c == (l * c) * w;
    assert (m * w) * f == (m * f) * w;
  }

  lemma WorthAtLevels(part: (real, real, nat) -> bool, a: Product, b: Product, factor: nat, d: Deposit)
    requires a.epoch == b.epoch
    requires part(Weighed(Level(b.P, b.scale), Weight(a.epoch, d)),
                  Weighed(Level(a.P, a.scale), Weight(a.epoch, d)), factor)
    ensures part(Worth(b, d), Worth(a, d), factor)
  {
  }

  lemma ShrunkWorth(a: Product, factor: nat, d: Deposit)
    requires factor > 0
    ensures AtMostPart(Worth(Shrunk(a, factor), d), Worth(a, d), factor)
  {
    ShrunkLevel(a, factor);
    var b := Shrunk(a, factor);
    PartsScale(Level(b.P, b.scale), Level(a.P, a.scale), Weight(a.epoch, d), factor);
    WorthAtLevels(AtMostPart, a, b, factor, d);
  }

  lemma {:induction false} ShrunkTotalWorth(a: Product, b: Product, factor: nat, ds: seq<Deposit>)
    requires factor > 0 && b == Shrunk(a, factor)
    ensures AtMostPart(TotalWorth(b, ds), TotalWorth(a, ds), factor)
  {
    if ds == [] {
      assert AtMostPart(0.0, 0.0, factor);
    } else {
      var init, last := ds[..|ds| - 1], ds[|ds| - 1];
      ShrunkTotalWorth(a, b, factor, init);
      ShrunkWorth(a, factor, last);
      PartsAdd(TotalWorth(b, init), Worth(b, last), TotalWorth(a, init), Worth(a, last), factor);
    }
  }

  /**
   With w = total worth, t = total held, f = 1 - l the share that is left
   and e, e' the errors carried in and out: if the loss accounts for the
   debt up to e' - e, the excess grows by no more than the part of e that
   the shrinking does not scale down.
   */
  lemma ExcessArithmetic(c: real, w: real, w': real, t: real, debt: real, l: real, e: real, e': real, bound: real)
    requires c > 0.0 && 0.0 <= l <= c
    requires w' * c <= w * (c - l)
    requires l * t == debt * c - e + e'
    requires c * (w - t) + e <= bound && e <= bound
    ensures c * (w' - (t - debt)) + e' <= bound
  {
    var x := w - t;
    assert w * (c - l) == t * (c - l) + x * (c - l);
    assert c * (w' - (t - debt)) + e' <= x * (c - l) + e by {
      assert c * (w' - (t - debt)) == w' * c - c * t + c * debt;
      assert t * (c - l) == c * t - l * t;
    }
    var u := (c - l) / c;
    assert 0.0 <= u <= 1.0;
    assert u * c == c - l;
    assert x * (c - l) == u * (c * x);
    assert u * (c * x) <= u * (bound - e) by { RealMulMono(c * x, bound - e, u); }
    UnitFactor(u, bound - e);
  }

  lemma LossAccountingReal(total: nat, debt: nat, lastError: nat)
    requires 0 < debt < total
    requires lastError <= debt * DECIMAL_PRECISION
    ensures var loss := LossPerUnit(total, debt, lastError);
            loss.amount as real * total as real
            == debt as real * DECIMAL_PRECISION as real - lastError as real + loss.error as real
  {
  }

  /** An offset shrinks the total worth by at least the loss charged. */
  lemma OffsetWorth(p: Pool, debt: nat, coll: nat)
    requires WellFormed(p) && p.total > 0 && debt > 0
    requires Offset(p, debt, coll).Ok?
    ensures var q := Offset(p, debt, coll).value;
            var factor := DECIMAL_PRECISION - LossPerUnit(p.total, debt, p.lossError).amount;
            && factor >= 0
            && AtMostPart(TotalWorth(q.product, q.deposits), TotalWorth(p.product, p.deposits), factor)
  {
    var q := Offset(p, debt, coll).value;
    var factor := DECIMAL_PRECISION - LossPerUnit(p.total, debt, p.lossError).amount;
    if factor == 0 {
      forall i | 0 <= i < |p.deposits| && p.deposits[i].value > 0
        ensures p.deposits[i].at.epoch < q.product.epoch
      {
        assert WellFormedDeposit(p, p.deposits[i]);
      }
      TotalWorthOfPast(q.product, q.deposits);
    } else {
      ShrunkTotalWorth(p.product, q.product, factor, p.deposits);
    }
  }

  lemma PartLeft(w: real, w': real, loss: nat)
    requires loss <= DECIMAL_PRECISION && AtMostPart(w', w, DECIMAL_PRECISION - loss)
    ensures w' * DECIMAL_PRECISION as real <= w * (DECIMAL_PRECISION as real - loss as real)
  {
  }

  lemma ExcessAfterLoss(w: real, w': real, total: nat, debt: nat, lastError: nat, bound: real)
    requires 0 < debt < total
    requires lastError <= debt * DECIMAL_PRECISION
    requires LossPerUnit(total, debt, lastError).amount <= DECIMAL_PRECISION
    requires AtMostPart(w', w, DECIMAL_PRECISION - LossPerUnit(total, debt, lastError).amount)
    requires ExcessOf(w, total as real) + lastError as real <= bound && lastError as real <= bound
    ensures ExcessOf(w', total as real - debt as real) + LossPerUnit(total, debt, lastError).error as real <= bound
  {
    var loss := LossPerUnit(total, debt, lastError);
    LossAccountingReal(total, debt, lastError);
    PartLeft(w, w', loss.amount);
    ExcessArithmetic(DECIMAL_PRECISION as real, w, w', total as real, debt as real, loss.amount as real,
                     lastError as real, loss.error as real, bound);
  }

  /** Cancelling debt keeps the deposits covered, as long as the pool holds no more than the bound. */
  lemma OffsetKeepsCovered(p: Pool, debt: nat, coll: nat, bound: real)
    requires WellFormed(p)
    requires Offset(p, debt, coll).Ok?
    requires Covered(p, bound) && p.total as real <= bound
    ensures Covered(Offset(p, debt, coll).value, bound)
  {
    if p.total > 0 && debt > 0 {
      LossAccounting(p.total, debt, p.lossError);
      OffsetWorth(p, debt, coll);
      var q := Offset(p, debt, coll).value;
      var w, w' := TotalWorth(p.product, p.deposits), TotalWorth(q.product, q.deposits);
      if debt == p.total {
        assert w' * DECIMAL_PRECISION as real <= 0.0;
      } else {
        ExcessAfterLoss(w, w', p.total, debt, p.lossError, bound);
        assert q.total as real == p.total as real - debt as real;
      }
    }
  }

  lemma StepKeepsCovered(p: Pool, op: Op, bound: real)
    requires WellFormed(p)
    requires Step(p, op).Ok?
    requires Covered(p, bound) && (op.Liquidate? ==> p.total as real <= bound)
    ensures Covered(Step(p, op).value, bound)
  {
    match op
    case Liquidate(debt, coll) => OffsetKeepsCovered(p, debt, coll, bound);
    case Provide(who, amount) => SettleExcess(p, who, amount, 0);
    case Withdraw(who, amount, _) =>
      var compounded := Compounded(p, p.deposits[who]);
      SettleExcess(p, who, 0, if amount < compounded then amount else compounded);
    case MoveGainToTrove(who, _) => SettleExcess(p, who, 0, 0);
  }

  // ----- Whole runs

  /** The pool after the given operations; reverted ones change nothing. */
  function Run(n: nat, ops: seq<Op>): (p: Pool)
    ensures WellFormed(p)
  {
    if ops == [] then
      Initial(n)
    else
      var p := Run(n, ops[..|ops| - 1]);
      var r := Step(p, ops[|ops| - 1]);
      if r.Ok? then
        StepWellFormed(p, ops[|ops| - 1]);
        r.value
      else p
  }

  /** What all depositors together could withdraw. */
  function TotalCompounded(p: Pool, k: nat): nat
    requires WellFormed(p) && k <= |p.deposits|
  {
    if k == 0 then 0 else TotalCompounded(p, k - 1) + Compounded(p, p.deposits[k - 1])
  }

  lemma {:induction false} TotalCompoundedAtMostWorth(p: Pool, k: nat)
    requires WellFormed(p) && k <= |p.deposits|
    ensures TotalCompounded(p, k) as real <= TotalWorth(p.product, p.deposits[..k])
  {
    if k > 0 {
      TotalCompoundedAtMostWorth(p, k - 1);
      CompoundedAtMostWorth(p, p.deposits[k - 1]);
      assert p.deposits[..k][..k - 1] == p.deposits[..k - 1];
    }
  }

  /** In every liquidation of the run the pool held at most the bound. */
  ghost predicate HoldsAtMost(n: nat, ops: seq<Op>, bound: real) {
    forall i :: 0 <= i < |ops| && ops[i].Liquidate? ==> Run(n, ops[..i]).total as real <= bound
  }

  lemma {:induction false} RunIsCovered(n: nat, ops: seq<Op>, bound: real)
    requires bound >= 0.0 && HoldsAtMost(n, ops, bound)
    ensures Covered(Run(n, ops), bound)
  {
    if ops == [] {
      TotalWorthOfNothing(Initial(n).product, Initial(n).deposits);
    } else {
      var init := ops[..|ops| - 1];
      assert forall i :: 0 <= i < |init| ==> init[..i] == ops[..i];
      RunIsCovered(n, init, bound);
      var p := Run(n, init);
      if Step(p, ops[|ops| - 1]).Ok? {
        StepKeepsCovered(p, ops[|ops| - 1], bound);
      }
    }
  }

  lemma {:induction false} TotalWorthOfNothing(a: Product, ds: seq<Deposit>)
    requires forall i :: 0 <= i < |ds| ==> ds[i] == NoDeposit
    ensures TotalWorth(a, ds) == 0.0
  {
    if ds != [] {
      TotalWorthOfNothing(a, ds[..|ds| - 1]);
    }
  }

  /**
   Over every run of deposits, withdrawals and liquidations, all depositors
   together can withdraw at most what the pool holds, plus the largest
   amount it ever held in a liquidation divided by 10^18.
   */
  lemma DepositsAreBacked(n: nat, ops: seq<Op>, bound: real)
    requires bound >= 0.0 && HoldsAtMost(n, ops, bound)
    ensures var p := Run(n, ops);
            TotalCompounded(p, |p.deposits|) as real <= p.total as real + bound / DECIMAL_PRECISION as real
  {
    var p := Run(n, ops);
    RunIsCovered(n, ops, bound);
    TotalCompoundedAtMostWorth(p, |p.deposits|);
    assert p.deposits[..|p.deposits|] == p.deposits;
  }

  // ----- Where rounding favours the pool, and where it does not

  /**
   The loss charged per unit covers the cancelled debt exactly when the
   error carried out is not smaller than the one carried in; so always on
   the first offset, but not on every later one.
   */
  lemma LossCoversDebtIff(total: nat, debt: nat, lastError: nat)
    requires 0 < debt < total
    requires lastError <= debt * DECIMAL_PRECISION
    ensures LossPerUnit(total, debt, lastError).amount * total >= debt * DECIMAL_PRECISION
            <==> lastError + (debt * DECIMAL_PRECISION - lastError) % total <= total
  {
  }

  /** The assertion that P stays positive fails exactly when fewer than 10^9 parts are left of it. */
  lemma ProductStaysPositiveIff(a: Product, factor: nat)
    ensures Shrunk(a, factor).P > 0 <==> factor == 0 || a.P * factor >= SCALE_FACTOR
  {
  }

  // ----- ETH gains are backed

  /** What the sums have gained since the snapshot, without truncation. */
  function ExactPortions(p: Pool, d: Deposit): real {
    SumOver(p.SumAt(d.at.epoch, d.at.scale) as real, p.SumAt(d.at.epoch, d.at.scale + 1) as real, d.S as real)
  }

  function SumOver(sum: real, next: real, start: real): real {
    sum - start + next / SCALE_FACTOR as real
  }

  /** The ETH a deposit has earned, in units of 10^-18 and without truncation. */
  function Earned(p: Pool, d: Deposit): real {
    if d.value == 0 || d.at.P == 0 then 0.0 else EarnedOn(d, ExactPortions(p, d))
  }

  function EarnedOn(d: Deposit, portions: real): real
    requires d.at.P > 0
  {
    d.value as real / d.at.P as real * portions
  }

  function TotalEarned(p: Pool, ds: seq<Deposit>): real {
    if ds == [] then 0.0 else TotalEarned(p, ds[..|ds| - 1]) + Earned(p, ds[|ds| - 1])
  }

  lemma PortionsAtMostExact(p: Pool, d: Deposit)
    requires WellFormedDeposit(p, d) && d.value > 0
    ensures Portions(p, d) as real <= ExactPortions(p, d)
  {
  }

  lemma FloorTwice(v: nat, x: nat, b: nat, exact: real)
    requires b > 0 && x as real <= exact
    ensures FloorDiv(FloorDiv(v * x, b), DECIMAL_PRECISION) as real * DECIMAL_PRECISION as real
         <= v as real / b as real * exact
  {
  }

  lemma EthGainAtMostEarned(p: Pool, d: Deposit)
    requires WellFormedDeposit(p, d)
    ensures EthGain(p, d) as real * DECIMAL_PRECISION as real <= Earned(p, d)
  {
    if d.value > 0 {
      PortionsAtMostExact(p, d);
      FloorTwice(d.value, Portions(p, d), d.at.P, ExactPortions(p, d));
    }
  }

  /** A renewed deposit has earned nothing yet. */
  lemma RenewedEarned(p: Pool, value: nat)
    requires WellFormed(p)
    ensures Earned(p, Renewed(p, value)) == 0.0
  {
  }

  lemma {:induction false} TotalEarnedUpdate(p: Pool, ds: seq<Deposit>, i: nat, d: Deposit)
    requires i < |ds|
    ensures TotalEarned(p, ds[i := d]) == TotalEarned(p, ds) - Earned(p, ds[i]) + Earned(p, d)
  {
    var init := ds[..|ds| - 1];
    if i == |ds| - 1 {
      assert ds[i := d][..|ds| - 1] == init;
    } else {
      TotalEarnedUpdate(p, init, i, d);
      assert ds[i := d][..|ds| - 1] == init[i := d];
    }
  }

  lemma {:induction false} TotalEarnedSameSums(p: Pool, q: Pool, ds: seq<Deposit>)
    requires p.sums == q.sums
    ensures TotalEarned(p, ds) == TotalEarned(q, ds)
  {
    if ds != [] {
      TotalEarnedSameSums(p, q, ds[..|ds| - 1]);
      var d := ds[|ds| - 1];
      assert ExactPortions(p, d) == ExactPortions(q, d);
    }
  }

  /** What the gain of one offset adds to the sum of an epoch and scale. */
  function AddedTo(a: Product, gain: nat, epoch: nat, scale: nat): real {
    if epoch == a.epoch && scale == a.scale then gain as real * a.P as real else 0.0
  }

  /** What it adds to the portions of a deposit. */
  function AddedPortions(a: Product, d: Deposit, gain: nat): real {
    SumOver(AddedTo(a, gain, d.at.epoch, d.at.scale), AddedTo(a, gain, d.at.epoch, d.at.scale + 1), 0.0)
  }

  lemma RealSumsAfterGain(p: Pool, q: Pool, gain: nat, e: nat, s: nat)
    requires q.sums == WithGain(p, gain)
    ensures q.SumAt(e, s) as real == p.SumAt(e, s) as real + AddedTo(p.product, gain, e, s)
  {
    SumsAfterGain(p, q, gain, e, s);
    assert (gain * p.product.P) as real == gain as real * p.product.P as real;
  }

  lemma SumsOverAdd(x: real, y: real, start: real, a: real, b: real)
    ensures SumOver(x + a, y + b, start) == SumOver(x, y, start) + SumOver(a, b, 0.0)
  {
  }

  lemma PortionsAfterGain(p: Pool, q: Pool, gain: nat, d: Deposit)
    requires q.sums == WithGain(p, gain)
    ensures ExactPortions(q, d) == ExactPortions(p, d) + AddedPortions(p.product, d, gain)
  {
    var e, s := d.at.epoch, d.at.scale;
    RealSumsAfterGain(p, q, gain, e, s);
    RealSumsAfterGain(p, q, gain, e, s + 1);
    SumsOverAdd(p.SumAt(e, s) as real, p.SumAt(e, s + 1) as real, d.S as real,
                AddedTo(p.product, gain, e, s), AddedTo(p.product, gain, e, s + 1));
  }

  /** x' is at most x plus the share w of g. */
  predicate AtMostShare(x': real, x: real, w: real, g: real) {
    x' <= x + w * g
  }

  lemma SharesAdd(x': real, x: real, w: real, y': real, y: real, u: real, g: real)
    requires AtMostShare(x', x, w, g) && AtMostShare(y', y, u, g)
    ensures AtMostShare(x' + y', x + y, w + u, g)
  {
  }

  /** x' is exactly x plus the share w of g. */
  predicate ExactShare(x': real, x: real, w: real, g: real) {
    x' == x + w * g
  }

  lemma EarnedOnMorePortions(a: Product, d: Deposit, x: real, x': real, gain: nat)
    requires d.at.P > 0
    requires d.at.epoch == a.epoch && d.at.scale <= a.scale <= d.at.scale + 1
    requires x' == x + AddedPortions(a, d, gain)
    ensures ExactShare(EarnedOn(d, x'), EarnedOn(d, x), RatioWorth(a, d), gain as real)
  {
  }

  lemma EarnedIsOnPortions(share: (real, real, real, real) -> bool, p: Pool, q: Pool, w: real, g: real, d: Deposit)
    requires d.value > 0 && d.at.P > 0
    requires share(EarnedOn(d, ExactPortions(q, d)), EarnedOn(d, ExactPortions(p, d)), w, g)
    ensures share(Earned(q, d), Earned(p, d), w, g)
  {
  }

  lemma EarnedInScale(p: Pool, q: Pool, gain: nat, d: Deposit)
    requires d.value > 0 && d.at.P > 0
    requires d.at.epoch == p.product.epoch && d.at.scale <= p.product.scale <= d.at.scale + 1
    requires q.sums == WithGain(p, gain)
    ensures ExactShare(Earned(q, d), Earned(p, d), RatioWorth(p.product, d), gain as real)
  {
    PortionsAfterGain(p, q, gain, d);
    EarnedOnMorePortions(p.product, d, ExactPortions(p, d), ExactPortions(q, d), gain);
    EarnedIsOnPortions(ExactShare, p, q, RatioWorth(p.product, d), gain as real, d);
  }

  /** A gain is shared in proportion to what the deposits are worth; after two changes of scale it is forgone. */
  lemma EarnedAfterGain(p: Pool, q: Pool, gain: nat, d: Deposit)
    requires WellFormedDeposit(p, d)
    requires q.sums == WithGain(p, gain)
    ensures AtMostShare(Earned(q, d), Earned(p, d), Worth(p.product, d), gain as real)
  {
    if d.value > 0 && d.at.epoch == p.product.epoch && p.product.scale <= d.at.scale + 1 {
      WorthInScale(p.product, d);
      EarnedInScale(p, q, gain, d);
    } else {
      PortionsAfterGain(p, q, gain, d);
      WorthNonneg(p.product, d);
      RealMulNonneg(Worth(p.product, d), gain as real);
    }
  }

  lemma {:induction false} TotalEarnedAfterGain(p: Pool, q: Pool, gain: nat, ds: seq<Deposit>)
    requires forall i :: 0 <= i < |ds| ==> WellFormedDeposit(p, ds[i])
    requires q.sums == WithGain(p, gain)
    ensures AtMostShare(TotalEarned(q, ds), TotalEarned(p, ds), TotalWorth(p.product, ds), gain as real)
  {
    if ds == [] {
      assert AtMostShare(0.0, 0.0, 0.0, gain as real);
    } else {
      var init, last := ds[..|ds| - 1], ds[|ds| - 1];
      assert forall i :: 0 <= i < |init| ==> init[i] == ds[i];
      TotalEarnedAfterGain(p, q, gain, init);
      EarnedAfterGain(p, q, gain, last);
      SharesAdd(TotalEarned(q, init), TotalEarned(p, init), TotalWorth(p.product, init),
                Earned(q, last), Earned(p, last), Worth(p.product, last), gain as real);
    }
  }

  /** All earned ETH, with the carried error, is in the pool up to the given slack (in units of 10^-18). */
  ghost predicate GainsCovered(p: Pool, slack: real) {
    TotalEarned(p, p.deposits) + p.ethError as real <= DECIMAL_PRECISION as real * p.eth as real + slack
  }

  lemma SettleKeepsGainsCovered(p: Pool, who: nat, paidIn: nat, paidOut: nat, slack: real)
    requires WellFormed(p) && who < |p.deposits|
    requires Settle(p, who, paidIn, paidOut).Ok?
    requires GainsCovered(p, slack)
    ensures GainsCovered(Settle(p, who, paidIn, paidOut).value, slack)
  {
    var q := Settle(p, who, paidIn, paidOut).value;
    var d := p.deposits[who];
    var d' := Renewed(p, Compounded(p, d) + paidIn - paidOut);
    EthGainAtMostEarned(p, d);
    RenewedEarned(p, Compounded(p, d) + paidIn - paidOut);
    TotalEarnedUpdate(p, p.deposits, who, d');
    TotalEarnedSameSums(p, q, q.deposits);
    assert q.eth as real == p.eth as real - EthGain(p, d) as real;
  }

  /** How much more ETH an offset may promise than it brings, when deposits are over-valued by the bound. */
  function GainSlack(p: Pool, op: Op, bound: real): real {
    if op.Liquidate? && p.total > 0 && op.debt > 0 then
      bound / DECIMAL_PRECISION as real * GainPerUnit(p.total, op.coll, p.ethError).amount as real
    else 0.0
  }

  /** The shares of an over-valued whole add up to at most the gain plus the over-valued part of it. */
  lemma SharedGain(x': real, x: real, w: real, total: nat, coll: nat, lastError: nat, bound: real)
    requires total > 0
    requires AtMostShare(x', x, w, GainPerUnit(total, coll, lastError).amount as real)
    requires ExcessOf(w, total as real) <= bound
    ensures var gain := GainPerUnit(total, coll, lastError);
            x' + gain.error as real
            <= x + DECIMAL_PRECISION as real * coll as real + lastError as real
               + bound / DECIMAL_PRECISION as real * gain.amount as real
  {
  }

  lemma OffsetKeepsGainsCovered(p: Pool, debt: nat, coll: nat, bound: real, slack: real)
    requires WellFormed(p)
    requires Offset(p, debt, coll).Ok?
    requires Covered(p, bound) && GainsCovered(p, slack)
    ensures GainsCovered(Offset(p, debt, coll).value, slack + GainSlack(p, Liquidate(debt, coll), bound))
  {
    if p.total > 0 && debt > 0 {
      var q := Offset(p, debt, coll).value;
      TotalEarnedAfterGain(p, q, GainPerUnit(p.total, coll, p.ethError).amount, p.deposits);
      SharedGain(TotalEarned(q, p.deposits), TotalEarned(p, p.deposits), TotalWorth(p.product, p.deposits),
                 p.total, coll, p.ethError, bound);
      GainsAddUp(TotalEarned(q, q.deposits), q.ethError as real, TotalEarned(p, p.deposits), p.ethError as real,
                 p.eth as real, coll as real, slack, GainSlack(p, Liquidate(debt, coll), bound));
    }
  }

  lemma GainsAddUp(e': real, r': real, e: real, r: real, eth: real, coll: real, slack: real, extra: real)
    requires e' + r' <= e + DECIMAL_PRECISION as real * coll + r + extra
    requires e + r <= DECIMAL_PRECISION as real * eth + slack
    ensures e' + r' <= DECIMAL_PRECISION as real * (eth + coll) + (slack + extra)
  {
  }

  lemma StepKeepsGainsCovered(p: Pool, op: Op, bound: real, slack: real)
    requires WellFormed(p)
    requires Step(p, op).Ok?
    requires Covered(p, bound) && GainsCovered(p, slack)
    ensures GainsCovered(Step(p, op).value, slack + GainSlack(p, op, bound))
  {
    match op
    case Liquidate(debt, coll) => OffsetKeepsGainsCovered(p, debt, coll, bound, slack);
    case Provide(who, amount) => SettleKeepsGainsCovered(p, who, amount, 0, slack);
    case Withdraw(who, amount, _) =>
      var compounded := Compounded(p, p.deposits[who]);
      SettleKeepsGainsCovered(p, who, 0, if amount < compounded then amount else compounded, slack);
    case MoveGainToTrove(who, _) => SettleKeepsGainsCovered(p, who, 0, 0, slack);
  }

  /** The slack that the liquidations of a run add up to. */
  function RunSlack(n: nat, ops: seq<Op>, bound: real): real {
    if ops == [] then 0.0
    else
      var init, op := ops[..|ops| - 1], ops[|ops| - 1];
      RunSlack(n, init, bound) + if Step(Run(n, init), op).Ok? then GainSlack(Run(n, init), op, bound) else 0.0
  }

  lemma {:induction false} RunKeepsGainsCovered(n: nat, ops: seq<Op>, bound: real)
    requires bound >= 0.0 && HoldsAtMost(n, ops, bound)
    ensures GainsCovered(Run(n, ops), RunSlack(n, ops, bound))
  {
    if ops == [] {
      TotalEarnedOfNothing(Initial(n), Initial(n).deposits);
    } else {
      var init := ops[..|ops| - 1];
      assert forall i :: 0 <= i < |init| ==> init[..i] == ops[..i];
      RunKeepsGainsCovered(n, init, bound);
      RunIsCovered(n, init, bound);
      var p := Run(n, init);
      if Step(p, ops[|ops| - 1]).Ok? {
        StepKeepsGainsCovered(p, ops[|ops| - 1], bound, RunSlack(n, init, bound));
      }
    }
  }

  lemma {:induction false} TotalEarnedOfNothing(p: Pool, ds: seq<Deposit>)
    requires forall i :: 0 <= i < |ds| ==> ds[i] == NoDeposit
    ensures TotalEarned(p, ds) == 0.0
  {
    if ds != [] {
      TotalEarnedOfNothing(p, ds[..|ds| - 1]);
    }
  }

  /** The ETH that all depositors together could claim. */
  function TotalEthGain(p: Pool, k: nat): nat
    requires WellFormed(p) && k <= |p.deposits|
  {
    if k == 0 then 0 else TotalEthGain(p, k - 1) + EthGain(p, p.deposits[k - 1])
  }

  lemma {:induction false} TotalEthGainAtMostEarned(p: Pool, k: nat)
    requires WellFormed(p) && k <= |p.deposits|
    ensures TotalEthGain(p, k) as real * DECIMAL_PRECISION as real <= TotalEarned(p, p.deposits[..k])
  {
    if k > 0 {
      TotalEthGainAtMostEarned(p, k - 1);
      EthGainAtMostEarned(p, p.deposits[k - 1]);
      assert p.deposits[..k][..k - 1] == p.deposits[..k - 1];
    }
  }

  /**
   Over every run, all depositors together can claim at most the ETH the
   pool holds, plus a slack that is the over-valuation bound times the gain
   per unit of each liquidation.
   */
  lemma GainsAreBacked(n: nat, ops: seq<Op>, bound: real)
    requires bound >= 0.0 && HoldsAtMost(n, ops, bound)
    ensures var p := Run(n, ops);
            TotalEthGain(p, |p.deposits|) as real
            <= p.eth as real + RunSlack(n, ops, bound) / DECIMAL_PRECISION as real
  {
    var p := Run(n, ops);
    RunKeepsGainsCovered(n, ops, bound);
    TotalEthGainAtMostEarned(p, |p.deposits|);
    assert p.deposits[..|p.deposits|] == p.deposits;
  }
}
