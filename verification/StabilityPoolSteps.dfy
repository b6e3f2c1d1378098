/**
 What every step of the Stability Pool does to each depositor and to the
 pool, exactly and in both directions: what a liquidation takes and gives,
 and what a deposit, a withdrawal and a claim pay and leave.
 */
module StabilityPoolSteps {
  import opened Arithmetic
  import opened Outcomes
  import opened StabilityPool
  import opened StabilityPoolShares

  // ----- Liquidations

  /** The loss per unit is everything, or what with the errors carried in and out makes up the debt. */
  predicate IsLoss(total: nat, debt: nat, before: nat, loss: nat, after: nat) {
    && 0 < loss <= DECIMAL_PRECISION
    && if debt == total then loss == DECIMAL_PRECISION && after == 0
       else loss * total + before == debt * DECIMAL_PRECISION + after && 0 < after <= total
  }

  /** The gain per unit is what with the errors carried in and out makes up the collateral. */
  predicate IsGain(total: nat, coll: nat, before: nat, gain: nat, after: nat) {
    gain * total + after == coll * DECIMAL_PRECISION + before && after < total
  }

  /**
   The product after `left` parts in 10^18 are left of it: the largest that
   is not above the exact one, with a change of scale where less than 10^9
   would remain; and a new one in a new epoch if nothing is left.
   */
  predicate IsShrinking(a: Product, left: nat, b: Product) {
    if left == 0 then b.P == DECIMAL_PRECISION && b.scale == 0 && b.epoch == a.epoch + 1
    else
      && b.epoch == a.epoch
      && if a.P * left >= SCALE_FACTOR * DECIMAL_PRECISION then
           b.scale == a.scale && b.P * DECIMAL_PRECISION <= a.P * left < (b.P + 1) * DECIMAL_PRECISION
         else
           && b.scale == a.scale + 1
           && b.P * DECIMAL_PRECISION <= a.P * left * SCALE_FACTOR < (b.P + 1) * DECIMAL_PRECISION
  }

  lemma FloorDivIs(n: nat, d: nat)
    requires d > 0
    ensures FloorDiv(n, d) * d <= n < (FloorDiv(n, d) + 1) * d
  {
    DivBounds(n, d);
    assert (FloorDiv(n, d) + 1) * d == FloorDiv(n, d) * d + d;
  }

  lemma FloorDivBelow(n: nat, d: nat, k: nat)
    requires d > 0
    ensures FloorDiv(n, d) < k <==> n < k * d
  {
    DivAtLeast(n, d, k);
  }

  lemma ShrunkIsShrinking(a: Product, left: nat)
    ensures IsShrinking(a, left, Shrunk(a, left))
  {
    FloorDivIs(a.P * left, DECIMAL_PRECISION);
    FloorDivIs(a.P * left * SCALE_FACTOR, DECIMAL_PRECISION);
    FloorDivBelow(a.P * left, DECIMAL_PRECISION, SCALE_FACTOR);
  }

  lemma GainIs(total: nat, coll: nat, before: nat)
    requires total > 0
    ensures var gain := GainPerUnit(total, coll, before); IsGain(total, coll, before, gain.amount, gain.error)
  {
    DivBounds(coll * DECIMAL_PRECISION + before, total);
  }

  lemma LossIs(total: nat, debt: nat, before: nat)
    requires 0 < debt <= total && (debt < total ==> before <= debt * DECIMAL_PRECISION)
    ensures var loss := LossPerUnit(total, debt, before); IsLoss(total, debt, before, loss.amount, loss.error)
  {
    LossAccounting(total, debt, before);
  }

  /** What is earned by every deposit there can be: its worth times the gain, within reach, and nothing else. */
  ghost predicate SharedByWorth(p: Pool, q: Pool, gain: nat) {
    forall d: Deposit :: WellFormedDeposit(p, d) ==>
      ExactShare(Earned(q, d), Earned(p, d), if InReach(p.product, d) then Worth(p.product, d) else 0.0, gain as real)
  }

  /** A liquidation takes the debt and adds the collateral; nobody's record changes. */
  ghost predicate IsOffset(p: Pool, q: Pool, debt: nat, coll: nat, loss: nat, gain: nat) {
    && debt <= p.total && q.total == p.total - debt && q.eth == p.eth + coll && q.deposits == p.deposits
    && IsLoss(p.total, debt, p.lossError, loss, q.lossError)
    && IsGain(p.total, coll, p.ethError, gain, q.ethError)
    && IsShrinking(p.product, DECIMAL_PRECISION - loss, q.product)
    && SharedByWorth(p, q, gain)
  }

  lemma SharedAfterGain(p: Pool, q: Pool, gain: nat)
    requires q.sums == WithGain(p, gain)
    ensures SharedByWorth(p, q, gain)
  {
    forall d: Deposit | WellFormedDeposit(p, d)
      ensures ExactShare(Earned(q, d), Earned(p, d), if InReach(p.product, d) then Worth(p.product, d) else 0.0,
                         gain as real)
    {
      GainIsSharedByWorth(p, q, gain, d);
    }
  }

  /** Of a pool with deposits, every offset shrinks them by the loss and shares the gain, the last one included. */
  lemma OffsetLaws(p: Pool, debt: nat, coll: nat) returns (loss: nat, gain: nat)
    requires Offset(p, debt, coll).Ok? && p.total > 0 && debt > 0
    ensures IsOffset(p, Offset(p, debt, coll).value, debt, coll, loss, gain)
  {
    var q := Offset(p, debt, coll).value;
    LossIs(p.total, debt, p.lossError);
    GainIs(p.total, coll, p.ethError);
    loss, gain := LossPerUnit(p.total, debt, p.lossError).amount, GainPerUnit(p.total, coll, p.ethError).amount;
    ShrunkIsShrinking(p.product, DECIMAL_PRECISION - loss);
    SharedAfterGain(p, q, gain);
  }

  /** The debt is taken at some loss, and the collateral given at some gain, per unit deposited. */
  ghost predicate IsSharedOut(p: Pool, q: Pool, debt: nat, coll: nat) {
    exists loss, gain :: IsOffset(p, q, debt, coll, loss, gain)
  }

  lemma OffsetSharesOut(p: Pool, debt: nat, coll: nat)
    ensures Offset(p, debt, coll).Ok? && p.total > 0 && debt > 0 ==>
              IsSharedOut(p, Offset(p, debt, coll).value, debt, coll)
  {
    if Offset(p, debt, coll).Ok? && p.total > 0 && debt > 0 {
      var loss, gain := OffsetLaws(p, debt, coll);
    }
  }

  /** Without deposits, or without debt, nothing is offset. */
  lemma NothingToOffset(p: Pool, debt: nat, coll: nat)
    requires p.total == 0 || debt == 0
    ensures Offset(p, debt, coll) == Ok(p)
  {
  }

  /** The parts in 10^18 that a loss short of everything leaves. */
  function LeftAfter(total: nat, debt: nat, before: nat): nat
    requires 0 < debt < total && before <= debt * DECIMAL_PRECISION
  {
    LossAccounting(total, debt, before);
    DECIMAL_PRECISION - 1 - (debt * DECIMAL_PRECISION - before) / total
  }

  /**
   An offset reverts if and only if there is too little in the pool, the
   error carried in exceeds the debt, or the product would vanish.
   */
  lemma OffsetRevertsIff(p: Pool, debt: nat, coll: nat)
    ensures Offset(p, debt, coll).Err? <==>
            && p.total > 0 && debt > 0
            && (|| debt > p.total
                || (debt < p.total && debt * DECIMAL_PRECISION < p.lossError)
                || (debt < p.total && p.lossError <= debt * DECIMAL_PRECISION
                    && LeftAfter(p.total, debt, p.lossError) > 0
                    && p.product.P * LeftAfter(p.total, debt, p.lossError) < SCALE_FACTOR))
  {
    if 0 < debt <= p.total && (debt < p.total ==> p.lossError <= debt * DECIMAL_PRECISION) {
      LossAccounting(p.total, debt, p.lossError);
      ProductStaysPositiveIff(p.product, DECIMAL_PRECISION - LossPerUnit(p.total, debt, p.lossError).amount);
    }
  }

  // ----- Deposits, withdrawals and claims

  /**
   The depositor's claim is paid, the deposit is recorded with `added` more
   than was left of it, and nothing changes for anyone else.
   */
  ghost predicate IsSettled(p: Pool, q: Pool, who: nat, added: int) {
    && WellFormed(p) && WellFormed(q) && who < |p.deposits| == |q.deposits|
    && Compounded(q, q.deposits[who]) == Compounded(p, p.deposits[who]) + added
    && Worth(q.product, q.deposits[who]) == Compounded(q, q.deposits[who]) as real
    && EthGain(q, q.deposits[who]) == 0 && Earned(q, q.deposits[who]) == 0.0
    && q.total == p.total + added
    && q.eth + EthGain(p, p.deposits[who]) == p.eth
    && q.lossError == p.lossError && q.ethError == p.ethError && q.product == p.product && q.sums == p.sums
    && forall j :: 0 <= j < |p.deposits| && j != who ==>
         && q.deposits[j] == p.deposits[j]
         && Compounded(q, q.deposits[j]) == Compounded(p, p.deposits[j])
         && EthGain(q, q.deposits[j]) == EthGain(p, p.deposits[j])
         && Earned(q, q.deposits[j]) == Earned(p, p.deposits[j])
  }

  lemma RenewedIsWhole(p: Pool, value: nat)
    requires WellFormed(p)
    ensures var d := Renewed(p, value);
            && WellFormedDeposit(p, d)
            && Compounded(p, d) == value && Worth(p.product, d) == value as real
            && EthGain(p, d) == 0 && Earned(p, d) == 0.0
  {
    RenewedWorth(p, value);
    RenewedEarned(p, value);
    if value > 0 {
      DivUnique(value * p.product.P, p.product.P, value);
      DivUnique(0, SCALE_FACTOR, 0);
      DivUnique(0, p.product.P, 0);
      DivUnique(0, DECIMAL_PRECISION, 0);
      assert Portions(p, Renewed(p, value)) == 0;
    }
  }

  lemma SameViews(p: Pool, q: Pool, d: Deposit)
    requires p.product == q.product && p.sums == q.sums && WellFormedDeposit(p, d)
    ensures WellFormedDeposit(q, d) && Compounded(q, d) == Compounded(p, d)
    ensures EthGain(q, d) == EthGain(p, d) && Earned(q, d) == Earned(p, d)
  {
  }

  lemma SettleSettles(p: Pool, who: nat, paidIn: nat, paidOut: nat)
    requires WellFormed(p) && who < |p.deposits| && Settle(p, who, paidIn, paidOut).Ok?
    ensures IsSettled(p, Settle(p, who, paidIn, paidOut).value, who, paidIn - paidOut)
  {
    var q := Settle(p, who, paidIn, paidOut).value;
    var value := Compounded(p, p.deposits[who]) + paidIn - paidOut;
    SettleWellFormed(p, who, paidIn, paidOut);
    RenewedIsWhole(p, value);
    SameViews(p, q, Renewed(p, value));
    forall j | 0 <= j < |p.deposits| && j != who
      ensures Compounded(q, q.deposits[j]) == Compounded(p, p.deposits[j])
      ensures EthGain(q, q.deposits[j]) == EthGain(p, p.deposits[j])
      ensures Earned(q, q.deposits[j]) == Earned(p, p.deposits[j])
    {
      SameViews(p, q, p.deposits[j]);
    }
  }

  /** What every settlement asks for: the deposit has not grown, and the pool can pay the claim. */
  predicate CanSettle(p: Pool, who: nat)
    requires who < |p.deposits| && WellFormedDeposit(p, p.deposits[who])
  {
    Compounded(p, p.deposits[who]) <= p.deposits[who].value && EthGain(p, p.deposits[who]) <= p.eth
  }

  /** Providing pays the claim and adds the amount to what was left of the deposit. */
  lemma ProvideLaws(p: Pool, who: nat, amount: nat)
    requires WellFormed(p)
    ensures Step(p, Provide(who, amount)).Ok? <==> who < |p.deposits| && amount > 0 && CanSettle(p, who)
    ensures Step(p, Provide(who, amount)).Ok? ==> IsSettled(p, Step(p, Provide(who, amount)).value, who, amount)
  {
    if Step(p, Provide(who, amount)).Ok? {
      SettleSettles(p, who, amount, 0);
    }
  }

  /** Withdrawing pays the claim and the amount, or what was left of the deposit if that is less. */
  lemma WithdrawLaws(p: Pool, who: nat, amount: nat, noneBelow: bool)
    requires WellFormed(p)
    ensures Step(p, Withdraw(who, amount, noneBelow)).Ok? <==>
            && who < |p.deposits| && p.deposits[who].value > 0 && (amount > 0 ==> noneBelow) && CanSettle(p, who)
            && (amount <= p.total || Compounded(p, p.deposits[who]) <= p.total)
    ensures Step(p, Withdraw(who, amount, noneBelow)).Ok? ==>
              var left := Compounded(p, p.deposits[who]);
              IsSettled(p, Step(p, Withdraw(who, amount, noneBelow)).value, who,
                        -(if amount < left then amount else left))
  {
    if Step(p, Withdraw(who, amount, noneBelow)).Ok? {
      var left := Compounded(p, p.deposits[who]);
      SettleSettles(p, who, 0, if amount < left then amount else left);
    }
  }

  /** Moving the claim to a Trove pays it and leaves the deposit as it is. */
  lemma MoveGainLaws(p: Pool, who: nat, hasTrove: bool)
    requires WellFormed(p)
    ensures Step(p, MoveGainToTrove(who, hasTrove)).Ok? <==>
            && who < |p.deposits| && p.deposits[who].value > 0 && hasTrove && CanSettle(p, who)
            && EthGain(p, p.deposits[who]) > 0
    ensures Step(p, MoveGainToTrove(who, hasTrove)).Ok? ==>
              IsSettled(p, Step(p, MoveGainToTrove(who, hasTrove)).value, who, 0)
  {
    if Step(p, MoveGainToTrove(who, hasTrove)).Ok? {
      SettleSettles(p, who, 0, 0);
    }
  }
}
