/**
 `Trove`: collateral and debt, the difference between two Troves as a
 transaction (`whatChanged`), and the effect of a transaction (`apply`).
 */
module TroveChanges {
  import opened Arithmetic
  import opened Decimal
  import opened Outcomes

  const ZUSD_LIQUIDATION_RESERVE: nat := 20_000_000_000_000_000_000
  const MINIMUM_COLLATERAL_RATIO: nat := 1_100_000_000_000_000_000
  const CRITICAL_COLLATERAL_RATIO: nat := 1_500_000_000_000_000_000

  datatype Trove = Trove(collateral: nat, debt: nat) {
    predicate IsEmpty() {
      collateral == 0 && debt == 0
    }

    /** Throws when the debt is below the liquidation reserve. */
    function NetDebt(): Result<nat> {
      Sub(debt, ZUSD_LIQUIDATION_RESERVE)
    }

    function CollateralRatio(price: nat): nat {
      MulDiv(collateral, price, debt)
    }

    function Add(that: Trove): Trove {
      Trove(collateral + that.collateral, debt + that.debt)
    }

    /** Subtraction clamps at zero. */
    function Subtract(that: Trove): Trove {
      Trove(if collateral > that.collateral then collateral - that.collateral else 0,
            if debt > that.debt then debt - that.debt else 0)
    }

    function Multiply(multiplier: nat): Trove {
      Trove(Mul(collateral, multiplier), Mul(debt, multiplier))
    }
  }

  const EmptyTrove: Trove := Trove(0, 0)

  datatype UserTroveStatus = NonExistent | Open | ClosedByOwner | ClosedByLiquidation | ClosedByRedemption

  datatype UserTrove = UserTrove(ownerAddress: string, status: UserTroveStatus, trove: Trove)

  /** A Trove as of its last direct modification, with the share it has in later redistributions. */
  datatype PendingTrove = PendingTrove(
    ownerAddress: string, status: UserTroveStatus, trove: Trove, stake: nat, snapshotOfTotalRedistributed: Trove)
  {
    function ApplyRedistribution(totalRedistributed: Trove): UserTrove {
      UserTrove(ownerAddress, status,
                trove.Add(totalRedistributed.Subtract(snapshotOfTotalRedistributed).Multiply(stake)))
    }
  }

  /** The ratio is the truncated quotient of the collateral's value and the debt, and infinite without debt. */
  lemma CollateralRatioIs(t: Trove, price: nat)
    ensures t.debt == 0 ==> t.CollateralRatio(price) == INFINITY
    ensures t.debt > 0 ==>
              var r := t.CollateralRatio(price); r * t.debt <= t.collateral * price < (r + 1) * t.debt
  {
    if t.debt > 0 {
      DivBounds(t.collateral * price, t.debt);
      assert (t.CollateralRatio(price) + 1) * t.debt == t.CollateralRatio(price) * t.debt + t.debt;
    }
  }

  /** It is below a bound if and only if the collateral's value is below the debt times the bound. */
  lemma RatioBelowIff(t: Trove, price: nat, bound: nat)
    requires bound <= INFINITY
    ensures t.CollateralRatio(price) < bound <==> t.collateral * price < bound * t.debt
  {
    if t.debt > 0 {
      DivAtLeast(t.collateral * price, t.debt, bound);
    }
  }

  /** `gained` units are the truncated product of the stake and what was redistributed since the snapshot. */
  predicate IsShareSince(gained: int, stake: nat, snapshot: nat, redistributed: nat) {
    if redistributed <= snapshot then gained == 0
    else gained * DIGITS <= (redistributed - snapshot) * stake < (gained + 1) * DIGITS
  }

  lemma MulIs(a: nat, b: nat)
    ensures Mul(a, b) * DIGITS <= a * b < (Mul(a, b) + 1) * DIGITS
  {
    DivBounds(a * b, DIGITS);
  }

  /** Redistribution leaves owner and status, and adds the share since the snapshot to collateral and to debt. */
  lemma ApplyRedistributionIs(p: PendingTrove, total: Trove)
    ensures var u, since := p.ApplyRedistribution(total), p.snapshotOfTotalRedistributed;
            && u.ownerAddress == p.ownerAddress && u.status == p.status
            && IsShareSince(u.trove.collateral - p.trove.collateral, p.stake, since.collateral, total.collateral)
            && IsShareSince(u.trove.debt - p.trove.debt, p.stake, since.debt, total.debt)
  {
    var since := total.Subtract(p.snapshotOfTotalRedistributed);
    MulIs(since.collateral, p.stake);
    MulIs(since.debt, p.stake);
    DivUnique(0, DIGITS, 0);
  }

  datatype Zeroed = NothingZeroed | CollateralZeroed | DebtZeroed

  datatype Change =
    | NoChange
    | InvalidCreation(invalidTrove: Trove)
    | Creation(deposit: nat, borrow: nat)
    | Closure(withdrawal: nat, repayment: Option<nat>)
    | Adjustment(depositCollateral: Option<nat>, withdrawCollateral: Option<nat>,
                 borrowZUSD: Option<nat>, repayZUSD: Option<nat>, setToZero: Zeroed)

  /** The debt that borrowing an amount creates. */
  function ApplyFee(rate: nat, amount: nat): nat {
    Mul(amount, ONE + rate)
  }

  /** The least amount whose borrowing creates at least the given debt. */
  function UnapplyFee(rate: nat, debtIncrease: nat): nat {
    DivCeil(debtIncrease, ONE + rate)
  }

  function Orelse(x: Option<nat>, default: nat): nat {
    if x.Some? then x.value else default
  }

  function BorrowPart(a: Trove, b: Trove, rate: nat): Option<nat> {
    if b.debt > a.debt then Some(UnapplyFee(rate, b.debt - a.debt)) else None
  }

  function RepayPart(a: Trove, b: Trove): Option<nat> {
    if b.debt > a.debt then None else Some(a.debt - b.debt)
  }

  function DepositPart(a: Trove, b: Trove): Option<nat> {
    if b.collateral > a.collateral then Some(b.collateral - a.collateral) else None
  }

  function WithdrawPart(a: Trove, b: Trove): Option<nat> {
    if b.collateral > a.collateral then None else Some(a.collateral - b.collateral)
  }

  /** The change from `a` to `b`; throws when closing a Trove whose debt is below the reserve. */
  function WhatChanged(a: Trove, b: Trove, rate: nat): Result<Change> {
    if a == b then Ok(NoChange)
    else if a.IsEmpty() then
      match b.NetDebt()
      case Err => Ok(InvalidCreation(b))
      case Ok(netDebt) => Ok(Creation(b.collateral, UnapplyFee(rate, netDebt)))
    else if b.IsEmpty() then
      match a.NetDebt()
      case Err => Err
      case Ok(netDebt) => Ok(Closure(a.collateral, if netDebt != 0 then Some(netDebt) else None))
    else if a.collateral == b.collateral then
      Ok(Adjustment(None, None, BorrowPart(a, b, rate), RepayPart(a, b),
                    if b.debt == 0 then DebtZeroed else NothingZeroed))
    else if a.debt == b.debt then
      Ok(Adjustment(DepositPart(a, b), WithdrawPart(a, b), None, None,
                    if b.collateral == 0 then CollateralZeroed else NothingZeroed))
    else
      Ok(Adjustment(DepositPart(a, b), WithdrawPart(a, b), BorrowPart(a, b, rate), RepayPart(a, b),
                    if b.debt == 0 then DebtZeroed
                    else if b.collateral == 0 then CollateralZeroed else NothingZeroed))
  }

  /** The Trove that results from a change; throws when creating over an open Trove or closing an empty one. */
  function Apply(t: Trove, change: Change, rate: nat): Result<Trove> {
    match change
    case NoChange => Ok(t)
    case InvalidCreation(invalid) => if t.IsEmpty() then Ok(invalid) else Err
    case Creation(deposit, borrow) =>
      if t.IsEmpty() then Ok(Trove(deposit, ZUSD_LIQUIDATION_RESERVE + ApplyFee(rate, borrow))) else Err
    case Closure(_, _) => if t.IsEmpty() then Err else Ok(EmptyTrove)
    case Adjustment(deposit, withdrawal, borrow, repayment, setToZero) =>
      var increase := Trove(Orelse(deposit, 0), if borrow.Some? then ApplyFee(rate, borrow.value) else 0);
      var decrease := Trove(Orelse(withdrawal, 0), Orelse(repayment, 0));
      match setToZero
      case CollateralZeroed =>
        Ok(t.(collateral := 0).Add(increase.(collateral := 0)).Subtract(decrease.(collateral := 0)))
      case DebtZeroed =>
        Ok(t.(debt := 0).Add(increase.(debt := 0)).Subtract(decrease.(debt := 0)))
      case NothingZeroed => Ok(t.Add(increase).Subtract(decrease))
  }

  // ----- Fees

  /** Borrowing the computed amount reaches the wanted debt, and overshoots by at most the fee on one unit. */
  lemma FeeRoundTrip(rate: nat, debtIncrease: nat)
    ensures var reached := ApplyFee(rate, UnapplyFee(rate, debtIncrease));
            && debtIncrease <= reached
            && reached <= debtIncrease + (ONE + rate - 1) / DIGITS
    ensures rate == 0 ==> ApplyFee(rate, UnapplyFee(rate, debtIncrease)) == debtIncrease
  {
  }

  /** Whether some borrowed amount creates exactly this debt: its remainder must exceed what the fee can skip. */
  predicate CanBeHit(rate: nat, debtIncrease: nat) {
    (debtIncrease * DIGITS + (ONE + rate - 1)) % (ONE + rate) >= rate
  }

  /** With n == amount * m + r, the product is within one DIGITS above the dividend exactly when r is large enough. */
  lemma ExactProduct(debt: nat, rate: nat, amount: nat, r: nat)
    requires debt * DIGITS + (ONE + rate - 1) == amount * (ONE + rate) + r && r < ONE + rate
    ensures amount * (ONE + rate) / DIGITS == debt <==> r >= rate
  {
    var product := amount * (ONE + rate);
    DivBounds(product, DIGITS);
    assert product == debt * DIGITS + (ONE + rate - 1 - r);
    if r >= rate {
      DivUnique(product, DIGITS, debt);
    } else {
      assert product >= (debt + 1) * DIGITS;
      DivAtLeast(product, DIGITS, debt + 1);
    }
  }

  /** It is hit exactly if and only if the remainder says so, which is if and only if some amount hits it at all. */
  lemma FeeRoundTripExact(rate: nat, debtIncrease: nat)
    ensures ApplyFee(rate, UnapplyFee(rate, debtIncrease)) == debtIncrease <==> CanBeHit(rate, debtIncrease)
    ensures CanBeHit(rate, debtIncrease) <==> exists amount: nat :: ApplyFee(rate, amount) == debtIncrease
  {
    var n := debtIncrease * DIGITS + (ONE + rate - 1);
    DivBounds(n, ONE + rate);
    ExactProduct(debtIncrease, rate, n / (ONE + rate), n % (ONE + rate));
    FeeRoundTrip(rate, debtIncrease);
    forall amount: nat | ApplyFee(rate, amount) == debtIncrease
      ensures ApplyFee(rate, UnapplyFee(rate, debtIncrease)) == debtIncrease
    {
      MulReachesExactlyFromDivCeil(amount, debtIncrease, ONE + rate);
      MulMonotone(UnapplyFee(rate, debtIncrease), amount, ONE + rate, ONE + rate);
    }
  }

  // ----- whatChanged and apply

  /** The debt that must be borrowed to turn `a` into `b`. */
  function DebtToBorrow(a: Trove, b: Trove): nat {
    if a.IsEmpty() && b.debt >= ZUSD_LIQUIDATION_RESERVE then b.debt - ZUSD_LIQUIDATION_RESERVE
    else if a.IsEmpty() || b.debt <= a.debt then 0
    else b.debt - a.debt
  }

  /** `whatChanged` throws exactly when it would close a Trove that lacks the liquidation reserve. */
  lemma WhatChangedThrows(a: Trove, b: Trove, rate: nat)
    ensures WhatChanged(a, b, rate).Err?
            <==> !a.IsEmpty() && b.IsEmpty() && a.debt < ZUSD_LIQUIDATION_RESERVE
  {
  }

  /** The least amount whose borrowing creates at least the given debt. */
  predicate IsLeastFor(rate: nat, amount: nat, debt: nat) {
    ApplyFee(rate, amount) >= debt && (amount > 0 ==> ApplyFee(rate, amount - 1) < debt)
  }

  lemma UnapplyFeeIsLeast(rate: nat, debt: nat)
    ensures IsLeastFor(rate, UnapplyFee(rate, debt), debt)
  {
    var amount := UnapplyFee(rate, debt);
    MulReachesExactlyFromDivCeil(amount, debt, ONE + rate);
    if amount > 0 {
      MulReachesExactlyFromDivCeil(amount - 1, debt, ONE + rate);
    }
  }

  /** One side of an adjustment: nothing, an increase that is `up`, or a decrease by the difference. */
  predicate IsOneSided(before: nat, after: nat, up: Option<nat>, down: Option<nat>) {
    && (up.Some? <==> after > before)
    && (down.Some? <==> after < before)
    && (down.Some? ==> down.value == before - after)
  }

  /**
   What a change carries: a creation the collateral and the least amount to
   borrow, a closure the collateral and the debt less the reserve, and an
   adjustment at most one amount for collateral and one for debt, each the
   difference or the least amount to borrow for it.
   */
  lemma WhatChangedCarries(a: Trove, b: Trove, rate: nat)
    requires WhatChanged(a, b, rate).Ok?
    ensures match WhatChanged(a, b, rate).value
            case NoChange => a == b
            case InvalidCreation(t) => a.IsEmpty() && t == b != a && b.debt < ZUSD_LIQUIDATION_RESERVE
            case Creation(deposit, borrow) =>
              && a.IsEmpty() && deposit == b.collateral && b.debt >= ZUSD_LIQUIDATION_RESERVE
              && IsLeastFor(rate, borrow, b.debt - ZUSD_LIQUIDATION_RESERVE)
            case Closure(withdrawal, repayment) =>
              && !a.IsEmpty() && b.IsEmpty() && withdrawal == a.collateral
              && a.debt == ZUSD_LIQUIDATION_RESERVE + Orelse(repayment, 0) && repayment != Some(0)
            case Adjustment(deposit, withdrawal, borrow, repayment, setToZero) =>
              && !a.IsEmpty() && !b.IsEmpty() && a != b
              && IsOneSided(a.collateral, b.collateral, deposit, withdrawal)
              && (deposit.Some? ==> deposit.value == b.collateral - a.collateral)
              && IsOneSided(a.debt, b.debt, borrow, repayment)
              && (borrow.Some? ==> IsLeastFor(rate, borrow.value, b.debt - a.debt))
              && (setToZero.DebtZeroed? <==> b.debt == 0 < a.debt)
              && (setToZero.CollateralZeroed? <==> b.collateral == 0 < a.collateral)
  {
    UnapplyFeeIsLeast(rate, DebtToBorrow(a, b));
  }

  /** Applying what changed from `a` to `b` turns `a` into `b`, up to rounding up of the borrowed debt. */
  lemma ApplyWhatChanged(a: Trove, b: Trove, rate: nat)
    requires WhatChanged(a, b, rate).Ok?
    ensures var extra := ApplyFee(rate, UnapplyFee(rate, DebtToBorrow(a, b))) - DebtToBorrow(a, b);
            && extra >= 0
            && Apply(a, WhatChanged(a, b, rate).value, rate) == Ok(Trove(b.collateral, b.debt + extra))
  {
    FeeRoundTrip(rate, DebtToBorrow(a, b));
    DivMulBrackets(0, ONE + rate);
    assert UnapplyFee(rate, 0) == 0 by { DivUnique(ONE + rate - 1, ONE + rate, 0); }
  }

  /**
   The round trip never leaves less debt than asked for, overshoots by at
   most the fee on one unit, and is exact if and only if the debt to borrow
   can be hit; so always at rate 0.
   */
  lemma ApplyWhatChangedBounds(a: Trove, b: Trove, rate: nat)
    requires WhatChanged(a, b, rate).Ok?
    ensures var r := Apply(a, WhatChanged(a, b, rate).value, rate);
            && r.Ok?
            && r.value.collateral == b.collateral
            && b.debt <= r.value.debt <= b.debt + (ONE + rate - 1) / DIGITS
            && (rate <= ONE ==> r.value.debt <= b.debt + 1)
            && (rate == 0 ==> r.value == b)
            && (r.value == b <==> CanBeHit(rate, DebtToBorrow(a, b)))
  {
    ApplyWhatChanged(a, b, rate);
    FeeRoundTrip(rate, DebtToBorrow(a, b));
    FeeRoundTripExact(rate, DebtToBorrow(a, b));
    if rate <= ONE {
      DivMono(ONE + rate - 1, 2 * DIGITS - 1, DIGITS);
      assert (2 * DIGITS - 1) / DIGITS == 1;
    }
  }

  /** Not every debt can be hit: at a rate of 5%, 19 units borrowed create 19, and 20 create 21. */
  lemma RoundTripCanOvershoot()
    ensures var a, b, rate := Trove(1, 200), Trove(1, 220), 50_000_000_000_000_000;
            Apply(a, WhatChanged(a, b, rate).value, rate) == Ok(Trove(1, 221))
  {
    assert Mul(19, 1_050_000_000_000_000_000) == 19 && Mul(20, 1_050_000_000_000_000_000) == 21;
    assert DivCeil(20, 1_050_000_000_000_000_000) == 20;
  }

  /** A change computed for one Trove still zeroes what it zeroed when applied to another. */
  lemma ZeroingCarriesOver(a: Trove, b: Trove, c: Trove, rate: nat)
    requires b.collateral > 0 && b.debt > 0 && WhatChanged(b, c, rate).Ok?
    ensures c.debt == 0 && c.collateral > 0 ==>
              var r := Apply(a, WhatChanged(b, c, rate).value, rate); r.Ok? && r.value.debt == 0
    ensures c.collateral == 0 && c.debt > 0 ==>
              var r := Apply(a, WhatChanged(b, c, rate).value, rate); r.Ok? && r.value.collateral == 0
    ensures c.IsEmpty() && !a.IsEmpty() ==> Apply(a, WhatChanged(b, c, rate).value, rate) == Ok(EmptyTrove)
  {
  }

  /** An amount that moves as from one to another, but not below zero; a move to zero from above leads to zero. */
  function Moved(amount: nat, before: nat, after: nat): nat {
    if after == 0 && before != 0 then 0
    else if amount + after < before then 0
    else amount + after - before
  }

  /**
   An adjustment carries over to any Trove: its amounts move as those of
   the Trove that was adjusted, and its debt by what borrowing overshoots.
   */
  lemma AdjustmentCarriesOver(a: Trove, b: Trove, t: Trove, rate: nat)
    requires !a.IsEmpty() && !b.IsEmpty()
    ensures WhatChanged(a, b, rate).Ok?
    ensures var extra := ApplyFee(rate, UnapplyFee(rate, DebtToBorrow(a, b))) - DebtToBorrow(a, b);
            && extra >= 0
            && Apply(t, WhatChanged(a, b, rate).value, rate)
               == Ok(Trove(Moved(t.collateral, a.collateral, b.collateral), Moved(t.debt, a.debt, b.debt) + extra))
  {
    NoFeeOnNothing(rate, DebtToBorrow(a, b));
  }

  lemma NoFeeOnNothing(rate: nat, debt: nat)
    ensures ApplyFee(rate, UnapplyFee(rate, debt)) >= debt
    ensures debt == 0 ==> ApplyFee(rate, UnapplyFee(rate, debt)) == 0
  {
    FeeRoundTrip(rate, debt);
    assert UnapplyFee(rate, 0) == 0 by { DivUnique(ONE + rate - 1, ONE + rate, 0); }
  }

  /** An adjustment never carries a zero amount. */
  lemma AdjustmentsAreNonZero(a: Trove, b: Trove, rate: nat)
    requires WhatChanged(a, b, rate).Ok? && WhatChanged(a, b, rate).value.Adjustment?
    ensures var change := WhatChanged(a, b, rate).value;
            && change.depositCollateral != Some(0)
            && change.withdrawCollateral != Some(0)
            && change.borrowZUSD != Some(0)
            && change.repayZUSD != Some(0)
  {
  }
}
