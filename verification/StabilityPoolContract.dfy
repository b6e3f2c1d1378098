/**
 The storage of the StabilityPool contract and the functions that write it.
 Every transaction either reverts, leaving the storage as it was, or takes
 the storage where the corresponding step of the model goes.
 */
module StabilityPoolContract {
  import opened Arithmetic
  import opened StabilityPool
  import opened StabilityPoolSteps

  class Contract {
    var P: nat
    var currentScale: nat
    var currentEpoch: nat
    var epochToScaleToSum: map<(nat, nat), nat>
    var totalZUSDDeposits: nat
    var ETH: nat
    var lastZUSDLossError: nat
    var lastETHError: nat
    var deposits: seq<Deposit>

    /** The storage as a value. */
    function State(): Pool
      reads this
    {
      Pool(Product(P, currentScale, currentEpoch), epochToScaleToSum, totalZUSDDeposits, ETH,
           lastZUSDLossError, lastETHError, deposits)
    }

    constructor (n: nat)
      ensures State() == Run(n, [])
    {
      P, currentScale, currentEpoch := DECIMAL_PRECISION, 0, 0;
      epochToScaleToSum, deposits := map[], seq(n, _ => NoDeposit);
      totalZUSDDeposits, ETH, lastZUSDLossError, lastETHError := 0, 0, 0, 0;
    }

    /** A revert undoes every write of the transaction. */
    method Revert(saved: Pool)
      modifies this
      ensures State() == saved
    {
      P, currentScale, currentEpoch := saved.product.P, saved.product.scale, saved.product.epoch;
      epochToScaleToSum, totalZUSDDeposits, ETH := saved.sums, saved.total, saved.eth;
      lastZUSDLossError, lastETHError, deposits := saved.lossError, saved.ethError, saved.deposits;
    }

    /** `_computeRewardsPerUnitStaked` */
    method ComputeRewardsPerUnitStaked(coll: nat, debt: nat, total: nat)
      returns (ok: bool, gainPerUnit: nat, lossPerUnit: nat)
      requires total > 0 && debt > 0
      modifies this`lastETHError, this`lastZUSDLossError
      ensures ok <==> debt <= total && (debt < total ==> old(lastZUSDLossError) <= debt * DECIMAL_PRECISION)
      ensures ok ==>
                && PerUnit(lossPerUnit, lastZUSDLossError) == LossPerUnit(total, debt, old(lastZUSDLossError))
                && PerUnit(gainPerUnit, lastETHError) == GainPerUnit(total, coll, old(lastETHError))
    {
      gainPerUnit, lossPerUnit := 0, 0;
      var ethNumerator := coll * DECIMAL_PRECISION + lastETHError;
      if debt > total {
        return false, gainPerUnit, lossPerUnit;
      }
      if debt == total {
        lossPerUnit := DECIMAL_PRECISION;
        lastZUSDLossError := 0;
      } else {
        if debt * DECIMAL_PRECISION < lastZUSDLossError {
          return false, gainPerUnit, lossPerUnit;
        }
        var lossNumerator := debt * DECIMAL_PRECISION - lastZUSDLossError;
        lossPerUnit := FloorDiv(lossNumerator, total) + 1;
        DivBounds(lossNumerator, total);
        lastZUSDLossError := lossPerUnit * total - lossNumerator;
      }
      gainPerUnit := FloorDiv(ethNumerator, total);
      DivBounds(ethNumerator, total);
      lastETHError := ethNumerator - gainPerUnit * total;
      ok := true;
    }

    /** `_updateRewardSumAndProduct`; false when an assertion fails. */
    method UpdateRewardSumAndProduct(gainPerUnit: nat, lossPerUnit: nat) returns (ok: bool)
      modifies this`P, this`currentScale, this`currentEpoch, this`epochToScaleToSum
      ensures ok <==> lossPerUnit <= DECIMAL_PRECISION
                      && Shrunk(old(State().product), DECIMAL_PRECISION - lossPerUnit).P > 0
      ensures ok ==> State() == old(State()).(product := Shrunk(old(State().product), DECIMAL_PRECISION - lossPerUnit),
                                              sums := WithGain(old(State()), gainPerUnit))
    {
      if lossPerUnit > DECIMAL_PRECISION {
        return false;
      }
      var newProductFactor := DECIMAL_PRECISION - lossPerUnit;
      var currentS := State().SumAt(currentEpoch, currentScale);
      var marginalETHGain := gainPerUnit * P;
      epochToScaleToSum := epochToScaleToSum[(currentEpoch, currentScale) := currentS + marginalETHGain];
      var newP;
      if newProductFactor == 0 {
        currentEpoch := currentEpoch + 1;
        currentScale := 0;
        newP := DECIMAL_PRECISION;
      } else if FloorDiv(P * newProductFactor, DECIMAL_PRECISION) < SCALE_FACTOR {
        newP := FloorDiv(P * newProductFactor * SCALE_FACTOR, DECIMAL_PRECISION);
        currentScale := currentScale + 1;
      } else {
        newP := FloorDiv(P * newProductFactor, DECIMAL_PRECISION);
      }
      if newP == 0 {
        return false;
      }
      P := newP;
      ok := true;
    }

    /** `offset` */
    method OffsetDebt(debt: nat, coll: nat) returns (ok: bool)
      modifies this
      ensures ok <==> Offset(old(State()), debt, coll).Ok?
      ensures State() == if ok then Offset(old(State()), debt, coll).value else old(State())
      ensures ok && old(totalZUSDDeposits) > 0 && debt > 0 ==> IsSharedOut(old(State()), State(), debt, coll)
    {
      OffsetSharesOut(State(), debt, coll);
      var total := totalZUSDDeposits;
      if total == 0 || debt == 0 {
        return true;
      }
      var saved := State();
      var gainPerUnit, lossPerUnit;
      ok, gainPerUnit, lossPerUnit := ComputeRewardsPerUnitStaked(coll, debt, total);
      if ok {
        ok := UpdateRewardSumAndProduct(gainPerUnit, lossPerUnit);
      }
      if !ok {
        Revert(saved);
        return;
      }
      totalZUSDDeposits := totalZUSDDeposits - debt;
      ETH := ETH + coll;
    }

    /** `_updateDepositAndSnapshots` */
    method UpdateDepositAndSnapshots(who: nat, newValue: nat)
      requires who < |deposits|
      modifies this`deposits
      ensures State() == old(State()).(deposits := old(deposits)[who := Renewed(old(State()), newValue)])
    {
      if newValue == 0 {
        deposits := deposits[who := NoDeposit];
        return;
      }
      var currentS := State().SumAt(currentEpoch, currentScale);
      deposits := deposits[who := Deposit(newValue, Product(P, currentScale, currentEpoch), currentS)];
    }

    /** `provideToSP` */
    method ProvideToSP(who: nat, amount: nat) returns (ok: bool)
      requires WellFormed(State())
      modifies this
      ensures ok <==> Step(old(State()), Provide(who, amount)).Ok?
      ensures State() == if ok then Step(old(State()), Provide(who, amount)).value else old(State())
      ensures ok ==> IsSettled(old(State()), State(), who, amount)
    {
      ProvideLaws(State(), who, amount);
      if who >= |deposits| || amount == 0 {
        return false;
      }
      var d := deposits[who];
      var gain := EthGain(State(), d);
      var compounded := Compounded(State(), d);
      if compounded > d.value || gain > ETH {
        return false;
      }
      totalZUSDDeposits := totalZUSDDeposits + amount;
      UpdateDepositAndSnapshots(who, compounded + amount);
      ETH := ETH - gain;
      ok := true;
    }

    /** `withdrawFromSP`: at most the compounded deposit is withdrawn. */
    method WithdrawFromSP(who: nat, amount: nat, noUndercollateralizedTroves: bool) returns (ok: bool)
      requires WellFormed(State())
      modifies this
      ensures ok <==> Step(old(State()), Withdraw(who, amount, noUndercollateralizedTroves)).Ok?
      ensures State() == if ok then Step(old(State()), Withdraw(who, amount, noUndercollateralizedTroves)).value
                         else old(State())
      ensures ok ==> var left := Compounded(old(State()), old(deposits)[who]);
                     IsSettled(old(State()), State(), who, -(if amount < left then amount else left))
    {
      WithdrawLaws(State(), who, amount, noUndercollateralizedTroves);
      if who >= |deposits| || (amount != 0 && !noUndercollateralizedTroves) || deposits[who].value == 0 {
        return false;
      }
      var d := deposits[who];
      var gain := EthGain(State(), d);
      var compounded := Compounded(State(), d);
      var toWithdraw := if amount < compounded then amount else compounded;
      if compounded > d.value || toWithdraw > totalZUSDDeposits || gain > ETH {
        return false;
      }
      totalZUSDDeposits := totalZUSDDeposits - toWithdraw;
      UpdateDepositAndSnapshots(who, compounded - toWithdraw);
      ETH := ETH - gain;
      ok := true;
    }

    /** `withdrawETHGainToTrove` */
    method WithdrawETHGainToTrove(who: nat, hasTrove: bool) returns (ok: bool)
      requires WellFormed(State())
      modifies this
      ensures ok <==> Step(old(State()), MoveGainToTrove(who, hasTrove)).Ok?
      ensures State() == if ok then Step(old(State()), MoveGainToTrove(who, hasTrove)).value else old(State())
      ensures ok ==> IsSettled(old(State()), State(), who, 0)
    {
      MoveGainLaws(State(), who, hasTrove);
      if who >= |deposits| || deposits[who].value == 0 || !hasTrove || EthGain(State(), deposits[who]) == 0 {
        return false;
      }
      var d := deposits[who];
      var gain := EthGain(State(), d);
      var compounded := Compounded(State(), d);
      if compounded > d.value || gain > ETH {
        return false;
      }
      UpdateDepositAndSnapshots(who, compounded);
      ETH := ETH - gain;
      ok := true;
    }
  }
}
