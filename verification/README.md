# Verified model of Zero

Zero lets users open *Troves* (collateralised ZUSD loans), deposit ZUSD in a *Stability Pool* that absorbs liquidated
debt, and watch all of it from a client library. This project models the parts of the repository in which rounding,
ordering or mutable state make correctness hard to see, and proves what they guarantee for all inputs and all runs.

| file | models |
|---|---|
| `Arithmetic.dfy` | facts about division, powers of ten and products that the proofs share |
| `Decimal.dfy`, `DecimalPow.dfy`, `DecimalText.dfy` | the 18-digit `Decimal`: products and quotients, `pow`, parsing and printing |
| `Fees.dfy` | the decaying base rate and the rates built on it |
| `Trove.dfy` | what changed between two Troves, applied again |
| `StoreState.dfy`, `StoreRuntime.dfy`, `LiquityStore.dfy` | the client's state store: values and derivation, listeners and timers, the object itself |
| `TroveChecks.dfy` | the fuzzer's ordering and list-equality checks |
| `SortedTroves.dfy` | the doubly linked list of Troves with insertion hints |
| `StabilityPool.dfy`, `StabilityPoolShares.dfy`, `StabilityPoolSteps.dfy`, `StabilityPoolRuns.dfy`, `StabilityPoolContract.dfy` | the product-and-sum accounting of the Stability Pool: backing, each depositor's share, what every step pays and leaves, runs that go wrong, and the contract's storage |
| `Redistribution.dfy`, `RedistributionSteps.dfy`, `RedistributionSafety.dfy` | redistribution of liquidated Troves by stake, with all its truncating divisions and carried errors, what every transaction changes, and what holds over every run |
| `RedistributionOrder.dfy`, `RedistributionDust.dfy`, `RedistributionDrift.dfy`, `RedistributionWidth.dfy` | what redistribution does to ratios and their order: when they fall, the gap that keeps the order, the dust that truncation leaves, the band that all stakes stay in and how wide it can become |
| `RedistributionRuns.dfy` | runs in which redistribution goes wrong |
| `RedistributionExact.dfy` | the same over exact reals, where the order is kept: the reason why the list works at all |
| `MacroModel.dfy` | the economic simulation with liquidation, adjustment, redemption and arbitrage |

A Decimal is a natural number of units of 10^-18. Solidity and JavaScript errors are `Err` results or a false `ok`.
Clocks, random draws, callbacks and object identities are inputs, and every law holds whatever they are.

## Findings

- `Decimal.pow` rounds at every step, and yet for bases up to ONE it never grows with the exponent. So the base rate
  never grows with time, exactly, and the client computes the same rate as the chain up to the chain's cap of 1000 years.
- `pow` is within (n-1)/2 units of 10^-18 of the exact power. The test in `packages/lib-base/test/Decimal.test.ts` (line
  197) compares it with the floating-point `Math.pow`, to 10^-9; how far that is from the exact power is not part of this
  model.
- The comments in `packages/contracts/contracts/StabilityPool.sol` (lines 531-534 and 820-826) say that rounding in the
  loss per unit favours the pool in every compounded deposit. It does not: because the error carried in lowers the loss,
  the loss covers the debt if and only if the error carried out is at least the one carried in. `LossCoversDebtIff` is
  that condition, `RoundingCanFavourTheDepositor` a run in which the only depositor is owed 15264 units more than the pool
  holds and cannot withdraw all of it, and `DepositsAreBacked` the bound that holds over every run.
- The assertion that the product P stays positive (`packages/contracts/contracts/StabilityPool.sol`, line 595) can fail:
  in `ProductCanVanish` the pool is emptied but for dust three times over, and the third liquidation reverts.
- `packages/contracts/contracts/SortedTroves.sol` (lines 25-28) relies on liquidations keeping the order of nominal ratios.
  In exact arithmetic they do, because stakes stay proportional to collateral. With the contract's truncations they need
  not: `OrderCanBeReversed` is a run with one liquidation and Troves of ordinary size. Over every run truncation moves the
  gap between two untouched Troves, as a cross product, by less than their collateral and debt together, once and not per
  liquidation (`RunGapDrift`). A larger exact gap keeps the order, one as large the other way reverses it
  (`OrderOverRun`). How far the exact gap itself moves depends on how far stakes have strayed from proportion: nothing but
  one truncation while both Troves are fresh (`FreshOrderKept`, and `LiquidationKeepsOrder` in terms of the system before
  the liquidation), and in general the width of a band that contains every Trove that can be reached (`ReachedIsInBand`,
  `OrderKeptInBand`). Relative to its height that width is at most, for each liquidation, the number of Troves and of
  rewards moved out, over the stakes left (`BandIsThin`), which makes the gap one that can be computed (`OrderKeptAtRate`).
- The same comment says that every ratio falls. A liquidation lowers it if and only if the debt that the Trove takes on,
  at the Trove's own ratio, outweighs the collateral (`RatioFallsIff`); `RatioOverRun` says it of runs, and `RatioCanRise`
  is a run in which it rises by a half.
- Over every run all pending collateral, with the carried error, is held by the default pool (`EthRewardsAreHeld`). Of debt
  this is not true. `_hasPendingRewards` looks at the collateral only
  (`packages/contracts/contracts/Dependencies/TroveManagerBase.sol`, line 254), so a share of debt that came without a share
  of collateral (`LagsIffShareLost`) is not applied when a Trove is adjusted, and grows with its stake. In
  `PendingDebtCanBeMissing` it grows beyond what the default pool holds, and liquidating the Trove reverts. All pending debt
  is held throughout a run if and only if no adjustment of it raises such a share beyond the slack (`DebtHeldIff`).
- The comment in `_computeNewStake` (`packages/contracts/contracts/Dependencies/TroveManagerBase.sol`, lines 317-321) gives
  a reason why the assertion on the snapshot of stakes holds. It can fail: stakes are truncated to zero while there is
  collateral, and a fully offset liquidation still takes snapshots. In `StakesCanVanish` no Trove can be opened or adjusted
  any more. It holds throughout a run if and only if no liquidation leaves collateral without stakes
  (`SnapshotsUsableIff`).
- A comment in `packages/lib-base/src/LiquityStore.ts` (line 547) says that deriving on every update captures the passage
  of time. The derived state is a function of the base state alone, because rates are taken at the time of the latest
  block, so a tick without news changes and reports nothing.
- If deriving throws during an update, the base state has already been replaced, nothing is scheduled and nobody is
  called; the derived fields stay behind until the next update that succeeds. `Stale` records this.
- In the macro model's floor branch, when redemption is capped, the price that is computed anew is the one before
  redemption, because the liquidity pool is not reduced (`StabilisePrice`).
- The macro model's shocks can make the stability pool or the redemption ratio negative. With a negative stability pool
  redemption can run out of troves, and with a negative ratio it adds debt to the riskiest trove, which then stays at 110%
  if and only if it has enough to spare (`Redeem`).
- `whatChanged` followed by `apply` can overshoot the wanted debt when a fee is charged. A remainder tells exactly when it
  does (`CanBeHit`), and then no borrowed amount creates that debt.
- The strings "" and "e5" match the regular expression of a Decimal and are rejected all the same, for want of a coefficient.

## Model

| member | source | states |
|---|---|---|
| `Decimal.MulReachesExactlyFromDivCeil` | packages/lib-base/src/Decimal.ts:199-224 | a truncating product reaches `a` if and only if the factor is at least the ceiling quotient |
| `Decimal.DivMulBrackets` | packages/lib-base/src/Decimal.ts:199-224 | dividing and multiplying back brackets the dividend, from below with `div`, from above with `_divCeil` |
| `Decimal.MulThenDivAgainstMulDiv` | packages/lib-base/src/Decimal.ts:199-235 | `mul` then `div` never exceeds `mulDiv` and loses less than DIGITS/c + 1 units |
| `Decimal.MulMonotone` | packages/lib-base/src/Decimal.ts:199-201 | the truncating product is monotone in both factors |
| `DecimalPow.PowBySquaring` | packages/lib-base/src/Decimal.ts:237-261 | the squaring loop and its shortcuts compute `Pow`, and throw exactly outside 0 to 2^32-1 |
| `DecimalPow.PowError` | packages/lib-base/src/Decimal.ts:237-261 | for bases up to ONE the result is within (n-1)/2 units of the exact n-th power over the reals |
| `DecimalPow.RoundedMulIsNearest` | packages/lib-base/src/Decimal.ts:17 | one rounded product is within half a unit of the exact one |
| `DecimalPow.PowMonotoneInBase` | packages/lib-base/src/Decimal.ts:237-261 | for every exponent, a larger base gives no smaller power |
| `DecimalPow.PowStaysOnItsSideOfOne` | packages/lib-base/src/Decimal.ts:237-261 | powers of bases up to ONE stay up to ONE, those of bases from ONE stay from ONE |
| `DecimalPow.PowLoopShift` | packages/lib-base/src/Decimal.ts:248-258 | n+1 from a unit accumulator is n with the base already accumulated, rounding included |
| `DecimalPow.PowMonotoneInExponent` | packages/lib-base/src/Decimal.ts:237-261 | powers of bases up to ONE never grow with the exponent, of bases from ONE never shrink |
| `DecimalPow.DecPow` | packages/contracts/contracts/Dependencies/LiquityMath.sol:63-86 | the on-chain loop computes the same `Pow`, with the exponent capped |
| `DecimalPow.CappedExponent` | packages/contracts/contracts/Dependencies/LiquityMath.sol:63-66 | capping never lowers the power of a base up to ONE |
| `DecimalText.ScanSound` | packages/lib-base/src/Decimal.ts:65-70 | a recognised numeral consists of exactly the given text |
| `DecimalText.ScanOfText` | packages/lib-base/src/Decimal.ts:65-70 | the number format is unambiguous: each numeral is recognised with its own groups |
| `DecimalText.FromString` | packages/lib-base/src/Decimal.ts:65-109 | the split-based parser yields the meaning of the numeral, and throws exactly without a match or on an empty coefficient |
| `DecimalText.ParseAcceptsIff` | packages/lib-base/src/Decimal.ts:65-92 | text is accepted if and only if it spells a numeral of the format whose coefficient is not empty |
| `DecimalText.PositiveExponentMeaning` | packages/lib-base/src/Decimal.ts:76-92 | with exponent k the value is exact up to 18 fractional digits and otherwise low by less than 10^k units |
| `DecimalText.PointedMeaning` | packages/lib-base/src/Decimal.ts:94-108 | cutting or padding the fraction to 18 digits yields the exact value truncated |
| `DecimalText.ParseToString` | packages/lib-base/src/Decimal.ts:128-139 | parsing the printed Decimal gives it back, except INFINITY, which is rejected |
| `DecimalText.ToStringInjective` | packages/lib-base/src/Decimal.ts:128-139 | equal texts come from equal Decimals |
| `DecimalText.ToStringIsCanonical` | packages/lib-base/src/Decimal.ts:128-139 | every Decimal but INFINITY prints as a whole part without leading zeros and, exactly if it is not whole, a point and at most 18 decimals that do not end in a zero |
| `DecimalText.ToStringParse` | packages/lib-base/src/Decimal.ts:65-139 | conversely, printing what is parsed from such a text gives the same text back, unless it denotes INFINITY |
| `DecimalText.PrecisionDecimals` | packages/lib-base/src/Decimal.ts:146-162 | `toString(p)` prints exactly p decimals, 18 from there on, and no point for none |
| `DecimalText.ParseToStringWithPrecision` | packages/lib-base/src/Decimal.ts:146-162 | parsing `toString(p)` gives the Decimal rounded to p digits, and the Decimal itself for p of 18 or more |
| `DecimalText.RoundedIsNearest` | packages/lib-base/src/Decimal.ts:141-144 | rounding yields a multiple of the last digit at most half of it away, ties upwards |
| `DecimalText.RoundedMonotoneIdempotent` | packages/lib-base/src/Decimal.ts:141-144 | rounding is monotone, and rounding again changes nothing |
| `FeeRates.BaseRateNeverGrows` | packages/lib-base/src/Fees.ts:82-92 | the base rate is no larger at any later time, and computable earlier if it is later |
| `FeeRates.BaseRateStartsAtStoredRate` | packages/lib-base/src/Fees.ts:82-92 | within the first minute, and before it, the base rate is the stored rate, and it is never above it |
| `FeeRates.BaseRateTracksExactDecay` | packages/lib-base/src/Fees.ts:82-92 | after m minutes it is within (m+1)/2 units of exact exponential decay |
| `FeeRates.BorrowingRateLaws` | packages/lib-base/src/Fees.ts:115-119 | zero in recovery mode, otherwise between its bounds, and never growing with time |
| `FeeRates.BorrowingRateIs` | packages/lib-base/src/Fees.ts:115-119 | outside recovery mode it is the minimum plus the base rate, and the maximum if and only if the base rate makes up the rest; when it throws |
| `FeeRates.RedemptionRateLaws` | packages/lib-base/src/Fees.ts:150-159 | between its floor and 100%, never growing with time, never shrinking with the redeemed fraction; what it is exactly is in the next two rows |
| `FeeRates.RedemptionRateStarts` | packages/lib-base/src/Fees.ts:150-159 | with nothing redeemed it is the minimum plus the base rate, and 100% if and only if that is reached; when it throws |
| `FeeRates.RedemptionRateIs` | packages/lib-base/src/Fees.ts:150-159 | a redeemed fraction adds the fraction divided by beta, truncated to a unit, and leads to 100% if and only if that is reached; also without beta |
| `FeeRates.ClientAgreesWithChain` | packages/contracts/contracts/Dependencies/TroveManagerBase.sol:329-338 | client and chain compute the same base rate up to the chain's cap; beyond it the client's is no larger |
| `TroveChanges.FeeRoundTrip` | packages/lib-base/src/Trove.ts:396-400 | adding the fee to the amount found for a debt increase reaches it, overshooting by at most the fee on one unit |
| `TroveChanges.FeeRoundTripExact` | packages/lib-base/src/Trove.ts:396-400 | the increase is hit exactly if and only if a remainder is at least the rate, and otherwise no amount hits it |
| `TroveChanges.WhatChangedThrows` | packages/lib-base/src/Trove.ts:561-599 | throws if and only if a Trove is closed whose debt is below the liquidation reserve |
| `TroveChanges.WhatChangedCarries` | packages/lib-base/src/Trove.ts:561-599 | each kind of change carries exactly its amounts: collateral, debt less the reserve, differences on one side only, the least amount whose borrowing creates the debt; and what is set to zero |
| `TroveChanges.ApplyWhatChanged` | packages/lib-base/src/Trove.ts:561-665 | applying what changed from a to b turns a into b with exactly the fee's rounding added |
| `TroveChanges.ApplyWhatChangedBounds` | packages/lib-base/test/Trove.test.ts:82-104 | the round trip succeeds, never undershoots, overshoots by at most the fee on one unit, is exact at rate 0 and otherwise iff that remainder says so |
| `TroveChanges.RoundTripCanOvershoot` | packages/lib-base/src/Trove.ts:607-665 | a debt that cannot be hit, at a rate of 5% |
| `TroveChanges.ZeroingCarriesOver` | packages/lib-base/test/Trove.test.ts:54-80 | a change that zeroes debt, collateral or both does so on any other Trove |
| `TroveChanges.AdjustmentCarriesOver` | packages/lib-base/src/Trove.ts:607-665 | what changed between two open Troves moves the amounts of any other Trove in the same way, not below zero and to zero if to zero, plus exactly the rounding of the fee |
| `TroveChanges.AdjustmentsAreNonZero` | packages/lib-base/test/Trove.test.ts:107-122 | an adjustment carries no zero amounts |
| `TroveChanges.CollateralRatioIs` | packages/lib-base/src/Trove.ts:446-448 | the ratio brackets the value of the collateral over the debt, and is infinite without debt |
| `TroveChanges.RatioBelowIff` | packages/lib-base/src/Trove.ts:457-480 | it is below a bound if and only if the value of the collateral is below the debt times the bound |
| `TroveChanges.ApplyRedistributionIs` | packages/lib-base/src/Trove.ts:804-815 | owner and status stay, and collateral and debt each grow by the truncated product of the stake and what was redistributed since the snapshot |
| `StoreState.FieldEqualsIsEquality` | packages/lib-base/src/LiquityStore.ts:278-303 | every equality the store uses compares all there is to compare |
| `StoreState.ReduceOverrides` | packages/lib-base/src/LiquityStore.ts:305-432 | up to identities, reducing is overriding by the defined known fields |
| `StoreState.ReduceAllIsReduceMerged` | packages/lib-base/src/LiquityStore.ts:305-432 | any number of updates one by one equals one update in which later fields win |
| `StoreState.DerivedFromLaws` | packages/lib-base/src/LiquityStore.ts:434-453 | deriving throws iff the minutes since the last fee operation exceed 32 bits; rates are within their limits; what each field is exactly is in the next two rows |
| `StoreState.DerivedFromIs` | packages/lib-base/src/LiquityStore.ts:434-453 | the own Trove is the stored own one with its share, the fees are those of the mode that the total ratio says, the rates are the exact ones, and the flag says whether the riskiest Trove with its share is below 110% |
| `StoreState.AgreeingFieldsAre` | packages/lib-base/src/LiquityStore.ts:434-483 | in every state that agrees with its base state each named field shows its own of these contents |
| `StoreState.ReducedDerivedAgrees` | packages/lib-base/src/LiquityStore.ts:455-483 | refreshing any old derived state field by field makes it agree with plain recomputation |
| `StoreState.DerivingAgainKeepsDerived` | packages/lib-base/src/LiquityStore.ts:535-548 | deriving again from an unchanged base state changes nothing, not even identities |
| `StoreState.DifferenceIsChange` | packages/lib-base/src/LiquityStore.ts:180-183 | although identities are compared, a field is reported iff its content changed, with its new value |
| `StoreRuntime.NotifyLaws` | packages/lib-base/src/LiquityStore.ts:488-500 | whatever callbacks do, calls are in subscription order, at most one each, none to listeners added meanwhile, and exactly those still subscribed at their turn |
| `StoreRuntime.SubscribeLaws` | packages/lib-base/src/LiquityStore.ts:508-516 | a subscription adds one listener of its own at the end and leaves the timers alone |
| `StoreRuntime.UnsubscribeLaws` | packages/lib-base/src/LiquityStore.ts:513-515 | the listener is taken out and the others stay in their order; one that is not subscribed changes nothing |
| `StoreRuntime.AtMostOneLiveTimer` | packages/lib-base/src/LiquityStore.ts:245-268 | in every run of loads, updates, ticks that complete or throw and calls from outside, at most one update timer is live, and it is the recorded one |
| `StoreRuntime.NothingLiveAfterStop` | packages/lib-base/src/LiquityStore.ts:245-259 | from any state without a live timer, none becomes live until the store is loaded or updated again |
| `StoreRuntime.StopStops` | packages/lib-base/src/LiquityStore.ts:519-562 | a stop leaves no timer live, whether called from outside, by `onLoaded` or by any listener of a pass |
| `StoreRuntime.ScheduledUnlessStopped` | packages/lib-base/src/LiquityStore.ts:519-562 | after a load, an update or a tick that completes the next update is scheduled if and only if no callback that was run stops the store |
| `Store.RunRefinesRecomputation` | packages/lib-base/src/LiquityStore.ts:519-562 | in every run of a loaded store the base state holds what one merged update makes of the loaded state, the derived state is stale iff deriving from it throws, and otherwise it agrees with recomputation |
| `Store.RunShowsBaseState` | packages/lib-base/src/LiquityStore.ts:434-562 | in every run of a loaded store, unless the last derivation threw, each derived field shows what its name says of the base state |
| `Store.LiquityStore.StateFollowsHistory` | packages/lib-base/src/LiquityStore.ts:519-562 | the store as it stands against its recorded history: the base state is the loaded one reduced by the merged updates |
| `Store.LiquityStore.Load` | packages/lib-base/src/LiquityStore.ts:519-532 | throws when loaded before or when a rate throws, and what is left then; otherwise the state and history of a loaded store, the timer and the callback's effects |
| `Store.LiquityStore.Update` | packages/lib-base/src/LiquityStore.ts:535-562 | the state is that of the run with one more update and the history grows by it; the reported change is the change of contents, empty without news; the notification pass; also when deriving throws |
| `Store.LiquityStore.Tick` | packages/lib-base/src/LiquityStore.ts:261-268 | a timer tick keeps base state and history and reports nothing unless an earlier derivation threw, is stale iff it throws, and makes the calls and the schedule of an update |
| `Store.LiquityStore.Notify` | packages/lib-base/src/LiquityStore.ts:488-500 | the loop over a copy of the listeners makes the calls of the model |
| `Store.LiquityStore.Subscribe` | packages/lib-base/src/LiquityStore.ts:508-516 | the listeners are those of before, followed by one of its own |
| `Store.LiquityStore.Unsubscribe` | packages/lib-base/src/LiquityStore.ts:513-515 | the listeners are those of before without this one, in their order, and all of them if it was not among them |
| `Store.LiquityStore.ScheduleUpdate` | packages/lib-base/src/LiquityStore.ts:261-268 | the old timer is cancelled, and the only live one is recorded and was not live before |
| `Store.LiquityStore.CancelUpdateIfScheduled` | packages/lib-base/src/LiquityStore.ts:255-259 | no timer is live afterwards |
| `TroveChecks.SortedByICR` | packages/fuzzer/src/utils.ts:88-112 | accepts exactly when neighbouring ratios descend within the tolerance |
| `TroveChecks.DescendingDrift` | packages/fuzzer/src/utils.ts:88-112 | an accepted list rises by at most the tolerance per step between any two positions |
| `TroveChecks.DumpTroves` | packages/fuzzer/src/utils.ts:283-312 | the flags of the listing, and the throw when a ratio is below the tolerance |
| `TroveChecks.RejectedIffFlagged` | packages/fuzzer/src/utils.ts:88-112 | if the listing completes, the order is rejected exactly when some line is flagged |
| `TroveChecks.CheckTroveOrdering` | packages/fuzzer/src/utils.ts:142-161 | passes exactly on accepted lists, and when the listing's own error replaces the ordering error |
| `TroveChecks.ListOfTrovesShouldBeEqual` | packages/fuzzer/src/utils.ts:119-140 | the loop returns normally exactly on equal lengths and equal Troves by owner |
| `TroveChecks.AcceptedSharesOwners` | packages/fuzzer/src/utils.ts:119-140 | with distinct owners in the first list, the second has distinct owners and the same ones |
| `TroveChecks.AcceptedIffPermutation` | packages/fuzzer/src/utils.ts:119-140 | then acceptance means exactly that the lists are permutations of each other |
| `SortedTroves.List.Insert` | packages/contracts/contracts/SortedTroves.sol:94-145 | when it succeeds; for any hints and ratios the list stays linked and the id lands in a gap it fits; order is kept |
| `SortedTroves.List.Remove` | packages/contracts/contracts/SortedTroves.sol:156-191 | succeeds exactly on members, and the others stay linked in their order |
| `SortedTroves.List.ReInsert` | packages/contracts/contracts/SortedTroves.sol:200-218 | moves one id to a gap its new ratio fits, the others keep their order, and the list is sorted again |
| `SortedTroves.List.FindInsertPosition` | packages/contracts/contracts/SortedTroves.sol:397-433 | from any hints a gap is found in which the ratio fits, even in an unsorted list |
| `SortedTroves.List.DescendList` | packages/contracts/contracts/SortedTroves.sol:329-351 | the walk to the tail stays in the list and ends in a fitting gap |
| `SortedTroves.List.AscendList` | packages/contracts/contracts/SortedTroves.sol:359-381 | the walk to the head stays in the list and ends in a fitting gap |
| `SortedTroves.List.ValidPositionIsGap` | packages/contracts/contracts/SortedTroves.sol:299-321 | a pair of ids that passes the check is a gap of the list in which the ratio fits |
| `SortedTroves.LinkedInIsLinked` | packages/contracts/contracts/SortedTroves.sol:117-140 | the pointer writes of an insertion represent the sequence with the id inserted |
| `SortedTroves.LinkedOutIsLinked` | packages/contracts/contracts/SortedTroves.sol:159-187 | the pointer writes of a removal represent the sequence without the id |
| `SortedTroves.RemoveKeepsSorted` | packages/contracts/contracts/SortedTroves.sol:156-191 | removing an id leaves a sorted list sorted |
| `SortedTroves.HintsDoNotMatter` | packages/contracts/contracts/SortedTroves.sol:397-433 | hints choose between ids of equal ratio only: the sequence of ratios does not depend on them |
| `SortedTroves.LastIsLeast` | packages/contracts/contracts/SortedTroves.sol:14-28 | a bound holds of all Troves exactly when it holds of the last |
| `StabilityPool.StepWellFormed` | packages/contracts/contracts/StabilityPool.sol:484-599 | every step keeps snapshots in the past, sums of later scales zero and P positive |
| `StabilityPool.DepositsAreBacked` | packages/contracts/contracts/StabilityPool.sol:484-599 | over every run all depositors together can withdraw at most what the pool holds plus a 10^18th of the most it held in a liquidation |
| `StabilityPool.OffsetKeepsCovered` | packages/contracts/contracts/StabilityPool.sol:484-501 | cancelling debt keeps total worth, with the carried error, within the bound |
| `StabilityPool.SettleExcess` | packages/contracts/contracts/StabilityPool.sol:895-920 | recording a deposit anew never adds to the excess of worth over holdings; what it pays and leaves is in `ProvideLaws`, `WithdrawLaws` and `MoveGainLaws` |
| `StabilityPool.LossAccounting` | packages/contracts/contracts/StabilityPool.sol:505-545 | the loss is at most everything and accounts for the debt exactly, up to the errors carried in and out |
| `StabilityPool.LossCoversDebtIff` | packages/contracts/contracts/StabilityPool.sol:528-541 | the exact condition under which the loss charged covers the cancelled debt |
| `StabilityPoolRuns.RoundingCanFavourTheDepositor` | packages/contracts/contracts/StabilityPool.sol:531-535 | a run with amounts that the system can produce after which the only depositor is owed more than the pool holds, and a full withdrawal reverts |
| `StabilityPool.ProductStaysPositiveIff` | packages/contracts/contracts/StabilityPool.sol:575-598 | the exact condition under which the assertion on P holds |
| `StabilityPoolRuns.ProductCanVanish` | packages/contracts/contracts/StabilityPool.sol:575-598 | a run that takes P to 10^9 and to 1, after which a liquidation reverts although the pool holds enough |
| `StabilityPool.CompoundedAtMostWorth` | packages/contracts/contracts/StabilityPool.sol:790-834 | a compounded deposit is never above its exact worth |
| `StabilityPool.GainsAreBacked` | packages/contracts/contracts/StabilityPool.sol:548-665 | over every run all depositors together can claim at most the ETH held, plus the slack that over-valued deposits add per liquidation |
| `StabilityPool.OffsetKeepsGainsCovered` | packages/contracts/contracts/StabilityPool.sol:505-599 | one liquidation keeps claims covered up to that slack; that it gives each deposit its gain is in `OffsetLaws` |
| `StabilityPoolShares.CompoundedIsCutOfWorth` | packages/contracts/contracts/StabilityPool.sol:790-834 | a depositor gets exactly the whole part of the deposit's worth; nothing after two changes of scale, in a later epoch, or below a billionth |
| `StabilityPoolShares.ShrunkLevelIsLargest` | packages/contracts/contracts/StabilityPool.sol:575-598 | the new product is the largest at its scale that does not exceed the exact one, with or without a change of scale |
| `StabilityPoolShares.GainIsSharedByWorth` | packages/contracts/contracts/StabilityPool.sol:548-573 | adding a gain per unit to the sums gives every deposit within reach exactly its worth times the gain, and others nothing |
| `StabilityPoolShares.EthGainIsNearlyAllEarned` | packages/contracts/contracts/StabilityPool.sol:627-665 | a claim falls short of what was earned by less than one unit and the deposit's share of one unit of S |
| `StabilityPoolSteps.OffsetLaws` | packages/contracts/contracts/StabilityPool.sol:484-599 | of every liquidation, the one that empties the pool included: loss and gain per unit make up debt and collateral with the errors carried in and out, the product shrinks to the largest that fits or starts a new epoch, every deposit there can be earns exactly its worth times the gain if within reach and nothing otherwise, and pool and records change by nothing else |
| `StabilityPoolSteps.NothingToOffset` | packages/contracts/contracts/StabilityPool.sol:484-488 | without deposits or debt nothing changes |
| `StabilityPoolSteps.OffsetRevertsIff` | packages/contracts/contracts/StabilityPool.sol:484-599 | it reverts if and only if the pool holds too little, the error carried in exceeds the debt, or the product would vanish |
| `StabilityPoolSteps.ProvideLaws` | packages/contracts/contracts/StabilityPool.sol:253-290 | when it succeeds; then the claim is paid in full and is nothing afterwards, the deposit is what was left of it plus the amount, the pool changes by exactly these, and nobody else is affected |
| `StabilityPoolSteps.WithdrawLaws` | packages/contracts/contracts/StabilityPool.sol:321-361 | the same with the amount paid out, or what was left of the deposit if that is less |
| `StabilityPoolSteps.MoveGainLaws` | packages/contracts/contracts/StabilityPool.sol:381-424 | the same with only the claim paid |
| `StabilityPoolContract.Contract.OffsetDebt` | packages/contracts/contracts/StabilityPool.sol:484-501 | the contract's writes are the model's step, a revert leaves the storage as it was, and otherwise loss, gain, product and every deposit's earnings are as in `OffsetLaws` |
| `StabilityPoolContract.Contract.ComputeRewardsPerUnitStaked` | packages/contracts/contracts/StabilityPool.sol:505-545 | when it reverts, and the loss and gain per unit with the errors carried on |
| `StabilityPoolContract.Contract.UpdateRewardSumAndProduct` | packages/contracts/contracts/StabilityPool.sol:548-599 | when its assertions hold, and the new product and sums |
| `StabilityPoolContract.Contract.ProvideToSP` | packages/contracts/contracts/StabilityPool.sol:253-290 | the contract's writes are the model's step, or nothing; what is paid and left is as in `ProvideLaws` |
| `StabilityPoolContract.Contract.WithdrawFromSP` | packages/contracts/contracts/StabilityPool.sol:321-361 | the contract's writes are the model's step, or nothing; what is paid and left is as in `WithdrawLaws` |
| `StabilityPoolContract.Contract.WithdrawETHGainToTrove` | packages/contracts/contracts/StabilityPool.sol:381-424 | the contract's writes are the model's step, or nothing; what is paid and left is as in `MoveGainLaws` |
| `Redistribution.StepKeepsValid` | packages/contracts/contracts/Dependencies/TroveManagerBase.sol:176-327 | every transaction keeps stakes and pools adding up, snapshots of the running totals in the past, and all pending collateral held |
| `Redistribution.InitialIsValid` | packages/contracts/contracts/Dependencies/TroveManagerBase.sol:312-327 | the empty system meets every invariant |
| `Redistribution.RedistributeKeepsValid` | packages/contracts/contracts/TroveManager.sol:887-932 | after the two truncating divisions, with the errors fed back, what all stakes can claim and the error carried out are still held |
| `Redistribution.ApplyPendingKeepsValid` | packages/contracts/contracts/Dependencies/TroveManagerBase.sol:208-242 | applying rewards moves them out of the default pool and keeps what is left held |
| `RedistributionSteps.ApplyPendingLaws` | packages/contracts/contracts/Dependencies/TroveManagerBase.sol:208-242 | applying rewards changes neither the Trove's current amounts nor what both pools hold together, and nothing for the others |
| `RedistributionSteps.ApplyPendingRevertsIff` | packages/contracts/contracts/Dependencies/TroveManagerBase.sol:208-274 | it reverts if and only if rewards are due and the pending debt exceeds what the default pool holds |
| `RedistributionSteps.OpenLaws` | packages/contracts/contracts/Dependencies/TroveManagerBase.sol:300-327 | when a Trove can be opened; it then has the given amounts and its new stake, pools and stakes grow by them, and nothing changes for the others |
| `RedistributionSteps.AdjustLaws` | packages/contracts/contracts/Dependencies/TroveManagerBase.sol:208-327 | the same of an adjustment; the pools change by the difference to the amounts before, and the debt is the given one except for a share that `_hasPendingRewards` overlooks |
| `RedistributionSteps.CloseLaws` | packages/contracts/contracts/Dependencies/TroveManagerBase.sol:276-298 | the same of a closure: the pools pay the amounts out, the stake is gone |
| `RedistributionSteps.SeizeAllLaws` | packages/contracts/contracts/TroveManager.sol:139-191 | seizing takes the current amounts and stakes of the victims, each once, out of the pools, closes them, and changes nothing for the others |
| `RedistributionSteps.LiquidateLaws` | packages/contracts/contracts/TroveManager.sol:887-960 | a liquidation seizes its victims so, passes on what per unit staked makes up collateral and debt with the errors carried in and out, and takes its snapshots from what it leaves |
| `RedistributionSafety.EthRewardsAreHeld` | packages/contracts/contracts/DefaultPool.sol:58-68 | over every run all pending collateral, and the carried error, is at most what the default pool holds |
| `RedistributionSafety.StepKeepsDebtHeldIff` | packages/contracts/contracts/Dependencies/TroveManagerBase.sol:208-255 | every transaction keeps all pending debt held, except exactly the adjustments that overclaim |
| `RedistributionSafety.DebtHeldIff` | packages/contracts/contracts/Dependencies/TroveManagerBase.sol:208-255 | all pending debt is held throughout a run if and only if none of its adjustments overclaims |
| `RedistributionSafety.DebtRewardsAreHeld` | packages/contracts/contracts/DefaultPool.sol:76-80 | then all rewards and the carried error are at most what the default pool holds, and neither applying nor seizing any of them reverts |
| `Redistribution.LagsIffShareLost` | packages/contracts/contracts/TroveManager.sol:887-932 | a redistribution leaves debt that `_hasPendingRewards` overlooks if and only if it gives a share of debt and none of collateral |
| `RedistributionSafety.AdjustKeepsDebtHeldIff` | packages/contracts/contracts/Dependencies/TroveManagerBase.sol:244-255 | an adjustment keeps all pending debt held unless the Trove has overlooked debt that its new stake raises by more than the slack, and only then not |
| `RedistributionSafety.StepKeepsUsableIff` | packages/contracts/contracts/TroveManager.sol:949-960 | the snapshots of a liquidation can be used for new stakes if and only if it leaves stakes, or no collateral; other transactions leave them alone |
| `RedistributionSafety.SnapshotsUsableIff` | packages/contracts/contracts/Dependencies/TroveManagerBase.sol:312-327 | the assertion on the snapshots holds throughout a run if and only if no liquidation of it leaves collateral without stakes |
| `RedistributionSafety.UnusableMeansUnstaked` | packages/contracts/contracts/Dependencies/TroveManagerBase.sol:312-327 | where it fails, no Trove has a stake |
| `RedistributionRuns.StakesCanVanish` | packages/contracts/contracts/Dependencies/TroveManagerBase.sol:312-327 | a run of ordinary amounts after which it fails for every Trove that is to be opened or adjusted |
| `RedistributionRuns.PendingDebtCanBeMissing` | packages/contracts/contracts/Dependencies/TroveManagerBase.sol:244-255 | a run after which a Trove's pending debt exceeds what the default pool holds, and liquidating it reverts |
| `RedistributionOrder.AmountsDrift` | packages/contracts/contracts/Dependencies/TroveManagerBase.sol:176-206 | however many redistributions there are, collateral and debt are short of exact shares by less than one unit |
| `RedistributionOrder.RunGapDrift` | packages/contracts/contracts/SortedTroves.sol:25-28 | over every run the gap between the ratios of two untouched Troves is that of exact shares to within a tolerance of their collateral and debt |
| `RedistributionOrder.ExactGapSplits` | packages/contracts/contracts/TroveManager.sol:887-932 | with exact shares the gap changes by the debt and the collateral passed on times what the stakes are out of proportion |
| `RedistributionOrder.OrderOverRun` | packages/contracts/contracts/SortedTroves.sol:25-28 | an exact gap of the tolerance or more keeps the order over every run, and one as large the other way reverses it |
| `RedistributionOrder.RunKeepsSorted` | packages/contracts/contracts/SortedTroves.sol:25-31 | a list of untouched Troves that are separated by the tolerance is sorted after every run without moving a node |
| `RedistributionOrder.FreshUntilLiquidation` | packages/contracts/contracts/Dependencies/TroveManagerBase.sol:300-327 | opening and adjusting leave stake and collateral in proportion up to one truncation, until the next liquidation |
| `RedistributionOrder.FreshOrderKept` | packages/contracts/contracts/SortedTroves.sol:25-28 | two such Troves stay in order over every run if their gap outweighs what one unit of stake takes on, times their amounts, and the tolerance |
| `RedistributionOrder.LiquidationKeepsOrder` | packages/contracts/contracts/SortedTroves.sol:25-28 | the same of one liquidation, from the amounts before it, what it passes on, the carried errors and the stakes left |
| `RedistributionOrder.RatioFollowsGap` | packages/contracts/contracts/Dependencies/LiquityMath.sol:92-100 | the truncated nominal ratios are ordered as the gaps say |
| `RedistributionOrder.NominalCRIs` | packages/contracts/contracts/Dependencies/LiquityMath.sol:92-100 | the nominal ratio is the greatest that the scaled collateral makes up of the debt, and infinite exactly without debt |
| `RedistributionRuns.OrderCanBeReversed` | packages/contracts/contracts/SortedTroves.sol:25-28 | a run whose one liquidation reverses the nominal ratios of two Troves that it does not touch |
| `RedistributionOrder.RatioFallsIff` | packages/contracts/contracts/SortedTroves.sol:25-26 | a liquidation lowers, and raises, the ratio of a Trove that it leaves if and only if the collateral taken on is worth less, or more, than the debt; both computed before it from what is passed on, the carried errors, the stakes left and the remainders pending |
| `RedistributionOrder.RatioOverRun` | packages/contracts/contracts/SortedTroves.sol:25-26 | over every run the ratio of an untouched Trove falls, or rises, if the gains per unit staked weigh more against it, or for it, than its collateral and debt |
| `RedistributionRuns.RatioCanRise` | packages/contracts/contracts/SortedTroves.sol:25-26 | a run whose liquidation raises the nominal ratio of the only Trove left |
| `RedistributionDrift.NewStakeAtRate` | packages/contracts/contracts/Dependencies/TroveManagerBase.sol:312-327 | a truncated stake brackets the collateral at the rate of the snapshots |
| `RedistributionDrift.ReachedIsInBand` | packages/contracts/contracts/Dependencies/TroveManagerBase.sol:312-327 | in every system that can be reached the collateral per unit staked of all Troves, and the rate of the snapshots where they can be used, is within one band |
| `RedistributionDust.SlackIsSmall` | packages/contracts/contracts/TroveManager.sol:887-932 | over every run what the default pool holds beyond all shares and the carried error is at most one unit for each Trove whose rewards were moved out |
| `RedistributionDust.RedistributeLeavesNothing` | packages/contracts/contracts/TroveManager.sol:887-932 | with the error fed back, a redistribution adds nothing to it |
| `RedistributionWidth.BandWidensLittle` | packages/contracts/contracts/TroveManager.sol:949-960 | relative to its height, a liquidation widens the band by at most one part for each Trove and each unit of dust, over all stakes |
| `RedistributionWidth.BandIsThin` | packages/contracts/contracts/TroveManager.sol:949-960 | over every run the relative width is at most the number of liquidations times that of Troves and rewards moved out, with the carried error, over the stakes that liquidations leave |
| `RedistributionDrift.OrderKeptInBand` | packages/contracts/contracts/SortedTroves.sol:25-28 | any two Troves that can be reached, whenever last recorded, stay in order over every run if their gap outweighs the slip of the band and the tolerance |
| `RedistributionWidth.OrderKeptAtRate` | packages/contracts/contracts/SortedTroves.sol:25-28 | the same with a slip that follows from the rate of the snapshots, the number of liquidations, what they left and the rewards moved out |
| `ExactRedistribution.StepKeepsValid` | packages/contracts/contracts/Dependencies/TroveManagerBase.sol:276-327 | over exact reals every transaction keeps all stakes at one rate of collateral |
| `ExactRedistribution.InitialIsValid` | packages/contracts/contracts/Dependencies/TroveManagerBase.sol:312-327 | the empty system, over exact reals, meets that invariant |
| `ExactRedistribution.RunKeepsOrder` | packages/contracts/contracts/SortedTroves.sol:25-28 | over exact reals two untouched Troves keep their order over every run |
| `MacroModel.LiquidateLaws` | packages/contracts/macroModel/macro_model.py:125-136 | exactly the troves below 110% are liquidated, and no debt is lost |
| `MacroModel.LiquidateKeepsTheRest` | packages/contracts/macroModel/macro_model.py:125-136 | the troves kept are exactly those at 110% or more, once each, in order and with their current ratio, and the liquidated ones exactly the others |
| `MacroModel.RiskyAtPrice` | packages/contracts/macroModel/macro_model.py:125-132 | those at risk are the ones whose collateral is worth less than 110% of the debt at the new price, and the recorded ratio is that of value and debt |
| `MacroModel.CloseKeepsTheRest` | packages/contracts/macroModel/macro_model.py:169-172 | the troves left are exactly those whose index was not drawn, once each and in order, and total debt falls by that of the others |
| `MacroModel.OutsideBandIff` | packages/contracts/macroModel/macro_model.py:186-199 | a trove is outside the band if and only if its ratio is more than one inattention below, or two above, its target |
| `MacroModel.AdjustTroves` | packages/contracts/macroModel/macro_model.py:180-203 | troves outside the band are put exactly on target, by debt or by collateral as their draw compares with the ratio, the others are untouched, all stay covered, and the fee is that on all debt added where a ratio was high |
| `MacroModel.OpenTroves` | packages/contracts/macroModel/macro_model.py:222-240 | new troves have the drawn quantity, ratio and inattention and the debt that puts them on target, old ones are untouched, and the fee is on the debt added |
| `MacroModel.DropRiskiest` | packages/contracts/macroModel/macro_model.py:319-328 | the redemption loop drops the longest prefix that the pool pays for, and runs out of the table if and only if the pool is at least all debt |
| `MacroModel.RedeemedIs` | packages/contracts/macroModel/macro_model.py:329-334 | the partially redeemed trove loses as much collateral by value as debt, its ratio is recorded, and the rest of it stays |
| `MacroModel.Redeem` | packages/contracts/macroModel/macro_model.py:318-334 | total debt falls by exactly the pool, the riskiest go first, the last one keeps positive debt, and all stay at 110% if and only if the pool is not negative or the riskiest can bear the debt that it adds |
| `MacroModel.DemandAndPrice` | packages/contracts/macroModel/macro_model.py:273-304 | the price is above a bound exactly if supply is below the demand at the bound, that is below the liquidity pool times the power of the relative price, and dually |
| `MacroModel.CapIsShare` | packages/contracts/macroModel/macro_model.py:299-313 | the most that is redeemed is the drawn part of the supply outside the stability pool |
| `MacroModel.GrownIsFactor` | packages/contracts/macroModel/macro_model.py:268-273 | the liquidity pool that the price is computed with is the previous one times the drawn growth |
| `MacroModel.StabilisePrice` | packages/contracts/macroModel/macro_model.py:261-342 | ceiling, floor and neither: new supply, price, pool and redeemed troves in each; only with a negative stability pool does redemption run out of troves, and only with a negative redemption ratio can a trove fall below 110% |
| `MacroModel.UpdateTroves` | packages/contracts/macroModel/macro_model.py:383-417 | the troves that stay are those at 110% at the new price and not drawn, each once and in order; they are adjusted and new ones opened as stated above; all are at 110% or more |
| `MacroModel.Round` | packages/contracts/macroModel/macro_model.py:383-456 | one round: the troves updated at the new price, then the price stabilised; every trove at 110% or more unless the redemption ratio is negative, and the price above 0 and at most 1.11 unless the liquidity pool is negative or redemption runs out |
| `MacroModel.Simulate` | packages/contracts/macroModel/macro_model.py:383-456 | whatever is drawn, the stages returned follow from each other by rounds, each has a ZUSD price above 0 and at most 1.11 and, unless its redemption ratio is negative, all troves at 110% or more; and there are fewer than draws only if the next round leaves a negative liquidity pool or runs out of troves |

## Left out

- `prettify`, `shorten` and `Percent`: display formatting on top of the printers.
- Numbers, as opposed to strings, as input of `Decimal.from`: JavaScript number formatting is not part of this model.
- The extra state of store subclasses, logging, and updates made by a listener while it is being notified.
- The connection of the store to a provider, and the 30 seconds of the timer.
- ZERO issuance in the Stability Pool (the sums G, front ends and kickback rates).
- 256-bit overflow: amounts are unbounded, so no operation reverts for size.
- Redemption and the choice of Troves to liquidate in the Trove manager, and the borrower operations' own checks.
- ExactRedistribution.RunKeepsOrder: over exact reals only; the contract's arithmetic is that of `Redistribution.dfy`, where the order is kept under a gap.
- ExactRedistribution.StepKeepsValid: over exact reals only, as the reason for the order; the truncating counterpart is the band of `ReachedIsInBand` and its width.
- OrderOverRun: leaves open what happens to an exact gap smaller than the tolerance, where truncation can decide either way.
- Redistribution: the storage of the Trove manager and its pools is a value, a transaction is a step, and the split of a liquidated Trove between compensation, Stability Pool and the others is an input of the step; the requirement that one Trove remains is left out.
- `StabilityDeposit` and `ZEROStake` differences: linear arithmetic without surprises.
- Ratios in SortedTroves: the manager's nominal ratios are an input, constant during one call.
- StabilisePrice: asks for a positive liquidity pool in the previous round, as every completed round leaves one, and for a positive growth of it; a shock that makes it negative, and the price not a number from then on, is not modelled.
- Redeem: pandas index labels and chained assignment; rows are a sequence.
- Returns of the stability pool, the ZERO market and the record of each round in the macro model.
- Floating-point rounding in the macro model and in the exact references: they are over the reals.
- Gas, transaction sending, deployment, user interface and hardware wallets.
