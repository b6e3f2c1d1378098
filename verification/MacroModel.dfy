/**
 One simulation of the macro economic model: each round liquidates, closes,
 adjusts and opens troves and then lets arbitrageurs stabilise the price.

 Floats are reals.  Random draws are inputs, and so are the order in which
 sorting leaves ties and the two power functions of the ZUSD demand curve.
 */
module MacroModel {

  const MINIMUM_RATIO := 1.1
  const RATE_ISSUANCE := 0.01
  const RATE_REDEMPTION := 0.01
  const CEILING: real := 1.1 + RATE_ISSUANCE
  const FLOOR: real := 1.0 - RATE_REDEMPTION

  /** A row of the table of troves. */
  datatype Row = Row(
    etherPrice: real, etherQuantity: real, crInitial: real, supply: real, inattention: real, crCurrent: real)

  /** What holds of a trove throughout. */
  predicate SoundRow(r: Row) {
    r.supply > 0.0 && r.crInitial >= MINIMUM_RATIO && r.inattention > 0.0
  }

  predicate Sound(rows: seq<Row>) {
    forall r :: r in rows ==> SoundRow(r)
  }

  /** Valued at the price, the collateral is 110% of the debt or more. */
  predicate Covers(r: Row, price: real) {
    r.etherPrice == price && price * r.etherQuantity >= MINIMUM_RATIO * r.supply
  }

  predicate AboveFloor(rows: seq<Row>, price: real) {
    forall r :: r in rows ==> Covers(r, price)
  }

  /** The recorded ratio is the actual one. */
  predicate RecordedRow(r: Row) {
    r.crCurrent * r.supply == r.etherPrice * r.etherQuantity
  }

  predicate Recorded(rows: seq<Row>) {
    forall r :: r in rows ==> RecordedRow(r)
  }

  function TotalSupply(rows: seq<Row>): real {
    if rows == [] then 0.0 else TotalSupply(rows[..|rows| - 1]) + rows[|rows| - 1].supply
  }

  lemma {:induction false} TotalOfConcat(a: seq<Row>, b: seq<Row>)
    ensures TotalSupply(a + b) == TotalSupply(a) + TotalSupply(b)
  {
    if b == [] {
      assert a + b == a;
    } else {
      assert (a + b)[..|a + b| - 1] == a + b[..|b| - 1];
      TotalOfConcat(a, b[..|b| - 1]);
    }
  }

  lemma {:induction false} TotalPositive(rows: seq<Row>)
    requires Sound(rows)
    ensures TotalSupply(rows) >= 0.0
    ensures rows != [] ==> TotalSupply(rows) > 0.0
  {
    if rows != [] {
      TotalPositive(rows[..|rows| - 1]);
      assert SoundRow(rows[|rows| - 1]);
    }
  }

  lemma QuotientLaws(x: real, s: real)
    requires s > 0.0
    ensures (x / s) * s == x
    ensures x / s >= MINIMUM_RATIO ==> x >= MINIMUM_RATIO * s
    ensures x > 0.0 ==> x / s > 0.0
  {
  }

  // ----- Liquidating and closing

  function Priced(rows: seq<Row>, price: real): (r: seq<Row>)
    ensures |r| == |rows|
    ensures forall i :: 0 <= i < |r| ==> r[i] == rows[i].(etherPrice := price)
  {
    seq(|rows|, i requires 0 <= i < |rows| => rows[i].(etherPrice := price))
  }

  lemma PricedLaws(rows: seq<Row>, price: real)
    requires Sound(rows)
    ensures Sound(Priced(rows, price))
    ensures forall r :: r in Priced(rows, price) ==> r.etherPrice == price
  {
    forall i | 0 <= i < |rows|
      ensures SoundRow(Priced(rows, price)[i])
    {
      assert SoundRow(rows[i]);
    }
  }

  /** The row with its current ratio. */
  function WithRatio(r: Row): Row
    requires r.supply != 0.0
  {
    r.(crCurrent := r.etherPrice * r.etherQuantity / r.supply)
  }

  /** `after` has the rows at the given indices, in this order. */
  predicate Selects(idx: seq<nat>, rows: seq<Row>, after: seq<Row>) {
    && |after| == |idx|
    && (forall j, k :: 0 <= j < k < |idx| ==> idx[j] < idx[k])
    && forall j :: 0 <= j < |idx| ==> idx[j] < |rows| && after[j] == rows[idx[j]]
  }

  /** `after` has, once each and in order, exactly the rows at the indices that are not dropped. */
  ghost predicate KeepsAllBut(rows: seq<Row>, drops: set<nat>, after: seq<Row>) {
    exists idx: seq<nat> ::
      Selects(idx, rows, after) && forall k: nat :: k < |rows| ==> (k in idx <==> k !in drops)
  }

  /** The debt of the rows at the given indices. */
  function DebtAt(rows: seq<Row>, indices: set<nat>): real {
    if rows == [] then 0.0
    else
      var n := |rows| - 1;
      DebtAt(rows[..n], indices) + if n in indices then rows[n].supply else 0.0
  }

  /** One row more, which is kept exactly if its index is not dropped. */
  lemma KeepsOneMore(rows: seq<Row>, drops: set<nat>, after: seq<Row>)
    requires rows != [] && KeepsAllBut(rows[..|rows| - 1], drops, after)
    ensures var n := |rows| - 1; KeepsAllBut(rows, drops, after + if n in drops then [] else [rows[n]])
  {
    var n := |rows| - 1;
    var init := rows[..n];
    var idx: seq<nat> :| Selects(idx, init, after) && forall k: nat :: k < |init| ==> (k in idx <==> k !in drops);
    assert forall j :: 0 <= j < |idx| ==> idx[j] < n && init[idx[j]] == rows[idx[j]];
    if n in drops {
      assert after + [] == after;
      assert Selects(idx, rows, after);
      assert n !in idx;
    } else {
      var more := idx + [n];
      assert Selects(more, rows, after + [rows[n]]);
      assert forall k: nat :: k < |rows| ==> (k in more <==> k !in drops);
    }
  }

  datatype Liquidation = Liquidation(kept: seq<Row>, liquidated: seq<Row>)

  function Liquidate(rows: seq<Row>): Liquidation
    requires Sound(rows)
  {
    if rows == [] then Liquidation([], [])
    else
      assert SoundRow(rows[|rows| - 1]);
      var l := Liquidate(rows[..|rows| - 1]);
      var last := WithRatio(rows[|rows| - 1]);
      if last.crCurrent < MINIMUM_RATIO then l.(liquidated := l.liquidated + [last]) else l.(kept := l.kept + [last])
  }

  /** Liquidation tells apart any two properties that the ratio tells apart, and loses no debt. */
  lemma {:induction false} LiquidateSplits(rows: seq<Row>, keep: Row -> bool, drop: Row -> bool)
    requires Sound(rows)
    requires forall r :: r in rows ==>
               if WithRatio(r).crCurrent < MINIMUM_RATIO then drop(WithRatio(r)) else keep(WithRatio(r))
    ensures forall r :: r in Liquidate(rows).kept ==> keep(r)
    ensures forall r :: r in Liquidate(rows).liquidated ==> drop(r)
    ensures TotalSupply(rows) == TotalSupply(Liquidate(rows).kept) + TotalSupply(Liquidate(rows).liquidated)
  {
    if rows != [] {
      var l, r := Liquidate(rows[..|rows| - 1]), rows[|rows| - 1];
      LiquidateSplits(rows[..|rows| - 1], keep, drop);
      assert r in rows;
      TotalOfConcat(l.kept, [WithRatio(r)]);
      TotalOfConcat(l.liquidated, [WithRatio(r)]);
      assert TotalSupply([WithRatio(r)]) == r.supply;
    }
  }

  /** The table with all current ratios. */
  function WithRatios(rows: seq<Row>): (r: seq<Row>)
    requires Sound(rows)
    ensures |r| == |rows|
    ensures forall i :: 0 <= i < |r| ==> SoundRow(rows[i]) && r[i] == WithRatio(rows[i])
  {
    seq(|rows|, i requires 0 <= i < |rows| => assert rows[i] in rows; WithRatio(rows[i]))
  }

  /** The indices of the troves whose current ratio is below 110%. */
  function Risky(rows: seq<Row>): set<nat>
    requires Sound(rows)
  {
    set k: nat | k < |rows| && WithRatios(rows)[k].crCurrent < MINIMUM_RATIO
  }

  lemma PrefixKeeps(rows: seq<Row>, drops: set<nat>, drops': set<nat>, after: seq<Row>)
    requires KeepsAllBut(rows, drops, after) && forall k: nat :: k < |rows| ==> (k in drops <==> k in drops')
    ensures KeepsAllBut(rows, drops', after)
  {
    var idx: seq<nat> :| Selects(idx, rows, after) && forall k: nat :: k < |rows| ==> (k in idx <==> k !in drops);
    assert forall k: nat :: k < |rows| ==> (k in idx <==> k !in drops');
  }

  /** The indices of the others. */
  function Safe(rows: seq<Row>): set<nat>
    requires Sound(rows)
  {
    set k: nat | k < |rows| && WithRatios(rows)[k].crCurrent >= MINIMUM_RATIO
  }

  /** At the new price, the troves at risk are those whose collateral is worth less than 110% of their debt. */
  lemma RiskyAtPrice(rows: seq<Row>, price: real, k: nat)
    requires Sound(rows) && k < |rows|
    ensures Sound(Priced(rows, price))
    ensures k in Risky(Priced(rows, price)) <==> price * rows[k].etherQuantity < MINIMUM_RATIO * rows[k].supply
    ensures k in Safe(Priced(rows, price)) <==> k !in Risky(Priced(rows, price))
    ensures var r := WithRatios(Priced(rows, price))[k];
            r == rows[k].(etherPrice := price, crCurrent := r.crCurrent)
            && r.crCurrent * rows[k].supply == price * rows[k].etherQuantity
  {
    PricedLaws(rows, price);
    assert SoundRow(rows[k]);
    RatioDecides(Priced(rows, price)[k], price);
    RatioIsRecorded(Priced(rows, price)[k]);
  }

  lemma RatioIsRecorded(r: Row)
    requires SoundRow(r)
    ensures RecordedRow(WithRatio(r))
  {
  }

  /**
   Liquidation keeps exactly the troves at 110% or more, once each, in order
   and with their current ratio, and liquidates exactly the others likewise.
   */
  lemma {:induction false} LiquidateKeepsTheRest(rows: seq<Row>)
    requires Sound(rows)
    ensures KeepsAllBut(WithRatios(rows), Risky(rows), Liquidate(rows).kept)
    ensures KeepsAllBut(WithRatios(rows), Safe(rows), Liquidate(rows).liquidated)
  {
    if rows == [] {
      assert Selects([], WithRatios(rows), []);
    } else {
      var n := |rows| - 1;
      LiquidateKeepsTheRest(rows[..n]);
      assert WithRatios(rows)[..n] == WithRatios(rows[..n]);
      PrefixKeeps(WithRatios(rows)[..n], Risky(rows[..n]), Risky(rows), Liquidate(rows[..n]).kept);
      KeepsOneMore(WithRatios(rows), Risky(rows), Liquidate(rows[..n]).kept);
      assert Liquidate(rows[..n]).kept + [] == Liquidate(rows[..n]).kept;
      PrefixKeeps(WithRatios(rows)[..n], Safe(rows[..n]), Safe(rows), Liquidate(rows[..n]).liquidated);
      KeepsOneMore(WithRatios(rows), Safe(rows), Liquidate(rows[..n]).liquidated);
      assert Liquidate(rows[..n]).liquidated + [] == Liquidate(rows[..n]).liquidated;
    }
  }

  predicate Good(r: Row, price: real) {
    SoundRow(r) && Covers(r, price) && RecordedRow(r)
  }

  lemma RatioDecides(r: Row, price: real)
    requires SoundRow(r) && r.etherPrice == price
    ensures if WithRatio(r).crCurrent < MINIMUM_RATIO then !Covers(WithRatio(r), price) else Good(WithRatio(r), price)
  {
  }

  /** Exactly the troves below 110% are liquidated, and no debt is lost. */
  lemma LiquidateLaws(rows: seq<Row>, price: real)
    requires Sound(rows) && forall r :: r in rows ==> r.etherPrice == price
    ensures forall r :: r in Liquidate(rows).kept ==> Good(r, price)
    ensures forall r :: r in Liquidate(rows).liquidated ==> !Covers(r, price)
    ensures TotalSupply(rows) == TotalSupply(Liquidate(rows).kept) + TotalSupply(Liquidate(rows).liquidated)
  {
    forall r | r in rows
      ensures if WithRatio(r).crCurrent < MINIMUM_RATIO then !Covers(WithRatio(r), price) else Good(WithRatio(r), price)
    {
      RatioDecides(r, price);
    }
    LiquidateSplits(rows, r => Good(r, price), r => !Covers(r, price));
  }

  /** The rows whose index was not drawn. */
  function Close(rows: seq<Row>, drops: set<nat>): seq<Row> {
    if rows == [] then []
    else
      var n := |rows| - 1;
      Close(rows[..n], drops) + if n in drops then [] else [rows[n]]
  }

  /** Closing keeps every row whose index was not drawn, once and in order, and takes away the debt of the others. */
  lemma {:induction false} CloseKeepsTheRest(rows: seq<Row>, drops: set<nat>)
    ensures KeepsAllBut(rows, drops, Close(rows, drops))
    ensures TotalSupply(Close(rows, drops)) == TotalSupply(rows) - DebtAt(rows, drops)
  {
    if rows == [] {
      assert Selects([], rows, []);
    } else {
      var n := |rows| - 1;
      CloseKeepsTheRest(rows[..n], drops);
      KeepsOneMore(rows, drops, Close(rows[..n], drops));
      TotalOfConcat(Close(rows[..n], drops), if n in drops then [] else [rows[n]]);
      assert TotalSupply([rows[n]]) == rows[n].supply;
    }
  }

  lemma KeptAreRows(rows: seq<Row>, drops: set<nat>, after: seq<Row>)
    requires KeepsAllBut(rows, drops, after)
    ensures forall r :: r in after ==> r in rows
  {
  }

  lemma CloseKeepsGood(rows: seq<Row>, drops: set<nat>, price: real)
    requires forall r :: r in rows ==> Good(r, price)
    ensures var kept := Close(rows, drops); Sound(kept) && AboveFloor(kept, price) && Recorded(kept)
  {
    CloseKeepsTheRest(rows, drops);
    KeptAreRows(rows, drops, Close(rows, drops));
  }

  // ----- Adjusting

  /** How far the recorded ratio is from the target, in units of inattention. */
  function Check(r: Row): real
    requires SoundRow(r)
  {
    (r.crCurrent - r.crInitial) / Unit(r)
  }

  function Unit(r: Row): (u: real)
    requires SoundRow(r)
    ensures u > 0.0
  {
    r.crInitial * r.inattention
  }

  lemma CheckAboveMeansAboveTarget(r: Row)
    requires SoundRow(r)
    ensures Check(r) > 2.0 ==> r.crCurrent > r.crInitial
  {
  }

  lemma CheckBelowMeansBelowTarget(r: Row)
    requires SoundRow(r)
    ensures Check(r) < -1.0 ==> r.crCurrent < r.crInitial
  {
    QuotientLaws(r.crCurrent - r.crInitial, Unit(r));
    NegativeProduct(Check(r), Unit(r));
  }

  lemma NegativeProduct(x: real, u: real)
    requires u > 0.0
    ensures x < 0.0 ==> x * u < 0.0
  {
  }

  lemma SignOfQuotient(x: real, u: real)
    requires u > 0.0
    ensures x > 0.0 ==> x * u > 0.0
  {
  }

  /** A row that meets its target ratio exactly. */
  predicate OnTarget(r: Row) {
    r.etherPrice * r.etherQuantity == r.crInitial * r.supply
  }

  lemma OnTargetCovers(r: Row, price: real)
    requires SoundRow(r) && OnTarget(r) && r.etherPrice == price
    ensures Covers(r, price)
  {
  }

  /** The debt that meets the target ratio: positive, and more than now if the ratio is above target. */
  lemma TargetSupply(r: Row, price: real)
    requires SoundRow(r) && Covers(r, price)
    ensures var s := r.etherPrice * r.etherQuantity / r.crInitial;
            && s > 0.0 && s * r.crInitial == r.etherPrice * r.etherQuantity
            && (RecordedRow(r) && r.crCurrent > r.crInitial ==> s > r.supply)
            && (RecordedRow(r) && r.crCurrent < r.crInitial ==> s < r.supply)
  {
    var value := r.etherPrice * r.etherQuantity;
    QuotientLaws(value, r.crInitial);
    if RecordedRow(r) && r.crCurrent > r.crInitial {
      MoreWhenAboveTarget(value / r.crInitial, r.crInitial, r.crCurrent, r.supply);
    }
    if RecordedRow(r) && r.crCurrent < r.crInitial {
      LessWhenBelowTarget(value / r.crInitial, r.crInitial, r.crCurrent, r.supply);
    }
  }

  lemma MoreWhenAboveTarget(s: real, target: real, current: real, supply: real)
    requires supply > 0.0 && current > target > 0.0 && s * target == current * supply
    ensures s > supply
  {
  }

  lemma LessWhenBelowTarget(s: real, target: real, current: real, supply: real)
    requires supply > 0.0 && target > current && target > 0.0 && s * target == current * supply
    ensures s < supply
  {
    assert (target - current) * supply > 0.0;
    assert (supply - s) * target > 0.0;
    ScaledCompare(s, supply, target);
  }

  predicate OutsideBand(r: Row)
    requires SoundRow(r)
  {
    Check(r) < -1.0 || Check(r) > 2.0
  }

  /** The band runs from one inattention below the target to two above it. */
  lemma OutsideBandIff(r: Row)
    requires SoundRow(r)
    ensures OutsideBand(r) <==>
              || r.crCurrent < r.crInitial * (1.0 - r.inattention)
              || r.crCurrent > r.crInitial * (1.0 + 2.0 * r.inattention)
  {
    BandEnds(r.crInitial, r.inattention);
    QuotientAgainst(r.crCurrent - r.crInitial, -1.0, Unit(r));
    QuotientAgainst(r.crCurrent - r.crInitial, 2.0, Unit(r));
  }

  lemma BandEnds(target: real, inattention: real)
    ensures target * (1.0 - inattention) == target - target * inattention
    ensures target * (1.0 + 2.0 * inattention) == target + 2.0 * (target * inattention)
  {
  }

  lemma QuotientAgainst(x: real, bound: real, u: real)
    requires u > 0.0
    ensures x / u < bound <==> x < bound * u
    ensures x / u > bound <==> x > bound * u
  {
    QuotientLaws(x, u);
    ScaledCompare(x / u, bound, u);
  }

  /** A row outside the band is put on target by changing its debt or its collateral, as drawn; others stay. */
  predicate IsAdjustment(before: Row, after: Row, byDebt: bool) {
    && SoundRow(before)
    && if !OutsideBand(before) then after == before
       else OnTarget(after)
            && after == if byDebt then before.(supply := after.supply)
                        else before.(etherQuantity := after.etherQuantity)
  }

  /** The fee is charged on debt that is added. */
  function AdjustmentFee(before: Row, after: Row, byDebt: bool): real
    requires SoundRow(before)
  {
    if byDebt && Check(before) > 2.0 then RATE_ISSUANCE * (after.supply - before.supply) else 0.0
  }

  lemma DebtOnTarget(r: Row, supply: real, price: real)
    requires SoundRow(r) && Covers(r, price) && supply > 0.0 && supply * r.crInitial == r.etherPrice * r.etherQuantity
    ensures var a := r.(supply := supply); OnTarget(a) && SoundRow(a) && Covers(a, price)
  {
    OnTargetCovers(r.(supply := supply), price);
  }

  lemma CollateralOnTarget(r: Row, price: real)
    requires price > 0.0 && SoundRow(r) && Covers(r, price)
    ensures var a := r.(etherQuantity := r.crInitial * r.supply / r.etherPrice);
            OnTarget(a) && SoundRow(a) && Covers(a, price)
  {
    QuotientLaws(r.crInitial * r.supply, r.etherPrice);
    OnTargetCovers(r.(etherQuantity := r.crInitial * r.supply / r.etherPrice), price);
  }

  method AdjustRow(r: Row, byDebt: bool, price: real) returns (a: Row, fee: real)
    requires price > 0.0 && SoundRow(r) && Covers(r, price)
    requires RecordedRow(r)
    ensures SoundRow(a) && Covers(a, price) && IsAdjustment(r, a, byDebt)
    ensures fee == AdjustmentFee(r, a, byDebt) >= 0.0 && (fee > 0.0 <==> a.supply > r.supply)
  {
    a, fee := r, 0.0;
    var check := Check(r);
    if byDebt {
      TargetSupply(r, price);
      var supply := r.etherPrice * r.etherQuantity / r.crInitial;
      DebtOnTarget(r, supply, price);
      if check < -1.0 {
        CheckBelowMeansBelowTarget(r);
        a := a.(supply := supply);
      }
      if check > 2.0 {
        CheckAboveMeansAboveTarget(r);
        fee := RATE_ISSUANCE * (supply - r.supply);
        a := a.(supply := supply);
      }
    }
    if !byDebt && (check < -1.0 || check > 2.0) {
      CollateralOnTarget(r, price);
      a := a.(etherQuantity := r.crInitial * r.supply / r.etherPrice);
    }
  }

  /** Row by row; whether debt or collateral changes is decided by comparing the row's draw with the ratio. */
  ghost predicate Adjusted(before: seq<Row>, after: seq<Row>, ratio: real, p: nat -> real) {
    |after| == |before| && forall i :: 0 <= i < |before| ==> IsAdjustment(before[i], after[i], p(i) >= ratio)
  }

  /** The fees of the first k rows. */
  function TotalFee(before: seq<Row>, after: seq<Row>, ratio: real, p: nat -> real, k: nat): real
    requires k <= |before| == |after| && Sound(before)
  {
    if k == 0 then 0.0
    else
      assert SoundRow(before[k - 1]);
      TotalFee(before, after, ratio, p, k - 1) + AdjustmentFee(before[k - 1], after[k - 1], p(k - 1) >= ratio)
  }

  lemma {:induction false} TotalFeeOfPrefix(rows: seq<Row>, a: seq<Row>, b: seq<Row>, ratio: real, p: nat -> real,
                                            k: nat)
    requires k <= |rows| == |a| == |b| && Sound(rows) && a[..k] == b[..k]
    ensures TotalFee(rows, a, ratio, p, k) == TotalFee(rows, b, ratio, p, k)
  {
    if k > 0 {
      assert a[..k - 1] == a[..k][..k - 1] == b[..k - 1];
      assert a[k - 1] == a[..k][k - 1] == b[k - 1];
      TotalFeeOfPrefix(rows, a, b, ratio, p, k - 1);
    }
  }

  method AdjustTroves(rows: seq<Row>, ratio: real, p: nat -> real, price: real)
    returns (adjusted: seq<Row>, issuance: real)
    requires price > 0.0 && Sound(rows) && AboveFloor(rows, price) && Recorded(rows)
    ensures Sound(adjusted) && AboveFloor(adjusted, price)
    ensures Adjusted(rows, adjusted, ratio, p)
    ensures issuance == TotalFee(rows, adjusted, ratio, p, |rows|) >= 0.0
  {
    adjusted, issuance := rows, 0.0;
    for i := 0 to |rows|
      invariant |adjusted| == |rows| && Sound(adjusted) && AboveFloor(adjusted, price)
      invariant forall j :: i <= j < |rows| ==> adjusted[j] == rows[j]
      invariant forall j :: 0 <= j < i ==> IsAdjustment(rows[j], adjusted[j], p(j) >= ratio)
      invariant issuance == TotalFee(rows, adjusted, ratio, p, i) >= 0.0
    {
      var a, fee := AdjustRow(rows[i], p(i) >= ratio, price);
      TotalFeeOfPrefix(rows, adjusted, adjusted[i := a], ratio, p, i);
      adjusted, issuance := adjusted[i := a], issuance + fee;
    }
  }

  // ----- Opening

  /** The draws for a new trove. */
  datatype Opening = Opening(crRatio: real, quantity: real, inattention: real)

  predicate PossibleOpening(o: Opening) {
    o.crRatio >= MINIMUM_RATIO && o.quantity > 0.0 && o.inattention > 0.0
  }

  /** The row that the draws stand for: the drawn collateral, and as much debt as the drawn ratio allows. */
  predicate IsOpening(o: Opening, row: Row, price: real) {
    && row.etherPrice == price && row.etherQuantity == o.quantity && row.inattention == o.inattention
    && row.crInitial == row.crCurrent == o.crRatio && OnTarget(row)
  }

  ghost predicate OpenedAfter(rows: seq<Row>, openings: seq<Opening>, price: real, after: seq<Row>) {
    && rows <= after && |after| == |rows| + |openings|
    && forall i :: 0 <= i < |openings| ==> IsOpening(openings[i], after[|rows| + i], price)
  }

  method OpenOne(o: Opening, price: real) returns (row: Row)
    requires price > 0.0 && PossibleOpening(o)
    ensures IsOpening(o, row, price) && SoundRow(row) && Covers(row, price)
  {
    var supply := price * o.quantity / o.crRatio;
    SignOfQuotient(price, o.quantity);
    QuotientLaws(price * o.quantity, o.crRatio);
    row := Row(price, o.quantity, o.crRatio, supply, o.inattention, o.crRatio);
    OnTargetCovers(row, price);
  }

  lemma OneMoreOpened(opens: (Opening, Row, real) -> bool, rows: seq<Row>, openings: seq<Opening>, price: real,
                      after: seq<Row>, row: Row, i: nat)
    requires i < |openings| && rows <= after && |after| == |rows| + i && opens(openings[i], row, price)
    requires forall j :: 0 <= j < i ==> opens(openings[j], after[|rows| + j], price)
    ensures rows <= after + [row]
    ensures forall j :: 0 <= j < i + 1 ==> opens(openings[j], (after + [row])[|rows| + j], price)
  {
  }

  method OpenTroves(rows: seq<Row>, openings: seq<Opening>, price: real) returns (after: seq<Row>, issuance: real)
    requires price > 0.0 && Sound(rows) && AboveFloor(rows, price)
    requires forall i :: 0 <= i < |openings| ==> PossibleOpening(openings[i])
    ensures Sound(after) && AboveFloor(after, price)
    ensures OpenedAfter(rows, openings, price, after)
    ensures issuance == RATE_ISSUANCE * (TotalSupply(after) - TotalSupply(rows))
  {
    after, issuance := rows, 0.0;
    for i := 0 to |openings|
      invariant Sound(after) && AboveFloor(after, price)
      invariant rows <= after && |after| == |rows| + i
      invariant forall j :: 0 <= j < i ==> IsOpening(openings[j], after[|rows| + j], price)
      invariant issuance == RATE_ISSUANCE * (TotalSupply(after) - TotalSupply(rows))
    {
      var row := OpenOne(openings[i], price);
      issuance := issuance + RATE_ISSUANCE * row.supply;
      TotalOfOneMore(after, row);
      OneMoreOpened(IsOpening, rows, openings, price, after, row, i);
      after := after + [row];
    }
  }

  lemma TotalOfOneMore(rows: seq<Row>, row: Row)
    ensures TotalSupply(rows + [row]) == TotalSupply(rows) + row.supply
  {
    assert (rows + [row])[..|rows|] == rows;
  }

  // ----- Redeeming

  predicate SortedByRatio(rows: seq<Row>) {
    forall i, j :: 0 <= i < j < |rows| ==> rows[i].crCurrent <= rows[j].crCurrent
  }

  predicate IsSortOf(order: seq<Row>, rows: seq<Row>) {
    multiset(order) == multiset(rows) && SortedByRatio(order)
  }

  /** The partially redeemed trove. */
  function Redeemed(r: Row, residual: real, price: real): Row
    requires price > 0.0 && r.supply > residual
  {
    var left := r.(supply := r.supply - residual, etherQuantity := r.etherQuantity - residual / price);
    left.(crCurrent := price * left.etherQuantity / left.supply)
  }

  /** As much collateral is taken, by value, as debt, and the ratio is recorded. */
  lemma RedeemedIs(r: Row, residual: real, price: real)
    requires price > 0.0 && r.supply > residual && r.etherPrice == price
    ensures var after := Redeemed(r, residual, price);
            && after.supply == r.supply - residual
            && price * after.etherQuantity == price * r.etherQuantity - residual
            && RecordedRow(after)
            && after == r.(supply := after.supply, etherQuantity := after.etherQuantity, crCurrent := after.crCurrent)
  {
    var q := residual / price;
    assert price * q == residual;
    assert price * (r.etherQuantity - q) == price * r.etherQuantity - residual;
    QuotientLaws(price * (r.etherQuantity - q), r.supply - residual);
  }

  /** What the collateral is worth beyond 110% of the debt is a tenth of the debt added, or more. */
  predicate StaysCovered(r: Row, added: real, price: real) {
    price * r.etherQuantity - MINIMUM_RATIO * r.supply >= (MINIMUM_RATIO - 1.0) * added
  }

  /** Redeeming keeps a trove covered; redeeming a negative amount, which adds debt, only where there is enough. */
  lemma RedeemedCovers(r: Row, residual: real, price: real)
    requires price > 0.0 && r.supply > residual && SoundRow(r) && Covers(r, price)
    ensures SoundRow(Redeemed(r, residual, price))
    ensures Covers(Redeemed(r, residual, price), price) <==> StaysCovered(r, -residual, price)
    ensures residual >= 0.0 ==> StaysCovered(r, -residual, price)
  {
    var q := residual / price;
    assert price * q == residual;
    assert price * (r.etherQuantity - q) == price * r.etherQuantity - residual;
  }

  /** Redeeming from the n riskiest troves by recorded ratio, and in part, at the ether price, from the next. */
  ghost predicate RedeemedFrom(order: seq<Row>, pool: real, price: real, after: seq<Row>, n: nat) {
    && price > 0.0 && n < |order| && SortedByRatio(order)
    && (n > 0 ==> TotalSupply(order[..n]) <= pool)
    && pool < TotalSupply(order[..n + 1]) == TotalSupply(order[..n]) + order[n].supply
    && after == [Redeemed(order[n], pool - TotalSupply(order[..n]), price)] + order[n + 1..]
    && TotalSupply(after) == TotalSupply(order) - pool
  }

  /** There are troves, and more debt than is to be redeemed. */
  predicate Redeemable(order: seq<Row>, pool: real) {
    order != [] && pool < TotalSupply(order)
  }

  lemma TotalOfPrefix(rows: seq<Row>, n: nat)
    requires n < |rows|
    ensures TotalSupply(rows[..n + 1]) == TotalSupply(rows[..n]) + rows[n].supply
    ensures TotalSupply(rows[..0]) == 0.0
  {
    assert rows[..n + 1][..n] == rows[..n];
  }

  lemma PrefixIsLess(rows: seq<Row>, n: nat)
    requires Sound(rows) && n <= |rows|
    ensures TotalSupply(rows[..n]) <= TotalSupply(rows)
  {
    assert rows[..n] + rows[n..] == rows;
    TotalOfConcat(rows[..n], rows[n..]);
    TotalPositive(rows[n..]);
  }

  /** Drops whole troves, riskiest first, while the pool allows; fails if and only if it runs out of them. */
  method DropRiskiest(order: seq<Row>, pool: real) returns (ok: bool, rows: seq<Row>, redempted: real, n: nat)
    requires Sound(order)
    ensures ok <==> Redeemable(order, pool)
    ensures ok ==> n < |order| && rows == order[n..] && redempted == TotalSupply(order[..n])
    ensures ok ==> (n > 0 ==> redempted <= pool) && pool < TotalSupply(order[..n + 1]) == redempted + rows[0].supply
  {
    rows, n, redempted := order, 0, 0.0;
    if rows == [] {
      return false, rows, redempted, n;
    }
    var working := rows[0].supply;
    redempted := working;
    TotalOfPrefix(order, 0);
    while redempted <= pool
      invariant n < |order| && rows == order[n..]
      invariant working == order[n].supply
      invariant n > 0 ==> TotalSupply(order[..n]) <= pool
      invariant redempted == TotalSupply(order[..n + 1]) == TotalSupply(order[..n]) + working
      decreases |rows|
    {
      rows := rows[1..];
      if rows == [] {
        assert order[..n + 1] == order;
        return false, rows, redempted, n;
      }
      working := rows[0].supply;
      redempted := redempted + working;
      n := n + 1;
      TotalOfPrefix(order, n);
    }
    PrefixIsLess(order, n + 1);
    redempted := redempted - working;
    ok := true;
  }

  /**
   Redeeming removes the n riskiest troves by recorded ratio, takes the
   rest from the next one, which keeps positive debt, and lowers total debt
   by exactly the pool.
   */
  method Redeem(order: seq<Row>, pool: real, price: real) returns (ok: bool, rows: seq<Row>, n: nat)
    requires price > 0.0 && Sound(order) && AboveFloor(order, price) && SortedByRatio(order)
    ensures ok <==> Redeemable(order, pool)
    ensures ok ==> RedeemedFrom(order, pool, price, rows, n) && Sound(rows)
    ensures ok ==> rows[0].supply == TotalSupply(order[..n + 1]) - pool
    ensures ok ==> (AboveFloor(rows, price) <==> (pool >= 0.0 || StaysCovered(order[0], -pool, price)))
  {
    var redempted;
    ok, rows, redempted, n := DropRiskiest(order, pool);
    if ok {
      var residual := pool - redempted;
      assert rows[0] == order[n] && rows[1..] == order[n + 1..];
      RedeemedCovers(rows[0], residual, price);
      var r := Redeemed(rows[0], residual, price);
      TotalAfterRedeeming(order, n, r);
      FloorAfterRedeeming(r, rows[1..], price);
      NoneDropped(order, pool, n);
      rows := [r] + rows[1..];
    }
  }

  lemma FloorAfterRedeeming(r: Row, rest: seq<Row>, price: real)
    requires AboveFloor(rest, price)
    ensures AboveFloor([r] + rest, price) <==> Covers(r, price)
  {
    assert r in [r] + rest;
  }

  lemma NoneDropped(order: seq<Row>, pool: real, n: nat)
    requires Sound(order) && n < |order| && (n > 0 ==> TotalSupply(order[..n]) <= pool)
    ensures pool < 0.0 ==> n == 0
    ensures pool >= 0.0 ==> pool - TotalSupply(order[..n]) >= 0.0
    ensures TotalSupply(order[..0]) == 0.0
  {
    if n > 0 {
      TotalPositive(order[..n]);
    }
  }

  lemma TotalAfterRedeeming(order: seq<Row>, n: nat, r: Row)
    requires n < |order|
    ensures TotalSupply([r] + order[n + 1..]) == TotalSupply(order) - TotalSupply(order[..n + 1]) + r.supply
  {
    TotalOfConcat([r], order[n + 1..]);
    TotalOfConcat(order[..n + 1], order[n + 1..]);
    assert order[..n + 1] + order[n + 1..] == order;
    assert TotalSupply([r]) == r.supply;
  }

  // ----- Stabilising

  /** The price can also come out as infinite, as not a number, or not at all, when the program stops before. */
  datatype Price = Finite(value: real) | Infinite | NotANumber | Missing

  /**
   `root` is x to the power 1/delta and `power` is x to the power delta,
   with a negative delta: each is positive, and antitone and the inverse of
   the other.
   */
  ghost predicate DemandCurve(root: real -> real, power: real -> real) {
    forall x: real, y: real {:trigger root(x), power(y)} :: x > 0.0 && y > 0.0 ==>
      && root(x) > 0.0 && power(y) > 0.0
      && (root(x) > y <==> x < power(y))
      && (root(x) < y <==> x > power(y))
  }

  /** The price at which `excess`, the supply outside the stability pool, is demanded. */
  function MarketPrice(previous: real, excess: real, liquidity: real, root: real -> real): Price
    requires liquidity > 0.0
  {
    if excess > 0.0 then Finite(previous * root(excess / liquidity))
    else if excess == 0.0 then Infinite
    else NotANumber
  }

  /** The supply outside the stability pool that is demanded at a price. */
  function Demand(price: real, previous: real, liquidity: real, power: real -> real): real
    requires previous > 0.0
  {
    liquidity * power(price / previous)
  }

  /** The market price is above a bound exactly if supply is below what is demanded at the bound. */
  lemma DemandAndPrice(bound: real, previous: real, excess: real, liquidity: real, root: real -> real,
                       power: real -> real)
    requires DemandCurve(root, power) && bound > 0.0 && previous > 0.0 && liquidity > 0.0 && excess > 0.0
    ensures Demand(bound, previous, liquidity, power) > 0.0
    ensures MarketPrice(previous, excess, liquidity, root).value > bound
            <==> excess < Demand(bound, previous, liquidity, power)
    ensures MarketPrice(previous, excess, liquidity, root).value < bound
            <==> excess > Demand(bound, previous, liquidity, power)
    ensures MarketPrice(previous, excess, liquidity, root).value > 0.0
    ensures MarketPrice(previous, excess, liquidity, root).value > bound
            <==> excess / liquidity < power(bound / previous)
    ensures MarketPrice(previous, excess, liquidity, root).value < bound
            <==> excess / liquidity > power(bound / previous)
  {
    var x, y := excess / liquidity, bound / previous;
    assert x > 0.0 && y > 0.0;
    var rx, py := root(x), power(y);
    assert rx > 0.0 && py > 0.0;
    ScaledCompare(rx, y, previous);
    ScaledCompare(x, py, liquidity);
    QuotientLaws(excess, liquidity);
    QuotientLaws(bound, previous);
    SignOfQuotient(rx, previous);
    SignOfQuotient(py, liquidity);
  }

  lemma ScaledCompare(a: real, b: real, k: real)
    requires k > 0.0
    ensures a > b <==> a * k > b * k
    ensures a < b <==> a * k < b * k
  {
  }

  datatype Market = Market(price: Price, liquidity: real)

  /** One more trove, at 110% exactly, brings supply up to what is wanted. */
  ghost predicate OpenedAtCeiling(rows: seq<Row>, wanted: real, price: real, after: seq<Row>) {
    && rows <= after && |after| == |rows| + 1
    && TotalSupply(after) == wanted > TotalSupply(rows)
    && var r := after[|rows|];
       r.etherPrice == price && r.crInitial == r.crCurrent == MINIMUM_RATIO && r.inattention == 0.1 && OnTarget(r)
  }

  /** Ceiling arbitrage: the new trove has positive debt. */
  method OpenAtCeiling(rows: seq<Row>, wanted: real, price: real) returns (after: seq<Row>)
    requires price > 0.0 && Sound(rows) && AboveFloor(rows, price) && wanted > TotalSupply(rows)
    ensures Sound(after) && AboveFloor(after, price)
    ensures OpenedAtCeiling(rows, wanted, price, after)
  {
    var supply := wanted - TotalSupply(rows);
    var quantity := supply * MINIMUM_RATIO / price;
    QuotientLaws(supply * MINIMUM_RATIO, price);
    var row := Row(price, quantity, MINIMUM_RATIO, supply, 0.1, MINIMUM_RATIO);
    TotalOfConcat(rows, [row]);
    assert TotalSupply([row]) == supply;
    after := rows + [row];
  }

  /** The most that is redeemed in a round. */
  function Cap(ratio: real, excess: real): (cap: real)
    ensures excess > 0.0 ==> (cap >= 0.0 <==> ratio >= 0.0)
  {
    ratio * excess
  }

  /** The drawn ratio is the part of the supply outside the stability pool that can be redeemed. */
  lemma CapIsShare(ratio: real, excess: real)
    requires excess > 0.0
    ensures Cap(ratio, excess) / excess == ratio
  {
    UniqueQuotient(ratio, excess);
  }

  lemma UniqueQuotient(q: real, k: real)
    requires k > 0.0
    ensures (q * k) / k == q
  {
  }

  predicate Above(p: Price, bound: real) {
    p.Infinite? || (p.Finite? && p.value > bound)
  }

  predicate Below(p: Price, bound: real) {
    p.Finite? && p.value < bound
  }

  /** Below the floor: what is needed is redeemed, or the cap if that is less; the price is p, or the floor. */
  ghost predicate AtFloor(order: seq<Row>, needed: real, cap: real, excess: real, price: real, p: Price,
                          after: seq<Row>, market: Market, pool: real, n: nat)
  {
    && pool == (if needed < cap then needed else cap)
    && if Redeemable(order, pool) then
         && RedeemedFrom(order, pool, price, after, n)
         && market == Market(if needed < cap then Finite(FLOOR) else p, excess)
       else market == Market(Missing, excess)
  }

  /** Above the ceiling one trove is opened, below the floor the riskiest are redeemed, and between nothing happens. */
  ghost predicate Stabilised(rows: seq<Row>, sort: seq<Row> -> seq<Row>, previous: real, liquidity: real,
                             stability: real, ratio: real, price: real, root: real -> real, power: real -> real,
                             after: seq<Row>, market: Market, pool: real, n: nat)
    requires previous > 0.0 && liquidity > 0.0
  {
    var excess := TotalSupply(rows) - stability;
    var p := MarketPrice(previous, excess, liquidity, root);
    if Above(p, CEILING) then
      var demand := Demand(CEILING, previous, liquidity, power);
      && demand > 0.0 && OpenedAtCeiling(rows, stability + demand, price, after)
      && market == Market(Finite(CEILING), demand)
      && pool == 0.0 && n == 0
    else if Below(p, FLOOR) then
      var needed := excess - Demand(FLOOR, previous, liquidity, power);
      needed > 0.0 && AtFloor(sort(rows), needed, Cap(ratio, excess), excess, price, p, after, market, pool, n)
    else
      after == rows && market == Market(p, excess) && pool == 0.0 && n == 0
  }

  /** Floor arbitrage; running out of troves takes more to be redeemed than there is debt. */
  method RedeemAtFloor(order: seq<Row>, needed: real, cap: real, excess: real, price: real, p: Price)
    returns (after: seq<Row>, market: Market, pool: real, n: nat)
    requires price > 0.0 && Sound(order) && AboveFloor(order, price) && SortedByRatio(order) && needed > 0.0
    requires p.Finite? && 0.0 < p.value < FLOOR
    ensures AtFloor(order, needed, cap, excess, price, p, after, market, pool, n)
    ensures market.price.Missing? ==> TotalSupply(order) <= needed
    ensures pool < 0.0 <==> cap < 0.0
    ensures !market.price.Missing? ==>
              && Sound(after) && order != [] && market.price.Finite? && 0.0 < market.price.value <= CEILING
              && (AboveFloor(after, price) <==> (pool >= 0.0 || StaysCovered(order[0], -pool, price)))
  {
    var current := Finite(FLOOR);
    pool := needed;
    if needed >= cap {
      pool, current := cap, p;
    }
    var ok;
    ok, after, n := Redeem(order, pool, price);
    market := Market(if ok then current else Missing, excess);
    if order == [] {
      assert TotalSupply(order) == 0.0;
    }
  }

  /**
   Above the ceiling, supply rises to what is demanded at the ceiling.
   Below the floor, redemption lowers it to what is demanded at the floor, or
   by the cap if that is less; in the second case the price stays what it
   was.  Redemption can run out of troves only with a negative stability
   pool.  Every trove stays covered unless a negative redemption ratio adds
   debt to the riskiest, and then if and only if that one has enough.
   */
  method StabilisePrice(rows: seq<Row>, sort: seq<Row> -> seq<Row>, previous: real, liquidity: real, stability: real,
                        ratio: real, price: real, root: real -> real, power: real -> real)
    returns (after: seq<Row>, market: Market, pool: real, n: nat)
    requires price > 0.0 && Sound(rows) && AboveFloor(rows, price) && IsSortOf(sort(rows), rows)
    requires previous > 0.0 && liquidity > 0.0 && DemandCurve(root, power)
    ensures Stabilised(rows, sort, previous, liquidity, stability, ratio, price, root, power, after, market, pool, n)
    ensures market.price.Missing? ==> stability < 0.0
    ensures pool < 0.0 ==> ratio < 0.0
    ensures !market.price.Missing? ==>
              && Sound(after)
              && (pool < 0.0 ==> sort(rows) != [])
              && (AboveFloor(after, price) <==> (pool >= 0.0 || StaysCovered(sort(rows)[0], -pool, price)))
              && if market.liquidity < 0.0 then market.price.NotANumber?
                 else market.price.Finite? && 0.0 < market.price.value <= CEILING && market.liquidity > 0.0
  {
    after, pool, n := rows, 0.0, 0;
    var supply := TotalSupply(rows);
    var current := MarketPrice(previous, supply - stability, liquidity, root);
    var left := supply - stability;
    if left > 0.0 {
      DemandAndPrice(CEILING, previous, left, liquidity, root, power);
      DemandAndPrice(FLOOR, previous, left, liquidity, root, power);
    }
    if Above(current, CEILING) {
      DemandIsPositive(CEILING, previous, liquidity, root, power);
      var wanted := stability + Demand(CEILING, previous, liquidity, power);
      after := OpenAtCeiling(rows, wanted, price);
      current, left := Finite(CEILING), wanted - stability;
    }
    if Below(current, FLOOR) {
      var target := stability + Demand(FLOOR, previous, liquidity, power);
      SortKeepsRows(sort(rows), rows, price);
      after, market, pool, n := RedeemAtFloor(sort(rows), supply - target, Cap(ratio, left), left, price,
                                              MarketPrice(previous, left, liquidity, root));
    } else {
      market := Market(current, left);
    }
  }

  lemma DemandIsPositive(bound: real, previous: real, liquidity: real, root: real -> real, power: real -> real)
    requires DemandCurve(root, power) && bound > 0.0 && previous > 0.0 && liquidity > 0.0
    ensures Demand(bound, previous, liquidity, power) > 0.0
  {
    DemandAndPrice(bound, previous, 1.0, liquidity, root, power);
  }

  lemma SortKeepsRows(order: seq<Row>, rows: seq<Row>, price: real)
    requires IsSortOf(order, rows) && Sound(rows) && AboveFloor(rows, price)
    ensures Sound(order) && AboveFloor(order, price) && TotalSupply(order) == TotalSupply(rows) && |order| == |rows|
  {
    forall r | r in order
      ensures r in rows
    {
      assert r in multiset(order);
    }
    TotalOfPermutation(order, rows);
    assert |order| == |multiset(order)| == |multiset(rows)| == |rows|;
  }

  lemma TotalWithoutMiddle(a: seq<Row>, r: Row, b: seq<Row>)
    ensures TotalSupply(a + [r] + b) == TotalSupply(a + b) + r.supply
  {
    TotalOfConcat(a, b);
    TotalOfConcat(a, [r]);
    TotalOfConcat(a + [r], b);
    assert TotalSupply([r]) == r.supply;
  }

  lemma SplitPermutation<T>(init: seq<T>, x: T, s: seq<T>) returns (a: seq<T>, b: seq<T>)
    requires multiset(init + [x]) == multiset(s)
    ensures s == a + [x] + b && multiset(init) == multiset(a + b)
  {
    assert x in multiset(s);
    var k :| 0 <= k < |s| && s[k] == x;
    a, b := s[..k], s[k + 1..];
    assert s == a + [x] + b;
    assert multiset(init) + multiset{x} == multiset(a + b) + multiset{x};
    assert multiset(init) == multiset(init) + multiset{x} - multiset{x};
  }

  lemma {:induction false} TotalOfPermutation(a: seq<Row>, b: seq<Row>)
    requires multiset(a) == multiset(b)
    ensures TotalSupply(a) == TotalSupply(b)
  {
    if a == [] {
      assert |multiset(b)| == |b| == 0;
    } else {
      var init, last := a[..|a| - 1], a[|a| - 1];
      assert a == init + [last];
      var b1, b2 := SplitPermutation(init, last, b);
      TotalOfPermutation(init, b1 + b2);
      TotalWithoutMiddle(b1, last, b2);
    }
  }

  // ----- Rounds

  /** The draws of one round. */
  datatype Draws = Draws(
    price: real, drops: set<nat>, adjustRatio: real, adjustDraw: nat -> real, openings: seq<Opening>,
    stability: real, liquidityGrowth: real, redemptionRatio: real)

  predicate PossibleDraws(d: Draws) {
    && d.price > 0.0 && d.liquidityGrowth > 0.0
    && forall i :: 0 <= i < |d.openings| ==> PossibleOpening(d.openings[i])
  }

  /**
   The part of a round before the market: at the new price, troves below
   110% are liquidated, the drawn ones closed, others adjusted, new ones opened.
   */
  ghost predicate Prepared(rows: seq<Row>, d: Draws, kept: seq<Row>, closed: seq<Row>, adjusted: seq<Row>,
                           next: seq<Row>)
  {
    && Sound(Priced(rows, d.price))
    && KeepsAllBut(WithRatios(Priced(rows, d.price)), Risky(Priced(rows, d.price)), kept)
    && KeepsAllBut(kept, d.drops, closed)
    && Adjusted(closed, adjusted, d.adjustRatio, d.adjustDraw)
    && OpenedAfter(adjusted, d.openings, d.price, next)
  }

  method UpdateTroves(rows: seq<Row>, d: Draws)
    returns (kept: seq<Row>, closed: seq<Row>, adjusted: seq<Row>, next: seq<Row>)
    requires Sound(rows) && PossibleDraws(d)
    ensures Prepared(rows, d, kept, closed, adjusted, next)
    ensures Sound(next) && AboveFloor(next, d.price)
  {
    PricedLaws(rows, d.price);
    LiquidateLaws(Priced(rows, d.price), d.price);
    LiquidateKeepsTheRest(Priced(rows, d.price));
    kept := Liquidate(Priced(rows, d.price)).kept;
    CloseKeepsGood(kept, d.drops, d.price);
    CloseKeepsTheRest(kept, d.drops);
    closed := Close(kept, d.drops);
    var fee;
    adjusted, fee := AdjustTroves(closed, d.adjustRatio, d.adjustDraw, d.price);
    next, fee := OpenTroves(adjusted, d.openings, d.price);
  }

  /** What goes into every round besides its draws: how sorting orders ties, and the demand curve. */
  datatype Setting = Setting(sort: seq<Row> -> seq<Row>, root: real -> real, power: real -> real)

  ghost predicate PossibleSetting(c: Setting) {
    DemandCurve(c.root, c.power) && forall s: seq<Row> :: IsSortOf(c.sort(s), s)
  }

  /** The table, the ZUSD price and the liquidity pool at the end of a round. */
  datatype Stage = Stage(rows: seq<Row>, price: real, liquidity: real)

  function Grown(liquidity: real, growth: real): real {
    liquidity * growth
  }

  /** The drawn growth is the factor between the liquidity pools of two rounds. */
  lemma GrownIsFactor(liquidity: real, growth: real)
    requires liquidity > 0.0
    ensures Grown(liquidity, growth) / liquidity == growth
  {
    UniqueQuotient(growth, liquidity);
  }

  /** One round takes a stage to a new table and market. */
  ghost predicate IsRound(c: Setting, stage: Stage, d: Draws, next: seq<Row>, market: Market) {
    && stage.price > 0.0 && Grown(stage.liquidity, d.liquidityGrowth) > 0.0
    && exists kept, closed, adjusted, before, pool, n ::
         && Prepared(stage.rows, d, kept, closed, adjusted, before)
         && Stabilised(before, c.sort, stage.price, Grown(stage.liquidity, d.liquidityGrowth), d.stability,
                       d.redemptionRatio, d.price, c.root, c.power, next, market, pool, n)
  }

  method Round(c: Setting, stage: Stage, d: Draws) returns (next: seq<Row>, market: Market)
    requires Sound(stage.rows) && stage.price > 0.0 && stage.liquidity > 0.0 && PossibleDraws(d) && PossibleSetting(c)
    ensures IsRound(c, stage, d, next, market)
    ensures market.price.Missing? ==> d.stability < 0.0
    ensures !market.price.Missing? ==>
              && Sound(next) && (d.redemptionRatio >= 0.0 ==> AboveFloor(next, d.price))
              && if market.liquidity < 0.0 then market.price.NotANumber?
                 else market.price.Finite? && 0.0 < market.price.value <= CEILING && market.liquidity > 0.0
  {
    var kept, closed, adjusted, before := UpdateTroves(stage.rows, d);
    SignOfQuotient(stage.liquidity, d.liquidityGrowth);
    var pool, n;
    next, market, pool, n := StabilisePrice(before, c.sort, stage.price, Grown(stage.liquidity, d.liquidityGrowth),
                                            d.stability, d.redemptionRatio, d.price, c.root, c.power);
  }

  /** A round that leaves a negative liquidity pool, at which the simulation ends, or runs out of troves. */
  predicate Stops(market: Market, d: Draws) {
    (market.price.NotANumber? && market.liquidity < 0.0) || (market.price.Missing? && d.stability < 0.0)
  }

  /** What holds at the end of every round; of the floor, unless the round drew a negative redemption ratio. */
  predicate Healthy(stage: Stage, etherPrice: real, floor: bool) {
    && Sound(stage.rows) && (floor ==> AboveFloor(stage.rows, etherPrice))
    && 0.0 < stage.price <= CEILING && stage.liquidity > 0.0
  }

  type Rounds = (Stage, Draws, seq<Row>, Market) -> bool

  ghost predicate AreRounds(rounds: Rounds, c: Setting) {
    forall s, d, r, m {:trigger IsRound(c, s, d, r, m)} :: rounds(s, d, r, m) <==> IsRound(c, s, d, r, m)
  }

  method NextStage(c: Setting, stage: Stage, d: Draws, ghost etherPrice: real, ghost floor: bool, ghost rounds: Rounds)
    returns (rows: seq<Row>, market: Market)
    requires PossibleSetting(c) && PossibleDraws(d) && Healthy(stage, etherPrice, floor) && AreRounds(rounds, c)
    ensures rounds(stage, d, rows, market)
    ensures if market.price.Finite? then
              Healthy(Stage(rows, market.price.value, market.liquidity), d.price, d.redemptionRatio >= 0.0)
            else Stops(market, d)
  {
    rows, market := Round(c, stage, d);
  }

  /** The ether price of a stage. */
  function EtherPrice(initialPrice: real, draws: seq<Draws>, i: nat): real
    requires i <= |draws|
  {
    if i == 0 then initialPrice else draws[i - 1].price
  }

  /** Whether a stage is the first, or its round drew a redemption ratio that is not negative. */
  predicate HasFloor(draws: seq<Draws>, i: nat)
    requires i <= |draws|
  {
    i == 0 || draws[i - 1].redemptionRatio >= 0.0
  }

  /** Every stage has the property at its ether price. */
  ghost predicate Throughout(holds: (Stage, real, bool) -> bool, stages: seq<Stage>, initialPrice: real,
                             draws: seq<Draws>)
  {
    && |stages| <= |draws| + 1
    && forall i :: 0 <= i < |stages| ==> holds(stages[i], EtherPrice(initialPrice, draws, i), HasFloor(draws, i))
  }

  lemma ThroughoutExtends(holds: (Stage, real, bool) -> bool, stages: seq<Stage>, next: Stage, initialPrice: real,
                          draws: seq<Draws>)
    requires Throughout(holds, stages, initialPrice, draws) && |stages| <= |draws|
    requires holds(next, EtherPrice(initialPrice, draws, |stages|), HasFloor(draws, |stages|))
    ensures Throughout(holds, stages + [next], initialPrice, draws)
  {
  }

  /** Each stage follows from the one before it by the round of its draws. */
  ghost predicate Chained(rounds: Rounds, stages: seq<Stage>, draws: seq<Draws>) {
    && |stages| <= |draws| + 1
    && forall i :: 0 < i < |stages| ==>
         rounds(stages[i - 1], draws[i - 1], stages[i].rows, Market(Finite(stages[i].price), stages[i].liquidity))
  }

  lemma ChainedExtends(rounds: Rounds, stages: seq<Stage>, next: Stage, draws: seq<Draws>)
    requires Chained(rounds, stages, draws) && 0 < |stages| <= |draws|
    requires rounds(stages[|stages| - 1], draws[|stages| - 1], next.rows, Market(Finite(next.price), next.liquidity))
    ensures Chained(rounds, stages + [next], draws)
  {
  }

  ghost predicate IsHealthy(healthy: (Stage, real, bool) -> bool) {
    forall s, p, f :: healthy(s, p, f) <==> Healthy(s, p, f)
  }

  lemma HealthyBefore(healthy: (Stage, real, bool) -> bool, stages: seq<Stage>, initialPrice: real, draws: seq<Draws>)
    requires IsHealthy(healthy) && stages != [] && Throughout(healthy, stages, initialPrice, draws)
    ensures var n := |stages| - 1; Healthy(stages[n], EtherPrice(initialPrice, draws, n), HasFloor(draws, n))
  {
    assert healthy(stages[|stages| - 1], EtherPrice(initialPrice, draws, |stages| - 1), HasFloor(draws, |stages| - 1));
  }

  lemma HealthyAfter(healthy: (Stage, real, bool) -> bool, next: Stage, initialPrice: real, draws: seq<Draws>, n: nat)
    requires IsHealthy(healthy) && 0 < n <= |draws|
    requires Healthy(next, draws[n - 1].price, draws[n - 1].redemptionRatio >= 0.0)
    ensures healthy(next, EtherPrice(initialPrice, draws, n), HasFloor(draws, n))
  {
  }

  lemma ThroughoutStarts(holds: (Stage, real, bool) -> bool, first: Stage, initialPrice: real, draws: seq<Draws>)
    requires holds(first, initialPrice, true)
    ensures Throughout(holds, [first], initialPrice, draws)
  {
  }

  /** The loop of the simulation, with the table and market at which it ends before the draws do. */
  method RunRounds(c: Setting, first: Stage, initialPrice: real, draws: seq<Draws>,
                   ghost healthy: (Stage, real, bool) -> bool, ghost rounds: Rounds)
    returns (stages: seq<Stage>, rows: seq<Row>, market: Market)
    requires PossibleSetting(c) && forall i :: 0 <= i < |draws| ==> PossibleDraws(draws[i])
    requires IsHealthy(healthy) && AreRounds(rounds, c) && healthy(first, initialPrice, true)
    ensures 0 < |stages| && stages[0] == first
    ensures Chained(rounds, stages, draws) && Throughout(healthy, stages, initialPrice, draws)
    ensures |stages| <= |draws| ==>
              && Stops(market, draws[|stages| - 1])
              && rounds(stages[|stages| - 1], draws[|stages| - 1], rows, market)
  {
    stages, rows, market := [first], first.rows, Market(Finite(first.price), first.liquidity);
    ThroughoutStarts(healthy, first, initialPrice, draws);
    while |stages| <= |draws|
      invariant 0 < |stages| && stages[0] == first
      invariant Chained(rounds, stages, draws) && Throughout(healthy, stages, initialPrice, draws)
    {
      var n := |stages|;
      HealthyBefore(healthy, stages, initialPrice, draws);
      rows, market := NextStage(c, stages[n - 1], draws[n - 1], EtherPrice(initialPrice, draws, n - 1),
                                HasFloor(draws, n - 1), rounds);
      if !market.price.Finite? {
        break;
      }
      var next := Stage(rows, market.price.value, market.liquidity);
      ChainedExtends(rounds, stages, next, draws);
      HealthyAfter(healthy, next, initialPrice, draws, n);
      ThroughoutExtends(healthy, stages, next, initialPrice, draws);
      stages := stages + [next];
    }
  }

  method FirstStage(initial: seq<Opening>, initialPrice: real) returns (first: Stage)
    requires initialPrice > 0.0 && initial != []
    requires forall i :: 0 <= i < |initial| ==> PossibleOpening(initial[i])
    ensures OpenedAfter([], initial, initialPrice, first.rows)
    ensures first.price == 1.0 && first.liquidity == 0.5 * TotalSupply(first.rows)
    ensures Healthy(first, initialPrice, true)
  {
    var rows, fee := OpenTroves([], initial, initialPrice);
    TotalPositive(rows);
    first := Stage(rows, 1.0, 0.5 * TotalSupply(rows));
  }

  /**
   Whatever is drawn, the simulation runs round after round, each from where
   the last one ended, until the draws are used up, a round leaves a
   negative liquidity pool or its redemption runs out of troves; and every
   round that it completes ends with a positive ZUSD price of at most 1.11
   and, unless its redemption ratio is negative, with every trove at 110% of
   its debt or more at the round's ether price.
   */
  method Simulate(c: Setting, initial: seq<Opening>, initialPrice: real, draws: seq<Draws>)
    returns (stages: seq<Stage>, rows: seq<Row>, market: Market)
    requires initialPrice > 0.0 && initial != [] && PossibleSetting(c)
    requires forall i :: 0 <= i < |initial| ==> PossibleOpening(initial[i])
    requires forall i :: 0 <= i < |draws| ==> PossibleDraws(draws[i])
    ensures 0 < |stages| && OpenedAfter([], initial, initialPrice, stages[0].rows)
    ensures stages[0].price == 1.0 && stages[0].liquidity == 0.5 * TotalSupply(stages[0].rows)
    ensures Chained((s, d, r, m) => IsRound(c, s, d, r, m), stages, draws)
    ensures Throughout(Healthy, stages, initialPrice, draws)
    ensures |stages| <= |draws| ==>
              && Stops(market, draws[|stages| - 1])
              && IsRound(c, stages[|stages| - 1], draws[|stages| - 1], rows, market)
  {
    var first := FirstStage(initial, initialPrice);
    stages, rows, market := RunRounds(c, first, initialPrice, draws, Healthy, (s, d, r, m) => IsRound(c, s, d, r, m));
  }
}
