/**
 Why redistribution would keep Troves sorted if nothing were truncated:
 stakes stay exactly proportional to collateral through every transaction,
 so that all ratios are divided by debts per stake that grow alike.

 Amounts are reals here.  The contract's own arithmetic, with truncated
 stakes and rewards, is in the module Redistribution; what it leaves of this
 is in RedistributionOrder and RedistributionDrift.
 */
module ExactRedistribution {
  import opened Arithmetic
  import opened Outcomes

  /** A Trove as last recorded, with the running totals of that time. */
  datatype Position = Position(coll: real, debt: real, stake: real, atETH: real, atDebt: real)

  const Nobody := Position(0.0, 0.0, 0.0, 0.0, 0.0)

  datatype System = System(
    positions: seq<Position>,
    ethPerStake: real,
    debtPerStake: real,
    totalStakes: real,
    stakesSnapshot: real,
    collSnapshot: real,
    collHeld: real,
    debtHeld: real
  )

  function Initial(n: nat): System {
    System(seq(n, _ => Nobody), 0.0, 0.0, 0.0, 0.0, 0.0, 0.0, 0.0)
  }

  /** Recorded collateral plus the pending reward. */
  function CollAt(p: Position, ethPerStake: real): real {
    p.coll + p.stake * (ethPerStake - p.atETH)
  }

  function DebtAt(p: Position, debtPerStake: real): real {
    p.debt + p.stake * (debtPerStake - p.atDebt)
  }

  /** `_computeNewStake` */
  function NewStake(s: System, coll: real): real
    requires s.collSnapshot >= 0.0
  {
    if s.collSnapshot == 0.0 then coll else coll * s.stakesSnapshot / s.collSnapshot
  }

  // ----- Operations; Err is a revert

  /** Records a position and keeps the totals. */
  function Record(s: System, i: nat, p: Position): System
    requires i < |s.positions|
  {
    var was := s.positions[i];
    s.(positions := s.positions[i := p],
       totalStakes := s.totalStakes - was.stake + p.stake,
       collHeld := s.collHeld - CollAt(was, s.ethPerStake) + CollAt(p, s.ethPerStake),
       debtHeld := s.debtHeld - DebtAt(was, s.debtPerStake) + DebtAt(p, s.debtPerStake))
  }

  /** A Trove just opened, adjusted or partly redeemed. */
  function Renewed(s: System, coll: real, debt: real): Position
    requires s.collSnapshot >= 0.0
  {
    Position(coll, debt, NewStake(s, coll), s.ethPerStake, s.debtPerStake)
  }

  function RemoveAll(s: System, victims: seq<nat>): System
    requires forall v :: v in victims ==> v < |s.positions|
    ensures |RemoveAll(s, victims).positions| == |s.positions|
  {
    if victims == [] then s
    else
      var n := |victims| - 1;
      assert forall v :: v in victims[..n] ==> v in victims;
      assert victims[n] in victims;
      Record(RemoveAll(s, victims[..n]), victims[n], Nobody)
  }

  /** `_redistributeDebtAndColl` */
  function Redistribute(s: System, coll: real, debt: real): System
    requires s.totalStakes > 0.0
  {
    if debt == 0.0 then s
    else s.(ethPerStake := s.ethPerStake + coll / s.totalStakes,
            debtPerStake := s.debtPerStake + debt / s.totalStakes,
            collHeld := s.collHeld + coll,
            debtHeld := s.debtHeld + debt)
  }

  /** `_updateSystemSnapshots_excludeCollRemainder` */
  function Snapshot(s: System): System {
    s.(stakesSnapshot := s.totalStakes, collSnapshot := s.collHeld)
  }

  datatype Op =
    | Put(i: nat, coll: real, debt: real)
    | Close(i: nat)
    | Liquidate(victims: seq<nat>, coll: real, debt: real)

  /**
   One transaction.  A liquidation passes on some of what its victims had:
   the rest is offset by the Stability Pool, paid as compensation or left as
   surplus.  Without debt, no collateral is passed on.
   */
  function Step(s: System, op: Op): Result<System>
    requires s.collSnapshot >= 0.0
  {
    match op
    case Put(i, coll, debt) =>
      if i >= |s.positions| || coll <= 0.0 || debt < 0.0 then Err else Ok(Record(s, i, Renewed(s, coll, debt)))
    case Close(i) =>
      if i >= |s.positions| then Err else Ok(Record(s, i, Nobody))
    case Liquidate(victims, coll, debt) =>
      if exists v :: v in victims && v >= |s.positions| then Err
      else
        var left := RemoveAll(s, victims);
        if left.totalStakes <= 0.0 || coll < 0.0 || debt < 0.0 || (debt == 0.0 && coll > 0.0) then Err
        else Ok(Snapshot(Redistribute(left, coll, debt)))
  }

  // ----- The invariant

  /** Collateral per unit staked, the same for all Troves. */
  function Rate(s: System): real {
    if s.collSnapshot == 0.0 || s.stakesSnapshot == 0.0 then 1.0 else s.collSnapshot / s.stakesSnapshot
  }

  /** The position's collateral is its stake at the given rate. */
  predicate Fair(p: Position, ethPerStake: real, rate: real) {
    p.stake >= 0.0 && CollAt(p, ethPerStake) == p.stake * rate
  }

  predicate AllFair(ps: seq<Position>, ethPerStake: real, rate: real) {
    forall p :: p in ps ==> Fair(p, ethPerStake, rate)
  }

  function SumStake(ps: seq<Position>): real {
    if ps == [] then 0.0 else SumStake(ps[..|ps| - 1]) + ps[|ps| - 1].stake
  }

  function SumColl(ps: seq<Position>, ethPerStake: real): real {
    if ps == [] then 0.0 else SumColl(ps[..|ps| - 1], ethPerStake) + CollAt(ps[|ps| - 1], ethPerStake)
  }

  function SumDebt(ps: seq<Position>, debtPerStake: real): real {
    if ps == [] then 0.0 else SumDebt(ps[..|ps| - 1], debtPerStake) + DebtAt(ps[|ps| - 1], debtPerStake)
  }

  predicate SnapshotsFit(s: System) {
    s.collSnapshot == 0.0 || (s.collSnapshot > 0.0 && s.stakesSnapshot > 0.0)
  }

  /** Everything recorded adds up. */
  predicate Balanced(s: System) {
    && s.totalStakes == SumStake(s.positions)
    && s.collHeld == SumColl(s.positions, s.ethPerStake)
    && s.debtHeld == SumDebt(s.positions, s.debtPerStake)
  }

  predicate Valid(s: System) {
    SnapshotsFit(s) && Balanced(s) && AllFair(s.positions, s.ethPerStake, Rate(s))
  }

  lemma {:induction false} SumsAfterUpdate(ps: seq<Position>, i: nat, p: Position, e: real, d: real)
    requires i < |ps|
    ensures SumStake(ps[i := p]) == SumStake(ps) - ps[i].stake + p.stake
    ensures SumColl(ps[i := p], e) == SumColl(ps, e) - CollAt(ps[i], e) + CollAt(p, e)
    ensures SumDebt(ps[i := p], d) == SumDebt(ps, d) - DebtAt(ps[i], d) + DebtAt(p, d)
  {
    var init := ps[..|ps| - 1];
    if i == |ps| - 1 {
      assert ps[i := p][..|ps| - 1] == init;
    } else {
      SumsAfterUpdate(init, i, p, e, d);
      assert ps[i := p][..|ps| - 1] == init[i := p];
    }
  }

  lemma RateIsPositive(s: System)
    requires SnapshotsFit(s)
    ensures Rate(s) > 0.0
  {
  }

  lemma NewStakeIsFair(s: System, coll: real, debt: real)
    requires SnapshotsFit(s) && coll >= 0.0
    ensures Fair(Renewed(s, coll, debt), s.ethPerStake, Rate(s))
  {
  }

  lemma RecordKeepsValid(s: System, i: nat, p: Position)
    requires Valid(s) && i < |s.positions| && Fair(p, s.ethPerStake, Rate(s))
    ensures Valid(Record(s, i, p))
  {
    SumsAfterUpdate(s.positions, i, p, s.ethPerStake, s.debtPerStake);
  }

  lemma {:induction false} RemoveAllKeepsValid(s: System, victims: seq<nat>)
    requires Valid(s) && forall v :: v in victims ==> v < |s.positions|
    ensures Valid(RemoveAll(s, victims))
    ensures RemoveAll(s, victims).ethPerStake == s.ethPerStake
    ensures RemoveAll(s, victims).debtPerStake == s.debtPerStake
    ensures Rate(RemoveAll(s, victims)) == Rate(s)
    ensures forall i :: 0 <= i < |s.positions| && i !in victims ==> RemoveAll(s, victims).positions[i] == s.positions[i]
  {
    if victims != [] {
      var n := |victims| - 1;
      assert forall v :: v in victims[..n] ==> v in victims;
      assert victims[n] in victims;
      RemoveAllKeepsValid(s, victims[..n]);
      RecordKeepsValid(RemoveAll(s, victims[..n]), victims[n], Nobody);
    }
  }

  // ----- Redistributing

  lemma CollAfter(p: Position, e: real, gain: real)
    ensures CollAt(p, e + gain) == CollAt(p, e) + p.stake * gain
  {
  }

  lemma DebtAfter(p: Position, d: real, gain: real)
    ensures DebtAt(p, d + gain) == DebtAt(p, d) + p.stake * gain
  {
  }

  lemma SumStep(x': real, x: real, a: real, b: real, c: real, gain: real)
    requires x' == x + a * gain && c == b + a
    ensures x' + b * gain == x + c * gain
  {
  }

  lemma {:induction false} CollAfterGain(ps: seq<Position>, e: real, gain: real)
    ensures SumColl(ps, e + gain) == SumColl(ps, e) + SumStake(ps) * gain
  {
    if ps != [] {
      var init, last := ps[..|ps| - 1], ps[|ps| - 1];
      CollAfterGain(init, e, gain);
      CollAfter(last, e, gain);
      SumStep(SumColl(init, e + gain), SumColl(init, e), SumStake(init), last.stake, SumStake(ps), gain);
    }
  }

  lemma {:induction false} DebtAfterGain(ps: seq<Position>, d: real, gain: real)
    ensures SumDebt(ps, d + gain) == SumDebt(ps, d) + SumStake(ps) * gain
  {
    if ps != [] {
      var init, last := ps[..|ps| - 1], ps[|ps| - 1];
      DebtAfterGain(init, d, gain);
      DebtAfter(last, d, gain);
      SumStep(SumDebt(init, d + gain), SumDebt(init, d), SumStake(init), last.stake, SumStake(ps), gain);
    }
  }

  lemma {:induction false} CollIsStakeTimesRate(ps: seq<Position>, e: real, rate: real)
    requires AllFair(ps, e, rate)
    ensures SumColl(ps, e) == SumStake(ps) * rate
  {
    if ps != [] {
      var init, last := ps[..|ps| - 1], ps[|ps| - 1];
      CollIsStakeTimesRate(init, e, rate);
      assert Fair(last, e, rate);
      assert SumStake(ps) * rate == SumStake(init) * rate + last.stake * rate;
    }
  }

  /** What every Trove together takes on is exactly what was passed on. */
  lemma RedistributeKeepsBalance(s: System, coll: real, debt: real)
    requires Balanced(s) && s.totalStakes > 0.0
    ensures Balanced(Redistribute(s, coll, debt))
  {
    if debt != 0.0 {
      CollAfterGain(s.positions, s.ethPerStake, coll / s.totalStakes);
      DebtAfterGain(s.positions, s.debtPerStake, debt / s.totalStakes);
      assert s.totalStakes * (coll / s.totalStakes) == coll;
      assert s.totalStakes * (debt / s.totalStakes) == debt;
    }
  }

  lemma RedistributeKeepsFairness(s: System, coll: real, debt: real, rate: real)
    requires AllFair(s.positions, s.ethPerStake, rate) && s.totalStakes > 0.0
    ensures var gain := if debt == 0.0 then 0.0 else coll / s.totalStakes;
            AllFair(s.positions, Redistribute(s, coll, debt).ethPerStake, rate + gain)
  {
  }

  /** The new snapshots stand for the new rate. */
  lemma SnapshotKeepsFairness(s: System, rate: real)
    requires Balanced(s) && AllFair(s.positions, s.ethPerStake, rate) && s.totalStakes > 0.0 && rate > 0.0
    ensures Valid(Snapshot(s)) && Rate(Snapshot(s)) == rate
  {
    CollIsStakeTimesRate(s.positions, s.ethPerStake, rate);
    RealMulNonneg(s.totalStakes, rate);
    assert s.collHeld == s.totalStakes * rate > 0.0;
    assert s.collHeld / s.totalStakes == rate;
  }

  lemma GainIsNonneg(coll: real, stakes: real)
    requires coll >= 0.0 && stakes > 0.0
    ensures coll / stakes >= 0.0
  {
  }

  lemma LiquidateKeepsValid(s: System, coll: real, debt: real)
    requires Valid(s) && s.totalStakes > 0.0 && coll >= 0.0
    ensures Valid(Snapshot(Redistribute(s, coll, debt)))
  {
    RateIsPositive(s);
    GainIsNonneg(coll, s.totalStakes);
    var gain := if debt == 0.0 then 0.0 else coll / s.totalStakes;
    RedistributeKeepsBalance(s, coll, debt);
    RedistributeKeepsFairness(s, coll, debt, Rate(s));
    SnapshotKeepsFairness(Redistribute(s, coll, debt), Rate(s) + gain);
  }

  /** Every transaction keeps collateral and debt accounted for, and stakes at one rate. */
  lemma StepKeepsValid(s: System, op: Op)
    requires Valid(s) && Step(s, op).Ok?
    ensures Valid(Step(s, op).value)
  {
    match op
    case Put(i, coll, debt) =>
      NewStakeIsFair(s, coll, debt);
      RecordKeepsValid(s, i, Renewed(s, coll, debt));
    case Close(i) =>
      RecordKeepsValid(s, i, Nobody);
    case Liquidate(victims, coll, debt) =>
      RemoveAllKeepsValid(s, victims);
      LiquidateKeepsValid(RemoveAll(s, victims), coll, debt);
  }

  // ----- The order of ratios

  /** The ratio of p is not above that of q; without division, as debts may be zero. */
  predicate RatioAtMost(p: Position, q: Position, ethPerStake: real, debtPerStake: real) {
    CollAt(p, ethPerStake) * DebtAt(q, debtPerStake) <= CollAt(q, ethPerStake) * DebtAt(p, debtPerStake)
  }

  predicate NotAbove(s: System, i: nat, j: nat)
    requires i < |s.positions| && j < |s.positions|
  {
    RatioAtMost(s.positions[i], s.positions[j], s.ethPerStake, s.debtPerStake)
  }

  lemma OrderAfterRedistribution(p: Position, q: Position, e: real, e': real, d: real, d': real, rate: real,
                                 rate': real)
    requires Fair(p, e, rate) && Fair(q, e, rate) && rate > 0.0
    requires Fair(p, e', rate') && Fair(q, e', rate') && rate' > 0.0
    ensures RatioAtMost(p, q, e', d') <==> RatioAtMost(p, q, e, d)
  {
  }

  predicate Touches(op: Op, i: nat) {
    match op
    case Put(j, _, _) => i == j
    case Close(j) => i == j
    case Liquidate(victims, _, _) => i in victims
  }

  lemma StepLeavesOthers(s: System, op: Op, i: nat)
    requires Valid(s) && Step(s, op).Ok?
    requires i < |s.positions| && !Touches(op, i)
    ensures |Step(s, op).value.positions| == |s.positions|
    ensures Step(s, op).value.positions[i] == s.positions[i]
  {
    if op.Liquidate? {
      RemoveAllKeepsValid(s, op.victims);
    }
  }

  /** Whatever a transaction does, the ratios of any two Troves it does not touch compare as before. */
  lemma StepKeepsOrder(s: System, op: Op, i: nat, j: nat)
    requires Valid(s) && Step(s, op).Ok?
    requires i < |s.positions| && j < |s.positions| && !Touches(op, i) && !Touches(op, j)
    ensures |Step(s, op).value.positions| == |s.positions|
    ensures NotAbove(Step(s, op).value, i, j) <==> NotAbove(s, i, j)
  {
    StepLeavesOthers(s, op, i);
    StepLeavesOthers(s, op, j);
    if op.Liquidate? {
      var t := Step(s, op).value;
      StepKeepsValid(s, op);
      RateIsPositive(s);
      RateIsPositive(t);
      assert s.positions[i] in t.positions && s.positions[j] in t.positions;
      OrderAfterRedistribution(s.positions[i], s.positions[j], s.ethPerStake, t.ethPerStake, s.debtPerStake,
                               t.debtPerStake,
                               Rate(s), Rate(t));
    }
  }

  // ----- Runs

  /** The system after the given transactions; reverted ones change nothing. */
  function Run(s: System, ops: seq<Op>): (t: System)
    requires Valid(s)
    ensures Valid(t)
  {
    if ops == [] then s
    else
      var t := Run(s, ops[..|ops| - 1]);
      var r := Step(t, ops[|ops| - 1]);
      if r.Ok? then
        StepKeepsValid(t, ops[|ops| - 1]);
        r.value
      else t
  }

  lemma {:induction false} NobodyHasNothing(ps: seq<Position>, e: real, d: real, rate: real)
    requires forall i :: 0 <= i < |ps| ==> ps[i] == Nobody
    ensures SumStake(ps) == SumColl(ps, e) == SumDebt(ps, d) == 0.0
    ensures AllFair(ps, e, rate)
  {
    if ps != [] {
      NobodyHasNothing(ps[..|ps| - 1], e, d, rate);
    }
  }

  lemma InitialIsValid(n: nat)
    ensures Valid(Initial(n))
  {
    var s := Initial(n);
    NobodyHasNothing(s.positions, s.ethPerStake, s.debtPerStake, Rate(s));
  }

  /**
   Over every run, two Troves that are not themselves opened, adjusted,
   redeemed, closed or liquidated keep their relative order, however many
   others are redistributed to them.
   */
  lemma {:induction false} RunKeepsOrder(s: System, ops: seq<Op>, i: nat, j: nat)
    requires Valid(s) && i < |s.positions| && j < |s.positions|
    requires forall op :: op in ops ==> !Touches(op, i) && !Touches(op, j)
    ensures |Run(s, ops).positions| == |s.positions|
    ensures NotAbove(Run(s, ops), i, j) <==> NotAbove(s, i, j)
  {
    if ops != [] {
      var init, last := ops[..|ops| - 1], ops[|ops| - 1];
      assert forall op :: op in init ==> op in ops;
      assert last in ops;
      RunKeepsOrder(s, init, i, j);
      if Step(Run(s, init), last).Ok? {
        StepKeepsOrder(Run(s, init), last, i, j);
      }
    }
  }
}
