/**
 What holds of redistribution over every run: the default pool holds all
 pending collateral, and it holds all pending debt, and new stakes can be
 computed, exactly as long as no transaction of a certain kind occurs.
 */
module RedistributionSafety {
  import opened Arithmetic
  import opened Redistribution

  // ----- One transaction

  /** A liquidation seizes its victims, redistributes and takes snapshots. */
  lemma LiquidationSteps(s: System, op: Op)
    requires Valid(s) && Step(s, op).Ok? && op.Liquidate?
    ensures SeizeAll(s, op.victims).Ok?
    ensures var left := SeizeAll(s, op.victims).value;
            && Valid(left) && OnlyGone(s, left, op.victims) && CanPassOn(s, left, op.coll, op.debt)
            && Step(s, op).value == Snapshot(Redistribute(left, op.coll, op.debt))
  {
    SeizeAllKeepsValid(s, op.victims);
  }

  /** The debt held beyond all shares of it and the carried error, in units of 10^-18. */
  function DebtSlack(s: System): int {
    DECIMAL_PRECISION * s.defaultDebt - Sum(DebtShare(s.debtPerStake), s.troves) - s.debtError
  }

  /** An adjustment of a lagging Trove whose larger stake claims more of the pending debt than the slack. */
  ghost predicate Overclaims(s: System, op: Op) {
    && Accounted(s) && op.Adjust? && Step(s, op).Ok?
    && var t := s.troves[op.i];
       && Lagging(s, t)
       && Share(NewStake(s, op.coll), t.atDebt, s.debtPerStake)
          > Share(t.stake, t.atDebt, s.debtPerStake) + DebtSlack(s)
  }

  lemma AdjustKeepsDebtHeldIff(s: System, i: nat, coll: nat, debt: nat)
    requires Valid(s) && DebtHeld(s) && Step(s, Adjust(i, coll, debt)).Ok?
    ensures DebtHeld(Step(s, Adjust(i, coll, debt)).value) <==> !Overclaims(s, Adjust(i, coll, debt))
  {
    var t := s.troves[i];
    assert t in s.troves;
    AdjustKeepsValid(s, i, coll, debt);
    if Lagging(s, t) {
      SumUpdate(DebtShare(s.debtPerStake), s.troves, i, t.(coll := coll, debt := debt, stake := NewStake(s, coll)));
    }
  }

  /** Every transaction keeps the pending debt held, except an adjustment that overclaims. */
  lemma StepKeepsDebtHeldIff(s: System, op: Op)
    requires Valid(s) && DebtHeld(s) && Step(s, op).Ok?
    ensures DebtHeld(Step(s, op).value) <==> !Overclaims(s, op)
  {
    match op
    case Open(i, coll, debt) =>
      RecordKeepsValid(s, s, i, Trove(coll, debt, NewStake(s, coll), s.ethPerStake, s.debtPerStake));
    case Adjust(i, coll, debt) => AdjustKeepsDebtHeldIff(s, i, coll, debt);
    case Close(i) =>
      ApplyPendingKeepsValid(s, i);
      RecordKeepsValid(ApplyPending(s, i).value, ApplyPending(s, i).value, i, NoTrove);
    case Liquidate(victims, coll, debt) =>
      SeizeAllKeepsValid(s, victims);
      RedistributeKeepsValid(SeizeAll(s, victims).value, coll, debt);
  }

  // ----- Snapshots

  /** A liquidation that leaves collateral but no stakes. */
  ghost predicate Strands(s: System, op: Op) {
    && Accounted(s) && op.Liquidate? && Step(s, op).Ok?
    && var left := SeizeAll(s, op.victims).value;
       left.totalStakes == 0 && left.activeETH + left.defaultETH > 0
  }

  /** The snapshots of a liquidation can be used if and only if it leaves stakes, or no collateral. */
  lemma StepKeepsUsableIff(s: System, op: Op)
    requires Valid(s) && Step(s, op).Ok?
    ensures op.Liquidate? ==> (SnapshotsUsable(Step(s, op).value) <==> !Strands(s, op))
    ensures !op.Liquidate? ==> (SnapshotsUsable(Step(s, op).value) <==> SnapshotsUsable(s))
  {
  }

  predicate UsableOrUnstaked(s: System) {
    SnapshotsUsable(s) || s.totalStakes == 0
  }

  lemma StepKeepsUnstaked(s: System, op: Op)
    requires Valid(s) && UsableOrUnstaked(s) && Step(s, op).Ok?
    ensures UsableOrUnstaked(Step(s, op).value)
  {
  }

  // ----- Runs

  /** A property of every prefix of a sequence of transactions. */
  ghost predicate AtPrefixes(p: seq<Op> -> bool, ops: seq<Op>) {
    forall k :: 0 <= k <= |ops| ==> p(ops[..k])
  }

  /** A property of every transaction and those before it. */
  ghost predicate AtSteps(p: (seq<Op>, Op) -> bool, ops: seq<Op>) {
    forall k :: 0 <= k < |ops| ==> p(ops[..k], ops[k])
  }

  lemma OnePrefixMore(p: seq<Op> -> bool, ops: seq<Op>)
    requires ops != []
    ensures AtPrefixes(p, ops) <==> AtPrefixes(p, ops[..|ops| - 1]) && p(ops)
  {
    var n := |ops| - 1;
    assert ops[..|ops|] == ops;
    assert forall k :: 0 <= k <= n ==> ops[..n][..k] == ops[..k];
  }

  lemma OneStepMore(p: (seq<Op>, Op) -> bool, ops: seq<Op>)
    requires ops != []
    ensures AtSteps(p, ops) <==> AtSteps(p, ops[..|ops| - 1]) && p(ops[..|ops| - 1], ops[|ops| - 1])
  {
    var n := |ops| - 1;
    assert forall k :: 0 <= k < n ==> ops[..n][..k] == ops[..k];
  }

  /** The property holds of every system that is reached on the way. */
  ghost predicate Throughout(holds: System -> bool, n: nat, ops: seq<Op>) {
    AtPrefixes(before => holds(Reached(n, before)), ops)
  }

  /** No transaction on the way is of the given kind. */
  ghost predicate Never(breaks: (System, Op) -> bool, n: nat, ops: seq<Op>) {
    AtSteps((before, op) => !breaks(Reached(n, before), op), ops)
  }

  ghost predicate BrokenOnlyBy(holds: System -> bool, breaks: (System, Op) -> bool) {
    forall s, op :: Valid(s) && holds(s) ==>
      if Step(s, op).Ok? then holds(Step(s, op).value) <==> !breaks(s, op) else !breaks(s, op)
  }

  /** What only some transactions break holds all the way if and only if there is none of them. */
  lemma {:induction false} KeptIffNeverBroken(holds: System -> bool, breaks: (System, Op) -> bool, n: nat, ops: seq<Op>)
    requires holds(Reached(n, [])) && BrokenOnlyBy(holds, breaks)
    ensures Throughout(holds, n, ops) <==> Never(breaks, n, ops)
  {
    if ops == [] {
      assert forall k :: 0 <= k <= 0 ==> ops[..k] == [];
    } else {
      var init, last := ops[..|ops| - 1], ops[|ops| - 1];
      KeptIffNeverBroken(holds, breaks, n, init);
      OnePrefixMore(before => holds(Reached(n, before)), ops);
      OneStepMore((before, op) => !breaks(Reached(n, before), op), ops);
      if Throughout(holds, n, init) {
        assert init[..|init|] == init;
        StepBroken(holds, breaks, n, init, last);
        assert ops == init + [last];
      }
    }
  }

  lemma StepBroken(holds: System -> bool, breaks: (System, Op) -> bool, n: nat, ops: seq<Op>, op: Op)
    requires holds(Reached(n, ops)) && BrokenOnlyBy(holds, breaks)
    ensures holds(Reached(n, ops + [op])) <==> !breaks(Reached(n, ops), op)
  {
    assert (ops + [op])[..|ops + [op]| - 1] == ops;
    assert breaks(Reached(n, ops), op) || !breaks(Reached(n, ops), op);
  }

  lemma HoldsAtEnd(holds: System -> bool, n: nat, ops: seq<Op>)
    requires Throughout(holds, n, ops)
    ensures holds(Reached(n, ops))
  {
    assert ops[..|ops|] == ops;
  }

  /** All pending debt is held all the way if and only if no adjustment overclaims. */
  lemma DebtHeldIff(n: nat, ops: seq<Op>)
    ensures Throughout(DebtHeld, n, ops) <==> Never(Overclaims, n, ops)
  {
    InitialIsValid(n);
    forall s, op | Valid(s) && DebtHeld(s)
      ensures if Step(s, op).Ok? then DebtHeld(Step(s, op).value) <==> !Overclaims(s, op) else !Overclaims(s, op)
    {
      if Step(s, op).Ok? {
        StepKeepsDebtHeldIff(s, op);
      }
    }
    KeptIffNeverBroken(DebtHeld, Overclaims, n, ops);
  }

  /** New stakes can be computed all the way if and only if no liquidation strands collateral. */
  lemma SnapshotsUsableIff(n: nat, ops: seq<Op>)
    ensures Throughout(SnapshotsUsable, n, ops) <==> Never(Strands, n, ops)
  {
    InitialIsValid(n);
    forall s, op | Valid(s) && SnapshotsUsable(s)
      ensures if Step(s, op).Ok? then SnapshotsUsable(Step(s, op).value) <==> !Strands(s, op) else !Strands(s, op)
    {
      if Step(s, op).Ok? {
        StepKeepsUsableIff(s, op);
      }
    }
    KeptIffNeverBroken(SnapshotsUsable, Strands, n, ops);
  }

  /** Where new stakes cannot be computed, there are none. */
  lemma {:induction false} UnusableMeansUnstaked(n: nat, ops: seq<Op>)
    ensures UsableOrUnstaked(Reached(n, ops))
  {
    InitialIsValid(n);
    if ops != [] {
      var init, last := ops[..|ops| - 1], ops[|ops| - 1];
      UnusableMeansUnstaked(n, init);
      if Step(Reached(n, init), last).Ok? {
        StepKeepsUnstaked(Reached(n, init), last);
      }
    }
  }

  function EthReward(perStake: nat): Trove -> nat {
    (t: Trove) => Truncated(Share(t.stake, t.atETH, perStake))
  }

  function DebtReward(perStake: nat): Trove -> nat {
    (t: Trove) => Truncated(Share(t.stake, t.atDebt, perStake))
  }

  lemma {:induction false} SumOfTruncated(f: Trove -> nat, g: Trove -> nat, ts: seq<Trove>)
    requires forall t :: t in ts ==> g(t) == Truncated(f(t))
    ensures DECIMAL_PRECISION * Sum(g, ts) <= Sum(f, ts)
  {
    if ts != [] {
      var init, last := ts[..|ts| - 1], ts[|ts| - 1];
      assert last in ts;
      SumOfTruncated(f, g, init);
      DivBounds(f(last), DECIMAL_PRECISION);
      assert DECIMAL_PRECISION * Sum(g, ts) == DECIMAL_PRECISION * Sum(g, init) + DECIMAL_PRECISION * g(last);
    }
  }

  /** Whoever is liquidated next, in any number and order, the default pool has their rewards. */
  lemma {:induction false} SeizeAllSucceeds(s: System, victims: seq<nat>)
    requires Valid(s) && DebtHeld(s) && forall v :: v in victims ==> v < |s.troves|
    ensures SeizeAll(s, victims).Ok?
  {
    if victims != [] {
      var n := |victims| - 1;
      assert forall v :: v in victims[..n] ==> v in victims;
      assert victims[n] in victims;
      SeizeAllSucceeds(s, victims[..n]);
      SeizeAllKeepsValid(s, victims[..n]);
      PendingEthIsHeld(SeizeAll(s, victims[..n]).value, victims[n]);
      PendingDebtIsHeld(SeizeAll(s, victims[..n]).value, victims[n]);
    }
  }

  /** Over every run, all pending collateral and the carried error are at most what the default pool holds. */
  lemma EthRewardsAreHeld(n: nat, ops: seq<Op>)
    ensures var s := Reached(n, ops);
            DECIMAL_PRECISION * Sum(EthReward(s.ethPerStake), s.troves) + s.ethError <= DECIMAL_PRECISION * s.defaultETH
  {
    var s := Reached(n, ops);
    SumOfTruncated(EthShare(s.ethPerStake), EthReward(s.ethPerStake), s.troves);
  }

  /**
   The same holds of debt over every run without an adjustment that
   overclaims; and then neither applying nor seizing a reward reverts for
   want of it in the default pool.
   */
  lemma DebtRewardsAreHeld(n: nat, ops: seq<Op>)
    requires Never(Overclaims, n, ops)
    ensures var s := Reached(n, ops);
            DECIMAL_PRECISION * Sum(DebtReward(s.debtPerStake), s.troves) + s.debtError
            <= DECIMAL_PRECISION * s.defaultDebt
    ensures forall i :: 0 <= i < n ==> ApplyPending(Reached(n, ops), i).Ok?
    ensures forall victims: seq<nat> :: (forall v :: v in victims ==> v < n) ==> SeizeAll(Reached(n, ops), victims).Ok?
  {
    DebtHeldIff(n, ops);
    HoldsAtEnd(DebtHeld, n, ops);
    var s := Reached(n, ops);
    SumOfTruncated(DebtShare(s.debtPerStake), DebtReward(s.debtPerStake), s.troves);
    forall i | 0 <= i < n
      ensures ApplyPending(s, i).Ok?
    {
      PendingEthIsHeld(s, i);
      PendingDebtIsHeld(s, i);
    }
    forall victims: seq<nat> | forall v :: v in victims ==> v < n
      ensures SeizeAll(s, victims).Ok?
    {
      SeizeAllSucceeds(s, victims);
    }
  }
}
