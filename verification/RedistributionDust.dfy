/**
 How much collateral truncation leaves behind in the default pool: less than
 one unit for every Trove whose rewards were applied or that was seized, and
 nothing for a redistribution, whose remainder is carried on.
 */
module RedistributionDust {
  import opened Arithmetic
  import opened Outcomes
  import opened Redistribution
  import opened RedistributionSafety

  /** The collateral held beyond all shares of it and the carried error, in units of 10^-18. */
  function EthSlack(s: System): int {
    Slack(s.defaultETH, Sum(EthShare(s.ethPerStake), s.troves), s.ethError)
  }

  function Slack(held: nat, shares: nat, error: nat): int {
    DECIMAL_PRECISION * held - shares - error
  }

  lemma Remainder(share: nat)
    ensures 0 <= share - DECIMAL_PRECISION * Truncated(share) < DECIMAL_PRECISION
  {
    DivBounds(share, DECIMAL_PRECISION);
  }

  /** Rewards that are moved out leave less than one unit, and nothing if there were none. */
  lemma MoveLeaves(s: System, m: System, i: nat, t: Trove)
    requires Accounted(m) && i < |s.troves| && MoveOut(s, s.troves[i]) == Ok(m) && EthShare(s.ethPerStake)(t) == 0
    ensures EthSlack(Record(m, i, t)) <= EthSlack(s) + DECIMAL_PRECISION
  {
    SumUpdate(EthShare(s.ethPerStake), s.troves, i, t);
    Remainder(EthShare(s.ethPerStake)(s.troves[i]));
  }

  lemma RecordLeaves(s: System, i: nat, t: Trove)
    requires Accounted(s) && i < |s.troves|
    requires EthShare(s.ethPerStake)(s.troves[i]) == EthShare(s.ethPerStake)(t) == 0
    ensures EthSlack(Record(s, i, t)) == EthSlack(s)
  {
    SumUpdate(EthShare(s.ethPerStake), s.troves, i, t);
  }

  lemma ApplyLeaves(s: System, i: nat)
    requires Valid(s) && i < |s.troves| && ApplyPending(s, i).Ok?
    ensures EthSlack(ApplyPending(s, i).value) <= EthSlack(s) + DECIMAL_PRECISION
  {
    var t := s.troves[i];
    if HasPending(s, t) {
      ShareIsZero(t.stake, s.ethPerStake, s.ethPerStake);
      MoveLeaves(s, MoveOut(s, t).value, i,
                 Trove(t.coll + PendingETH(s, t), t.debt + PendingDebt(s, t), t.stake, s.ethPerStake, s.debtPerStake));
    }
  }

  /** Applying the rewards of a Trove and recording it anew, or gone. */
  lemma ApplyAndRecordLeaves(s: System, i: nat, t: Trove)
    requires Valid(s) && i < |s.troves| && ApplyPending(s, i).Ok? && (t == NoTrove || t.atETH == s.ethPerStake)
    ensures EthSlack(Record(ApplyPending(s, i).value, i, t)) <= EthSlack(s) + DECIMAL_PRECISION
  {
    ApplyLeaves(s, i);
    ApplyPendingKeepsValid(s, i);
    var m := ApplyPending(s, i).value;
    ShareIsZero(m.troves[i].stake, m.troves[i].atETH, m.ethPerStake);
    ShareIsZero(t.stake, t.atETH, m.ethPerStake);
    RecordLeaves(m, i, t);
  }

  lemma {:induction false} SeizeAllLeaves(s: System, victims: seq<nat>)
    requires Valid(s) && (forall v :: v in victims ==> v < |s.troves|) && SeizeAll(s, victims).Ok?
    ensures EthSlack(SeizeAll(s, victims).value) <= EthSlack(s) + DECIMAL_PRECISION * |victims|
  {
    if victims != [] {
      var n := |victims| - 1;
      assert forall v :: v in victims[..n] ==> v in victims;
      assert victims[n] in victims;
      SeizeAllLeaves(s, victims[..n]);
      var m := SeizeAll(s, victims[..n]).value;
      ShareIsZero(0, 0, m.ethPerStake);
      MoveLeaves(m, MoveOut(m, m.troves[victims[n]]).value, victims[n], NoTrove);
    }
  }

  lemma SlackAfterGain(held: nat, shares: nat, shares': nat, error: nat, stakes: nat, amount: nat)
    requires stakes > 0 && shares' == shares + Quotient(amount * DECIMAL_PRECISION + error, stakes) * stakes
    ensures Slack(held + amount, shares', (amount * DECIMAL_PRECISION + error) % stakes) == Slack(held, shares, error)
  {
    var n := amount * DECIMAL_PRECISION + error;
    assert n == Quotient(n, stakes) * stakes + n % stakes;
  }

  lemma RedistributedSlack(slack: (nat, nat, nat) -> int, s: System, coll: nat, debt: nat, was: int)
    requires debt > 0 && s.totalStakes > 0
    requires var n := coll * DECIMAL_PRECISION + s.ethError;
             slack(s.defaultETH + coll, Sum(EthShare(s.ethPerStake + Quotient(n, s.totalStakes)), s.troves),
                   n % s.totalStakes) == was
    ensures var r := Redistribute(s, coll, debt);
            slack(r.defaultETH, Sum(EthShare(r.ethPerStake), r.troves), r.ethError) == was
  {
  }

  /** What a redistribution shares and carries on is what it is given and was carried on. */
  lemma RedistributeLeavesNothing(s: System, coll: nat, debt: nat)
    requires Accounted(s) && InPast(s) && (debt > 0 ==> s.totalStakes > 0)
    ensures EthSlack(Redistribute(s, coll, debt)) == EthSlack(s)
  {
    if debt > 0 {
      var q := Quotient(coll * DECIMAL_PRECISION + s.ethError, s.totalStakes);
      EthSharesGrow(s, q);
      SlackAfterGain(s.defaultETH, Sum(EthShare(s.ethPerStake), s.troves), Sum(EthShare(s.ethPerStake + q), s.troves),
                     s.ethError, s.totalStakes, coll);
      RedistributedSlack(Slack, s, coll, debt, EthSlack(s));
    }
  }

  /** The Troves whose rewards a transaction moves out of the default pool. */
  function Moves(op: Op): nat {
    match op
    case Open(_, _, _) => 0
    case Adjust(_, _, _) => 1
    case Close(_) => 1
    case Liquidate(victims, _, _) => |victims|
  }

  function AllMoves(ops: seq<Op>): nat {
    if ops == [] then 0 else AllMoves(ops[..|ops| - 1]) + Moves(ops[|ops| - 1])
  }

  lemma StepLeaves(s: System, op: Op)
    requires Valid(s) && Step(s, op).Ok?
    ensures EthSlack(Step(s, op).value) <= EthSlack(s) + DECIMAL_PRECISION * Moves(op)
  {
    match op
    case Open(i, coll, debt) =>
      ShareIsZero(0, 0, s.ethPerStake);
      ShareIsZero(NewStake(s, coll), s.ethPerStake, s.ethPerStake);
      RecordLeaves(s, i, Trove(coll, debt, NewStake(s, coll), s.ethPerStake, s.debtPerStake));
    case Adjust(i, coll, debt) =>
      var m := ApplyPending(s, i).value;
      ApplyPendingKeepsValid(s, i);
      ApplyAndRecordLeaves(s, i, m.troves[i].(coll := coll, debt := debt, stake := NewStake(m, coll)));
    case Close(i) => ApplyAndRecordLeaves(s, i, NoTrove);
    case Liquidate(victims, coll, debt) =>
      LiquidationSteps(s, op);
      var left := SeizeAll(s, op.victims).value;
      SeizeAllLeaves(s, victims);
      RedistributeLeavesNothing(left, coll, debt);
  }

  lemma {:induction false} RunLeaves(s: System, ops: seq<Op>)
    requires Valid(s)
    ensures EthSlack(Run(s, ops)) <= EthSlack(s) + DECIMAL_PRECISION * AllMoves(ops)
  {
    if ops != [] {
      var init, last := ops[..|ops| - 1], ops[|ops| - 1];
      RunLeaves(s, init);
      if Step(Run(s, init), last).Ok? {
        StepLeaves(Run(s, init), last);
      }
    }
  }

  /** Over every run, what is held beyond all shares and the carried error is at most a unit per Trove moved out. */
  lemma SlackIsSmall(n: nat, ops: seq<Op>)
    ensures 0 <= EthSlack(Reached(n, ops)) <= DECIMAL_PRECISION * AllMoves(ops)
  {
    InitialIsValid(n);
    SumOfZeros(EthShare(0), Initial(n).troves);
    RunLeaves(Initial(n), ops);
  }
}
