/**
 Redistribution of liquidated Troves as the TroveManager contract computes
 it: every open Trove takes on collateral and debt in proportion to its
 stake, through two running totals per unit staked.  Stakes, totals and
 pending rewards are truncated integers, and the remainders of the totals
 are fed back into the next redistribution.

 Troves are numbered; a number without a Trove is a record of zeros.
 Amounts are unbounded: the 256-bit range is not modelled.
 */
module Redistribution {
  import opened Arithmetic
  import opened Outcomes

  const DECIMAL_PRECISION: nat := 1_000_000_000_000_000_000
  const NICR_PRECISION: nat := 100_000_000_000_000_000_000

  /** A Trove as last recorded, with the running totals of that time. */
  datatype Trove = Trove(coll: nat, debt: nat, stake: nat, atETH: nat, atDebt: nat)

  const NoTrove: Trove := Trove(0, 0, 0, 0, 0)

  /** The active pool holds what the Troves have recorded, the default pool what is pending. */
  datatype System = System(
    troves: seq<Trove>,
    ethPerStake: nat,
    debtPerStake: nat,
    ethError: nat,
    debtError: nat,
    totalStakes: nat,
    stakesSnapshot: nat,
    collSnapshot: nat,
    activeETH: nat,
    activeDebt: nat,
    defaultETH: nat,
    defaultDebt: nat
  )

  function Initial(n: nat): System {
    System(seq(n, _ => NoTrove), 0, 0, 0, 0, 0, 0, 0, 0, 0, 0, 0)
  }

  // ----- Sums over all Troves

  function Sum(f: Trove -> nat, ts: seq<Trove>): nat {
    if ts == [] then 0 else Sum(f, ts[..|ts| - 1]) + f(ts[|ts| - 1])
  }

  lemma {:induction false} SumUpdate(f: Trove -> nat, ts: seq<Trove>, i: nat, t: Trove)
    requires i < |ts|
    ensures Sum(f, ts) >= f(ts[i])
    ensures Sum(f, ts[i := t]) == Sum(f, ts) - f(ts[i]) + f(t)
  {
    var init := ts[..|ts| - 1];
    if i == |ts| - 1 {
      assert ts[i := t][..|ts| - 1] == init;
    } else {
      SumUpdate(f, init, i, t);
      assert ts[i := t][..|ts| - 1] == init[i := t];
    }
  }

  lemma GrowthAdds(x: nat, y: nat, a: nat, b: nat, x': nat, y': nat, q: nat)
    requires x' == x + q * a && y' == y + q * b
    ensures x' + y' == x + y + q * (a + b)
  {
    assert q * (a + b) == q * a + q * b;
  }

  /** If every part grows by q times its stake, the whole grows by q times the total stake. */
  lemma {:induction false} SumGrows(f: Trove -> nat, g: Trove -> nat, ts: seq<Trove>, q: nat)
    requires forall t :: t in ts ==> g(t) == f(t) + q * t.stake
    ensures Sum(g, ts) == Sum(f, ts) + q * Sum(StakeOf, ts)
  {
    if ts != [] {
      var init, last := ts[..|ts| - 1], ts[|ts| - 1];
      assert last in ts;
      SumGrows(f, g, init, q);
      GrowthAdds(Sum(f, init), f(last), Sum(StakeOf, init), last.stake, Sum(g, init), g(last), q);
    }
  }

  lemma {:induction false} SumOfZeros(f: Trove -> nat, ts: seq<Trove>)
    requires forall i :: 0 <= i < |ts| ==> f(ts[i]) == 0
    ensures Sum(f, ts) == 0
  {
    if ts != [] {
      SumOfZeros(f, ts[..|ts| - 1]);
    }
  }

  function StakeOf(t: Trove): nat { t.stake }

  function RecordedColl(t: Trove): nat { t.coll }

  function RecordedDebt(t: Trove): nat { t.debt }

  /** The pending reward in units of 10^-18, before it is truncated. */
  function Share(stake: nat, at: nat, perStake: nat): nat {
    if at <= perStake then stake * (perStake - at) else 0
  }

  function EthShare(perStake: nat): Trove -> nat {
    (t: Trove) => Share(t.stake, t.atETH, perStake)
  }

  function DebtShare(perStake: nat): Trove -> nat {
    (t: Trove) => Share(t.stake, t.atDebt, perStake)
  }

  // ----- Views

  function Truncated(x: nat): nat {
    DivNonneg(x, DECIMAL_PRECISION);
    x / DECIMAL_PRECISION
  }

  /** `_getPendingETHReward` */
  function PendingETH(s: System, t: Trove): nat {
    Truncated(Share(t.stake, t.atETH, s.ethPerStake))
  }

  /** `_getPendingZUSDDebtReward` */
  function PendingDebt(s: System, t: Trove): nat {
    Truncated(Share(t.stake, t.atDebt, s.debtPerStake))
  }

  /** `_getCurrentTroveAmounts` */
  function CurrentColl(s: System, t: Trove): nat {
    t.coll + PendingETH(s, t)
  }

  function CurrentDebt(s: System, t: Trove): nat {
    t.debt + PendingDebt(s, t)
  }

  /** `_computeNominalCR`; no debt stands for an infinite ratio. */
  function NominalCR(coll: nat, debt: nat): Option<nat> {
    if debt == 0 then None
    else
      DivNonneg(coll * NICR_PRECISION, debt);
      Some(coll * NICR_PRECISION / debt)
  }

  function Quotient(n: nat, d: nat): nat
    requires d > 0
  {
    DivNonneg(n, d);
    n / d
  }

  /** `_computeNewStake` */
  function NewStake(s: System, coll: nat): nat {
    if s.collSnapshot == 0 then coll else Quotient(coll * s.stakesSnapshot, s.collSnapshot)
  }

  // ----- Operations; Err is a revert

  /** What is recorded adds up to what the active pool and the total of stakes say. */
  ghost predicate Accounted(s: System) {
    && s.totalStakes == Sum(StakeOf, s.troves)
    && s.activeETH == Sum(RecordedColl, s.troves)
    && s.activeDebt == Sum(RecordedDebt, s.troves)
  }

  /** Records a Trove; that no total underflows is a consequence of Accounted. */
  function Record(s: System, i: nat, t: Trove): (r: System)
    requires Accounted(s) && i < |s.troves|
    ensures Accounted(r)
  {
    SumUpdate(StakeOf, s.troves, i, t);
    SumUpdate(RecordedColl, s.troves, i, t);
    SumUpdate(RecordedDebt, s.troves, i, t);
    var was := s.troves[i];
    s.(troves := s.troves[i := t],
       totalStakes := s.totalStakes - was.stake + t.stake,
       activeETH := s.activeETH - was.coll + t.coll,
       activeDebt := s.activeDebt - was.debt + t.debt)
  }

  /** Takes a Trove's pending rewards out of the default pool, which reverts when they are not there. */
  function MoveOut(s: System, t: Trove): (r: Result<System>)
    ensures r.Ok? && Accounted(s) ==> Accounted(r.value)
  {
    if PendingETH(s, t) > s.defaultETH || PendingDebt(s, t) > s.defaultDebt then Err
    else Ok(s.(defaultETH := s.defaultETH - PendingETH(s, t), defaultDebt := s.defaultDebt - PendingDebt(s, t)))
  }

  /** `_hasPendingRewards`, which looks at the collateral only. */
  predicate HasPending(s: System, t: Trove) {
    t.atETH < s.ethPerStake
  }

  /** `_applyPendingRewards` */
  function ApplyPending(s: System, i: nat): (r: Result<System>)
    requires Accounted(s) && i < |s.troves|
    ensures r.Ok? ==> Accounted(r.value) && |r.value.troves| == |s.troves|
  {
    var t := s.troves[i];
    if !HasPending(s, t) then Ok(s)
    else
      match MoveOut(s, t)
      case Err => Err
      case Ok(m) =>
        Ok(Record(m, i, Trove(t.coll + PendingETH(s, t), t.debt + PendingDebt(s, t), t.stake,
                              s.ethPerStake, s.debtPerStake)))
  }

  /** A liquidated Trove: all of its pending rewards are moved, its stake is removed and it is closed. */
  function Seize(s: System, i: nat): (r: Result<System>)
    requires Accounted(s) && i < |s.troves|
    ensures r.Ok? ==> Accounted(r.value) && |r.value.troves| == |s.troves|
  {
    match MoveOut(s, s.troves[i])
    case Err => Err
    case Ok(m) => Ok(Record(m, i, NoTrove))
  }

  function SeizeAll(s: System, victims: seq<nat>): (r: Result<System>)
    requires Accounted(s) && forall v :: v in victims ==> v < |s.troves|
    ensures r.Ok? ==> Accounted(r.value) && |r.value.troves| == |s.troves|
  {
    if victims == [] then Ok(s)
    else
      var n := |victims| - 1;
      assert forall v :: v in victims[..n] ==> v in victims;
      assert victims[n] in victims;
      match SeizeAll(s, victims[..n])
      case Err => Err
      case Ok(m) => Seize(m, victims[n])
  }

  /** `_redistributeDebtAndColl`, which returns at once when there is no debt to pass on. */
  function Redistribute(s: System, coll: nat, debt: nat): (r: System)
    requires debt > 0 ==> s.totalStakes > 0
    ensures Accounted(s) ==> Accounted(r)
  {
    if debt == 0 then s
    else
      var e, d := coll * DECIMAL_PRECISION + s.ethError, debt * DECIMAL_PRECISION + s.debtError;
      s.(ethPerStake := s.ethPerStake + Quotient(e, s.totalStakes),
         debtPerStake := s.debtPerStake + Quotient(d, s.totalStakes),
         ethError := e % s.totalStakes,
         debtError := d % s.totalStakes,
         defaultETH := s.defaultETH + coll,
         defaultDebt := s.defaultDebt + debt)
  }

  /** `_updateSystemSnapshots_excludeCollRemainder` */
  function Snapshot(s: System): (r: System)
    ensures Accounted(s) ==> Accounted(r)
  {
    s.(stakesSnapshot := s.totalStakes, collSnapshot := s.activeETH + s.defaultETH)
  }

  datatype Op =
    | Open(i: nat, coll: nat, debt: nat)
    | Adjust(i: nat, coll: nat, debt: nat)
    | Close(i: nat)
    | Liquidate(victims: seq<nat>, coll: nat, debt: nat)

  /** The assertion in `_computeNewStake`. */
  predicate SnapshotsUsable(s: System) {
    s.collSnapshot > 0 ==> s.stakesSnapshot > 0
  }

  /**
   A liquidation closes some debt.  Part of what the victims had is passed
   on, which takes stakes to divide by; without debt nothing is.
   */
  predicate CanPassOn(s: System, left: System, coll: nat, debt: nat) {
    && left.activeDebt + left.defaultDebt < s.activeDebt + s.defaultDebt
    && (debt > 0 ==> left.totalStakes > 0)
    && left.activeETH + left.defaultETH + coll <= s.activeETH + s.defaultETH
    && left.activeDebt + left.defaultDebt + debt <= s.activeDebt + s.defaultDebt
    && (debt == 0 ==> coll == 0)
  }

  /**
   One transaction.  Adjusting stands for partial redemption too, and closing
   for full redemption.  What a liquidation does not pass on goes to the
   Stability Pool, to the liquidator or to the owner's surplus.
   */
  function Step(s: System, op: Op): (r: Result<System>)
    requires Accounted(s)
    ensures r.Ok? ==> Accounted(r.value) && |r.value.troves| == |s.troves|
  {
    match op
    case Open(i, coll, debt) =>
      if i >= |s.troves| || s.troves[i] != NoTrove || !SnapshotsUsable(s) then Err
      else Ok(Record(s, i, Trove(coll, debt, NewStake(s, coll), s.ethPerStake, s.debtPerStake)))
    case Adjust(i, coll, debt) =>
      if i >= |s.troves| || s.troves[i] == NoTrove || !SnapshotsUsable(s) then Err
      else
        (match ApplyPending(s, i)
         case Err => Err
         case Ok(m) => Ok(Record(m, i, m.troves[i].(coll := coll, debt := debt, stake := NewStake(m, coll)))))
    case Close(i) =>
      if i >= |s.troves| || s.troves[i] == NoTrove then Err
      else
        (match ApplyPending(s, i)
         case Err => Err
         case Ok(m) => Ok(Record(m, i, NoTrove)))
    case Liquidate(victims, coll, debt) =>
      if exists v :: v in victims && v >= |s.troves| then Err
      else
        match SeizeAll(s, victims)
        case Err => Err
        case Ok(left) =>
          if CanPassOn(s, left, coll, debt) then Ok(Snapshot(Redistribute(left, coll, debt))) else Err
  }

  // ----- What is pending is held

  /** Snapshots of the running totals were taken in the past. */
  predicate InPast(s: System) {
    forall t :: t in s.troves ==> t.atETH <= s.ethPerStake && t.atDebt <= s.debtPerStake
  }

  /** All shares of an amount and the error carried on, in units of 10^-18, are covered by what is held. */
  predicate Covers(held: nat, shares: nat, error: nat) {
    shares + error <= DECIMAL_PRECISION * held
  }

  /** All pending collateral, untruncated and with the carried error, is in the default pool. */
  predicate EthHeld(s: System) {
    Covers(s.defaultETH, Sum(EthShare(s.ethPerStake), s.troves), s.ethError)
  }

  predicate DebtHeld(s: System) {
    Covers(s.defaultDebt, Sum(DebtShare(s.debtPerStake), s.troves), s.debtError)
  }

  ghost predicate Valid(s: System) {
    Accounted(s) && InPast(s) && EthHeld(s)
  }

  /** Moving out the truncated share of one Trove, and no more than its share, keeps the others covered. */
  lemma CoversAfterMove(held: nat, shares: nat, error: nat, share: nat, left: nat)
    requires Covers(held, shares, error) && left + share <= shares
    ensures Truncated(share) <= held
    ensures Covers(held - Truncated(share), left, error)
  {
    DivBounds(share, DECIMAL_PRECISION);
    DivAtLeast(share, DECIMAL_PRECISION, held + 1);
  }

  /** The shares of a redistribution and its remainder add up to what was passed on and the old remainder. */
  lemma CoversAfterGain(held: nat, shares: nat, shares': nat, error: nat, stakes: nat, amount: nat)
    requires stakes > 0 && Covers(held, shares, error)
    requires shares' == shares + Quotient(amount * DECIMAL_PRECISION + error, stakes) * stakes
    ensures Covers(held + amount, shares', (amount * DECIMAL_PRECISION + error) % stakes)
  {
    var n := amount * DECIMAL_PRECISION + error;
    assert n == Quotient(n, stakes) * stakes + n % stakes;
  }

  lemma ShareGrows(stake: nat, at: nat, perStake: nat, q: nat)
    requires at <= perStake
    ensures Share(stake, at, perStake + q) == Share(stake, at, perStake) + q * stake
  {
    assert stake * (perStake + q - at) == stake * (perStake - at) + q * stake;
  }

  lemma EthSharesGrow(s: System, q: nat)
    requires Accounted(s) && InPast(s)
    ensures Sum(EthShare(s.ethPerStake + q), s.troves)
         == Sum(EthShare(s.ethPerStake), s.troves) + q * s.totalStakes
  {
    forall t | t in s.troves
      ensures EthShare(s.ethPerStake + q)(t) == EthShare(s.ethPerStake)(t) + q * t.stake
    {
      ShareGrows(t.stake, t.atETH, s.ethPerStake, q);
    }
    SumGrows(EthShare(s.ethPerStake), EthShare(s.ethPerStake + q), s.troves, q);
  }

  lemma DebtSharesGrow(s: System, q: nat)
    requires Accounted(s) && InPast(s)
    ensures Sum(DebtShare(s.debtPerStake + q), s.troves)
         == Sum(DebtShare(s.debtPerStake), s.troves) + q * s.totalStakes
  {
    forall t | t in s.troves
      ensures DebtShare(s.debtPerStake + q)(t) == DebtShare(s.debtPerStake)(t) + q * t.stake
    {
      ShareGrows(t.stake, t.atDebt, s.debtPerStake, q);
    }
    SumGrows(DebtShare(s.debtPerStake), DebtShare(s.debtPerStake + q), s.troves, q);
  }

  /** A record whose shares are no larger than before, after its old shares were moved out or not. */
  lemma RecordKeepsHeld(s: System, m: System, i: nat, t: Trove)
    requires Accounted(m) && i < |s.troves| && m.troves == s.troves
    requires m == s || MoveOut(s, s.troves[i]) == Ok(m)
    requires InPast(s) && t.atETH <= s.ethPerStake && t.atDebt <= s.debtPerStake
    ensures InPast(Record(m, i, t))
    ensures EthHeld(s) && EthShare(s.ethPerStake)(t) == 0 ==> EthHeld(Record(m, i, t))
    ensures DebtHeld(s) && DebtShare(s.debtPerStake)(t) == 0 ==> DebtHeld(Record(m, i, t))
  {
    var was := s.troves[i];
    SumUpdate(EthShare(s.ethPerStake), s.troves, i, t);
    SumUpdate(DebtShare(s.debtPerStake), s.troves, i, t);
    if EthHeld(s) && EthShare(s.ethPerStake)(t) == 0 {
      CoversAfterMove(s.defaultETH, Sum(EthShare(s.ethPerStake), s.troves), s.ethError,
                      EthShare(s.ethPerStake)(was), Sum(EthShare(s.ethPerStake), s.troves[i := t]));
    }
    if DebtHeld(s) && DebtShare(s.debtPerStake)(t) == 0 {
      CoversAfterMove(s.defaultDebt, Sum(DebtShare(s.debtPerStake), s.troves), s.debtError,
                      DebtShare(s.debtPerStake)(was), Sum(DebtShare(s.debtPerStake), s.troves[i := t]));
    }
  }

  // ----- Steps

  /** The collateral that is pending for a Trove, alone or with all others, is in the default pool. */
  lemma PendingEthIsHeld(s: System, i: nat)
    requires EthHeld(s) && i < |s.troves|
    ensures PendingETH(s, s.troves[i]) <= s.defaultETH
  {
    SumUpdate(EthShare(s.ethPerStake), s.troves, i, s.troves[i]);
    CoversAfterMove(s.defaultETH, Sum(EthShare(s.ethPerStake), s.troves), s.ethError,
                    EthShare(s.ethPerStake)(s.troves[i]), 0);
  }

  lemma PendingDebtIsHeld(s: System, i: nat)
    requires DebtHeld(s) && i < |s.troves|
    ensures PendingDebt(s, s.troves[i]) <= s.defaultDebt
  {
    SumUpdate(DebtShare(s.debtPerStake), s.troves, i, s.troves[i]);
    CoversAfterMove(s.defaultDebt, Sum(DebtShare(s.debtPerStake), s.troves), s.debtError,
                    DebtShare(s.debtPerStake)(s.troves[i]), 0);
  }

  /** A Trove whose pending debt is overlooked, because no collateral is pending with it. */
  predicate Lagging(s: System, t: Trove) {
    t != NoTrove && t.atETH == s.ethPerStake && t.atDebt < s.debtPerStake
  }

  lemma ShareIsZero(stake: nat, at: nat, perStake: nat)
    requires at == perStake || stake == 0
    ensures Share(stake, at, perStake) == 0
  {
  }

  /** Recording a Trove that is up to date, or gone, after its rewards were moved out or not. */
  lemma RecordKeepsValid(s: System, m: System, i: nat, t: Trove)
    requires Valid(s) && Accounted(m) && i < |s.troves| && m.troves == s.troves
    requires m == s || MoveOut(s, s.troves[i]) == Ok(m)
    requires t == NoTrove || (t.atETH == s.ethPerStake && t.atDebt <= s.debtPerStake)
    ensures Valid(Record(m, i, t))
    ensures DebtHeld(s) && (t == NoTrove || t.atDebt == s.debtPerStake) ==> DebtHeld(Record(m, i, t))
  {
    ShareIsZero(t.stake, t.atETH, s.ethPerStake);
    if t == NoTrove || t.atDebt == s.debtPerStake {
      ShareIsZero(t.stake, t.atDebt, s.debtPerStake);
    }
    RecordKeepsHeld(s, m, i, t);
  }

  lemma ApplyPendingKeepsValid(s: System, i: nat)
    requires Valid(s) && i < |s.troves| && ApplyPending(s, i).Ok?
    ensures var m := ApplyPending(s, i).value;
            && Valid(m) && m.troves[i].atETH == m.ethPerStake == s.ethPerStake
            && m.troves[i].atDebt <= m.debtPerStake == s.debtPerStake
            && (DebtHeld(s) ==> DebtHeld(m))
            && (s.troves[i] != NoTrove && !Lagging(s, s.troves[i]) ==> m.troves[i].atDebt == m.debtPerStake)
  {
    var t := s.troves[i];
    assert t in s.troves;
    if HasPending(s, t) {
      RecordKeepsValid(s, MoveOut(s, t).value, i,
                       Trove(t.coll + PendingETH(s, t), t.debt + PendingDebt(s, t), t.stake, s.ethPerStake,
                             s.debtPerStake));
    }
  }

  /** A seizure touches one Trove and leaves the running totals alone. */
  ghost predicate OnlyGone(s: System, m: System, gone: seq<nat>) {
    && m.ethPerStake == s.ethPerStake && m.debtPerStake == s.debtPerStake
    && m.ethError == s.ethError && m.debtError == s.debtError && |m.troves| == |s.troves|
    && forall j :: 0 <= j < |s.troves| && j !in gone ==> m.troves[j] == s.troves[j]
  }

  lemma SeizeKeepsValid(s: System, i: nat)
    requires Valid(s) && i < |s.troves| && Seize(s, i).Ok?
    ensures var m := Seize(s, i).value;
            Valid(m) && (DebtHeld(s) ==> DebtHeld(m)) && OnlyGone(s, m, [i])
  {
    RecordKeepsValid(s, MoveOut(s, s.troves[i]).value, i, NoTrove);
  }

  lemma {:induction false} SeizeAllKeepsValid(s: System, victims: seq<nat>)
    requires Valid(s) && (forall v :: v in victims ==> v < |s.troves|) && SeizeAll(s, victims).Ok?
    ensures var m := SeizeAll(s, victims).value;
            Valid(m) && (DebtHeld(s) ==> DebtHeld(m)) && OnlyGone(s, m, victims)
  {
    if victims != [] {
      var n := |victims| - 1;
      assert forall v :: v in victims[..n] ==> v in victims;
      assert victims[n] in victims;
      SeizeAllKeepsValid(s, victims[..n]);
      SeizeKeepsValid(SeizeAll(s, victims[..n]).value, victims[n]);
    }
  }

  /** The collateral passed on is too little to be shared, and the debt is not. */
  predicate LosesShare(s: System, coll: nat, debt: nat) {
    coll * DECIMAL_PRECISION + s.ethError < s.totalStakes <= debt * DECIMAL_PRECISION + s.debtError && debt > 0
  }

  lemma QuotientIsZeroIff(n: nat, d: nat)
    requires d > 0
    ensures Quotient(n, d) == 0 <==> n < d
  {
    DivAtLeast(n, d, 1);
  }

  lemma RedistributeKeepsEthHeld(s: System, coll: nat, debt: nat)
    requires Accounted(s) && InPast(s) && EthHeld(s) && s.totalStakes > 0 && debt > 0
    ensures EthHeld(Redistribute(s, coll, debt))
  {
    var q := Quotient(coll * DECIMAL_PRECISION + s.ethError, s.totalStakes);
    EthSharesGrow(s, q);
    CoversAfterGain(s.defaultETH, Sum(EthShare(s.ethPerStake), s.troves), Sum(EthShare(s.ethPerStake + q), s.troves),
                    s.ethError, s.totalStakes, coll);
  }

  lemma RedistributeKeepsDebtHeld(s: System, coll: nat, debt: nat)
    requires Accounted(s) && InPast(s) && DebtHeld(s) && s.totalStakes > 0 && debt > 0
    ensures DebtHeld(Redistribute(s, coll, debt))
  {
    var q := Quotient(debt * DECIMAL_PRECISION + s.debtError, s.totalStakes);
    DebtSharesGrow(s, q);
    CoversAfterGain(s.defaultDebt, Sum(DebtShare(s.debtPerStake), s.troves),
                    Sum(DebtShare(s.debtPerStake + q), s.troves),
                    s.debtError, s.totalStakes, debt);
  }

  lemma RedistributeKeepsValid(s: System, coll: nat, debt: nat)
    requires Valid(s) && (debt > 0 ==> s.totalStakes > 0)
    ensures var r := Redistribute(s, coll, debt);
            Valid(r) && (DebtHeld(s) ==> DebtHeld(r))
            && r.troves == s.troves && r.ethPerStake >= s.ethPerStake && r.debtPerStake >= s.debtPerStake
  {
    if debt > 0 {
      RedistributeKeepsEthHeld(s, coll, debt);
      if DebtHeld(s) {
        RedistributeKeepsDebtHeld(s, coll, debt);
      }
    }
  }

  /** A redistribution leaves an open Trove lagging if and only if it lost its share of the collateral only. */
  lemma LagsIffShareLost(s: System, coll: nat, debt: nat, t: Trove)
    requires Valid(s) && (debt > 0 ==> s.totalStakes > 0) && t in s.troves && t != NoTrove
    requires t.atETH == s.ethPerStake && t.atDebt == s.debtPerStake
    ensures Lagging(Redistribute(s, coll, debt), t) <==> LosesShare(s, coll, debt)
  {
    if debt > 0 {
      QuotientIsZeroIff(coll * DECIMAL_PRECISION + s.ethError, s.totalStakes);
      QuotientIsZeroIff(debt * DECIMAL_PRECISION + s.debtError, s.totalStakes);
    }
  }

  lemma AdjustKeepsValid(s: System, i: nat, coll: nat, debt: nat)
    requires Valid(s) && Step(s, Adjust(i, coll, debt)).Ok?
    ensures var r := Step(s, Adjust(i, coll, debt)).value;
            Valid(r) && (!Lagging(s, s.troves[i]) && DebtHeld(s) ==> DebtHeld(r))
  {
    ApplyPendingKeepsValid(s, i);
    var m := ApplyPending(s, i).value;
    RecordKeepsValid(m, m, i, m.troves[i].(coll := coll, debt := debt, stake := NewStake(m, coll)));
  }

  lemma StepKeepsValid(s: System, op: Op)
    requires Valid(s) && Step(s, op).Ok?
    ensures Valid(Step(s, op).value)
    ensures Step(s, op).value.ethPerStake >= s.ethPerStake && Step(s, op).value.debtPerStake >= s.debtPerStake
  {
    match op
    case Open(i, coll, debt) =>
      RecordKeepsValid(s, s, i, Trove(coll, debt, NewStake(s, coll), s.ethPerStake, s.debtPerStake));
    case Adjust(i, coll, debt) => AdjustKeepsValid(s, i, coll, debt);
    case Close(i) =>
      ApplyPendingKeepsValid(s, i);
      RecordKeepsValid(ApplyPending(s, i).value, ApplyPending(s, i).value, i, NoTrove);
    case Liquidate(victims, coll, debt) =>
      SeizeAllKeepsValid(s, victims);
      RedistributeKeepsValid(SeizeAll(s, victims).value, coll, debt);
  }

  // ----- Runs

  /** The system after the given transactions; reverted ones change nothing. */
  function Run(s: System, ops: seq<Op>): (r: System)
    requires Valid(s)
    ensures Valid(r) && |r.troves| == |s.troves|
    ensures r.ethPerStake >= s.ethPerStake && r.debtPerStake >= s.debtPerStake
  {
    if ops == [] then s
    else
      var m := Run(s, ops[..|ops| - 1]);
      var r := Step(m, ops[|ops| - 1]);
      if r.Ok? then
        StepKeepsValid(m, ops[|ops| - 1]);
        r.value
      else m
  }

  lemma InitialIsValid(n: nat)
    ensures Valid(Initial(n)) && DebtHeld(Initial(n)) && SnapshotsUsable(Initial(n))
  {
    var s := Initial(n);
    assert forall i :: 0 <= i < n ==> s.troves[i] == NoTrove;
    SumOfZeros(StakeOf, s.troves);
    SumOfZeros(RecordedColl, s.troves);
    SumOfZeros(RecordedDebt, s.troves);
    SumOfZeros(EthShare(0), s.troves);
    SumOfZeros(DebtShare(0), s.troves);
  }

  /** The system after transactions from the start, with n numbers for Troves. */
  function Reached(n: nat, ops: seq<Op>): (r: System)
    ensures Valid(r) && |r.troves| == n
  {
    InitialIsValid(n);
    Run(Initial(n), ops)
  }
}
