/**
 What every transaction does to the Troves and the pools: which amounts a
 Trove has afterwards, what the pools pay or receive for it, and that
 nothing changes for anyone else.
 */
module RedistributionSteps {
  import opened Arithmetic
  import opened Redistribution
  import opened RedistributionSafety

  /** All collateral in the two pools. */
  function AllETH(s: System): nat {
    s.activeETH + s.defaultETH
  }

  function AllDebt(s: System): nat {
    s.activeDebt + s.defaultDebt
  }

  /** Nothing else changes than the Trove with the given number, and the pools. */
  ghost predicate OnlyTouches(s: System, r: System, i: nat) {
    && i < |s.troves| == |r.troves|
    && (forall j :: 0 <= j < |s.troves| && j != i ==> r.troves[j] == s.troves[j])
    && r.ethPerStake == s.ethPerStake && r.debtPerStake == s.debtPerStake
    && r.ethError == s.ethError && r.debtError == s.debtError
    && r.stakesSnapshot == s.stakesSnapshot && r.collSnapshot == s.collSnapshot
  }

  lemma OthersKeepTheirAmounts(s: System, r: System, i: nat, t: Trove)
    requires OnlyTouches(s, r, i)
    ensures CurrentColl(r, t) == CurrentColl(s, t) && CurrentDebt(r, t) == CurrentDebt(s, t)
  {
  }

  // ----- Applying rewards

  /** Applying a Trove's rewards changes neither what it has nor what the two pools hold together. */
  lemma ApplyPendingLaws(s: System, i: nat)
    requires Valid(s) && i < |s.troves| && ApplyPending(s, i).Ok?
    ensures var m := ApplyPending(s, i).value;
            && OnlyTouches(s, m, i) && m.troves[i].stake == s.troves[i].stake && m.totalStakes == s.totalStakes
            && CurrentColl(m, m.troves[i]) == CurrentColl(s, s.troves[i]) == m.troves[i].coll
            && CurrentDebt(m, m.troves[i]) == CurrentDebt(s, s.troves[i])
            && AllETH(m) == AllETH(s) && AllDebt(m) == AllDebt(s)
  {
    var t := s.troves[i];
    assert t in s.troves;
    ShareIsZero(t.stake, s.ethPerStake, s.ethPerStake);
    ShareIsZero(t.stake, s.debtPerStake, s.debtPerStake);
    DivUnique(0, DECIMAL_PRECISION, 0);
    if HasPending(s, t) {
      SumUpdate(RecordedColl, s.troves, i, t);
      SumUpdate(RecordedDebt, s.troves, i, t);
      SumUpdate(StakeOf, s.troves, i, t);
    }
  }

  /** It reverts if and only if rewards that it would move are not in the default pool. */
  lemma ApplyPendingRevertsIff(s: System, i: nat)
    requires Valid(s) && i < |s.troves|
    ensures ApplyPending(s, i).Err? <==> HasPending(s, s.troves[i]) && PendingDebt(s, s.troves[i]) > s.defaultDebt
  {
    PendingEthIsHeld(s, i);
  }

  // ----- Opening, adjusting and closing

  lemma RecordedNow(s: System, t: Trove)
    ensures t.atETH == s.ethPerStake ==> CurrentColl(s, t) == t.coll
    ensures t.atDebt == s.debtPerStake ==> CurrentDebt(s, t) == t.debt
  {
    DivUnique(0, DECIMAL_PRECISION, 0);
    if t.atETH == s.ethPerStake {
      ShareIsZero(t.stake, t.atETH, s.ethPerStake);
    }
    if t.atDebt == s.debtPerStake {
      ShareIsZero(t.stake, t.atDebt, s.debtPerStake);
    }
  }

  lemma NothingIsNothing(s: System)
    ensures CurrentColl(s, NoTrove) == CurrentDebt(s, NoTrove) == 0
  {
    ShareIsZero(0, 0, s.ethPerStake);
    ShareIsZero(0, 0, s.debtPerStake);
    DivUnique(0, DECIMAL_PRECISION, 0);
  }

  lemma RecordLaws(s: System, i: nat, t: Trove)
    requires Accounted(s) && i < |s.troves|
    ensures var r := Record(s, i, t);
            && OnlyTouches(s, r, i) && r.troves[i] == t
            && r.totalStakes == s.totalStakes - s.troves[i].stake + t.stake
            && r.activeETH == s.activeETH - s.troves[i].coll + t.coll && r.defaultETH == s.defaultETH
            && r.activeDebt == s.activeDebt - s.troves[i].debt + t.debt && r.defaultDebt == s.defaultDebt
  {
  }

  /** An opened Trove has the amounts it was opened with, and the pools have as much more. */
  lemma OpenLaws(s: System, i: nat, coll: nat, debt: nat)
    requires Valid(s)
    ensures Step(s, Open(i, coll, debt)).Ok? <==> i < |s.troves| && s.troves[i] == NoTrove && SnapshotsUsable(s)
    ensures Step(s, Open(i, coll, debt)).Ok? ==>
              var r := Step(s, Open(i, coll, debt)).value;
              && OnlyTouches(s, r, i) && r.troves[i].stake == NewStake(s, coll)
              && r.totalStakes == s.totalStakes + NewStake(s, coll)
              && CurrentColl(r, r.troves[i]) == coll && CurrentDebt(r, r.troves[i]) == debt
              && AllETH(r) == AllETH(s) + coll && AllDebt(r) == AllDebt(s) + debt
  {
    if Step(s, Open(i, coll, debt)).Ok? {
      var t := Trove(coll, debt, NewStake(s, coll), s.ethPerStake, s.debtPerStake);
      RecordLaws(s, i, t);
      RecordedNow(Record(s, i, t), t);
    }
  }

  /** The debt that closing or adjusting settles: all of it, except what is overlooked. */
  function SettledDebt(s: System, t: Trove): nat {
    if Lagging(s, t) then t.debt else CurrentDebt(s, t)
  }

  /** What applying leaves on record is all collateral, and all debt that is not overlooked. */
  lemma AppliedIsSettled(s: System, i: nat)
    requires Valid(s) && i < |s.troves| && s.troves[i] != NoTrove && ApplyPending(s, i).Ok?
    ensures var m := ApplyPending(s, i).value;
            && m.troves[i].coll == CurrentColl(s, s.troves[i]) && m.troves[i].debt == SettledDebt(s, s.troves[i])
            && m.troves[i].atETH == s.ethPerStake
            && (!Lagging(s, s.troves[i]) ==> m.troves[i].atDebt == s.debtPerStake)
  {
    ApplyPendingLaws(s, i);
    ApplyPendingKeepsValid(s, i);
    var m := ApplyPending(s, i).value;
    RecordedNow(m, m.troves[i]);
  }

  /**
   An adjusted Trove has the amounts it was adjusted to, and the pools differ
   by as much; debt that is overlooked stays pending, and in the pool.
   */
  lemma AdjustLaws(s: System, i: nat, coll: nat, debt: nat)
    requires Valid(s)
    ensures Step(s, Adjust(i, coll, debt)).Ok? <==>
            i < |s.troves| && s.troves[i] != NoTrove && SnapshotsUsable(s) && ApplyPending(s, i).Ok?
    ensures Step(s, Adjust(i, coll, debt)).Ok? ==>
              var r, t := Step(s, Adjust(i, coll, debt)).value, s.troves[i];
              && OnlyTouches(s, r, i) && r.troves[i].stake == NewStake(s, coll)
              && r.totalStakes == s.totalStakes - t.stake + NewStake(s, coll)
              && CurrentColl(r, r.troves[i]) == coll && r.troves[i].debt == debt
              && (!Lagging(s, t) ==> CurrentDebt(r, r.troves[i]) == debt)
              && AllETH(r) == AllETH(s) - CurrentColl(s, t) + coll
              && AllDebt(r) == AllDebt(s) - SettledDebt(s, t) + debt
  {
    if Step(s, Adjust(i, coll, debt)).Ok? {
      ApplyPendingLaws(s, i);
      AppliedIsSettled(s, i);
      var m := ApplyPending(s, i).value;
      var t := m.troves[i].(coll := coll, debt := debt, stake := NewStake(m, coll));
      RecordLaws(m, i, t);
      RecordedNow(Record(m, i, t), t);
    }
  }

  /** A closed Trove is gone, and the pools have paid out what it had; debt that is overlooked stays in the pool. */
  lemma CloseLaws(s: System, i: nat)
    requires Valid(s)
    ensures Step(s, Op.Close(i)).Ok? <==> i < |s.troves| && s.troves[i] != NoTrove && ApplyPending(s, i).Ok?
    ensures Step(s, Op.Close(i)).Ok? ==>
              var r, t := Step(s, Op.Close(i)).value, s.troves[i];
              && OnlyTouches(s, r, i) && r.troves[i] == NoTrove && r.totalStakes == s.totalStakes - t.stake
              && AllETH(r) == AllETH(s) - CurrentColl(s, t) && AllDebt(r) == AllDebt(s) - SettledDebt(s, t)
  {
    if Step(s, Op.Close(i)).Ok? {
      ApplyPendingLaws(s, i);
      AppliedIsSettled(s, i);
      RecordLaws(ApplyPending(s, i).value, i, NoTrove);
    }
  }

  // ----- Liquidating

  /** The sum over all victims, each taken once. */
  function Seized(f: nat -> nat, victims: seq<nat>): nat {
    if victims == [] then 0
    else
      var n := |victims| - 1;
      Seized(f, victims[..n]) + if victims[n] in victims[..n] then 0 else f(victims[n])
  }

  function CollOf(s: System): nat -> nat {
    (v: nat) => if v < |s.troves| then CurrentColl(s, s.troves[v]) else 0
  }

  function DebtOf(s: System): nat -> nat {
    (v: nat) => if v < |s.troves| then CurrentDebt(s, s.troves[v]) else 0
  }

  function StakeAt(s: System): nat -> nat {
    (v: nat) => if v < |s.troves| then s.troves[v].stake else 0
  }

  lemma SeizeLaws(s: System, i: nat)
    requires Valid(s) && i < |s.troves| && Seize(s, i).Ok?
    ensures var m, t := Seize(s, i).value, s.troves[i];
            && OnlyTouches(s, m, i) && m.troves[i] == NoTrove && m.totalStakes == s.totalStakes - t.stake
            && AllETH(m) == AllETH(s) - CurrentColl(s, t) && AllDebt(m) == AllDebt(s) - CurrentDebt(s, t)
  {
    RecordLaws(MoveOut(s, s.troves[i]).value, i, NoTrove);
  }

  /** The victims are gone, and the others and the running totals untouched. */
  ghost predicate AreGone(s: System, m: System, victims: seq<nat>) {
    && |m.troves| == |s.troves|
    && (forall j :: 0 <= j < |s.troves| ==> m.troves[j] == if j in victims then NoTrove else s.troves[j])
    && m.ethPerStake == s.ethPerStake && m.debtPerStake == s.debtPerStake
    && m.ethError == s.ethError && m.debtError == s.debtError
  }

  /** After seizing, the victims are gone and the pools lack what they had. */
  ghost predicate IsSeizure(s: System, m: System, victims: seq<nat>) {
    && AreGone(s, m, victims)
    && AllETH(m) + Seized(CollOf(s), victims) == AllETH(s)
    && AllDebt(m) + Seized(DebtOf(s), victims) == AllDebt(s)
    && m.totalStakes + Seized(StakeAt(s), victims) == s.totalStakes
  }

  lemma SeizedOneMore(f: nat -> nat, victims: seq<nat>, v: nat)
    ensures Seized(f, victims + [v]) == Seized(f, victims) + if v in victims then 0 else f(v)
  {
    assert (victims + [v])[..|victims|] == victims;
  }

  /** What is seized next is what the Trove had at first, or nothing if it is gone already. */
  lemma SeizedNow(s: System, m: System, victims: seq<nat>, v: nat)
    requires AreGone(s, m, victims) && v < |s.troves|
    ensures CurrentColl(m, m.troves[v]) == if v in victims then 0 else CollOf(s)(v)
    ensures CurrentDebt(m, m.troves[v]) == if v in victims then 0 else DebtOf(s)(v)
    ensures m.troves[v].stake == if v in victims then 0 else StakeAt(s)(v)
  {
    NothingIsNothing(m);
  }

  lemma OneMoreIsGone(s: System, m: System, r: System, victims: seq<nat>, v: nat)
    requires AreGone(s, m, victims) && OnlyTouches(m, r, v) && r.troves[v] == NoTrove
    ensures AreGone(s, r, victims + [v])
  {
  }

  lemma SeizureOneMore(s: System, m: System, victims: seq<nat>, v: nat)
    requires Valid(m) && IsSeizure(s, m, victims) && v < |s.troves| && Seize(m, v).Ok?
    ensures IsSeizure(s, Seize(m, v).value, victims + [v])
  {
    SeizeLaws(m, v);
    SeizedNow(s, m, victims, v);
    OneMoreIsGone(s, m, Seize(m, v).value, victims, v);
    SeizedOneMore(CollOf(s), victims, v);
    SeizedOneMore(DebtOf(s), victims, v);
    SeizedOneMore(StakeAt(s), victims, v);
  }

  ghost predicate KeptBySeizing(seizure: (System, seq<nat>) -> bool, n: nat) {
    forall m: System, victims: seq<nat>, v: nat ::
      Valid(m) && v < n == |m.troves| && seizure(m, victims) && Seize(m, v).Ok? ==>
        seizure(Seize(m, v).value, victims + [v])
  }

  /** What holds before seizing anyone and is kept by seizing one more holds after seizing all. */
  lemma {:induction false} SeizeAllKeeps(seizure: (System, seq<nat>) -> bool, s: System, victims: seq<nat>)
    requires Valid(s) && (forall v :: v in victims ==> v < |s.troves|) && SeizeAll(s, victims).Ok?
    requires seizure(s, []) && KeptBySeizing(seizure, |s.troves|)
    ensures seizure(SeizeAll(s, victims).value, victims)
  {
    if victims != [] {
      var n := |victims| - 1;
      assert forall v :: v in victims[..n] ==> v in victims;
      assert victims[n] in victims;
      SeizeAllKeeps(seizure, s, victims[..n]);
      SeizeAllKeepsValid(s, victims[..n]);
      assert victims[..n] + [victims[n]] == victims;
    }
  }

  lemma SeizeAllLaws(s: System, victims: seq<nat>)
    requires Valid(s) && (forall v :: v in victims ==> v < |s.troves|) && SeizeAll(s, victims).Ok?
    ensures IsSeizure(s, SeizeAll(s, victims).value, victims)
  {
    var seizure := (m: System, gone: seq<nat>) => IsSeizure(s, m, gone);
    forall m: System, gone: seq<nat>, v: nat |
      Valid(m) && v < |s.troves| == |m.troves| && seizure(m, gone) && Seize(m, v).Ok?
      ensures seizure(Seize(m, v).value, gone + [v])
    {
      SeizureOneMore(s, m, gone, v);
    }
    SeizeAllKeeps(seizure, s, victims);
    assert seizure(SeizeAll(s, victims).value, victims);
  }

  /** The gain per unit staked is what with the errors carried in and out makes up the amount. */
  predicate IsShared(amount: nat, before: nat, stakes: nat, gain: int, after: nat) {
    gain >= 0 && gain * stakes + after == amount * DECIMAL_PRECISION + before && after < stakes
  }

  lemma QuotientIsShared(amount: nat, before: nat, stakes: nat)
    requires stakes > 0
    ensures var n := amount * DECIMAL_PRECISION + before;
            IsShared(amount, before, stakes, Quotient(n, stakes), n % stakes)
  {
    var n := amount * DECIMAL_PRECISION + before;
    assert n == Quotient(n, stakes) * stakes + n % stakes;
  }

  /** What is passed on goes to the default pool and is shared by all stakes; without debt nothing is. */
  ghost predicate IsRedistribution(m: System, r: System, coll: nat, debt: nat) {
    && r.troves == m.troves && r.totalStakes == m.totalStakes
    && AllETH(r) == AllETH(m) + coll && AllDebt(r) == AllDebt(m) + debt
    && if debt == 0 then
         && coll == 0 && r.ethPerStake == m.ethPerStake && r.debtPerStake == m.debtPerStake
         && r.ethError == m.ethError && r.debtError == m.debtError
       else
         && r.defaultETH == m.defaultETH + coll && r.defaultDebt == m.defaultDebt + debt
         && IsShared(coll, m.ethError, m.totalStakes, r.ethPerStake - m.ethPerStake, r.ethError)
         && IsShared(debt, m.debtError, m.totalStakes, r.debtPerStake - m.debtPerStake, r.debtError)
  }

  lemma RedistributeLaws(m: System, coll: nat, debt: nat)
    requires (debt > 0 ==> m.totalStakes > 0) && (debt == 0 ==> coll == 0)
    ensures IsRedistribution(m, Redistribute(m, coll, debt), coll, debt)
  {
    if debt > 0 {
      QuotientIsShared(coll, m.ethError, m.totalStakes);
      QuotientIsShared(debt, m.debtError, m.totalStakes);
    }
  }

  /** The snapshots are those of what is left. */
  ghost predicate IsSnapshot(r: System) {
    r.stakesSnapshot == r.totalStakes && r.collSnapshot == AllETH(r)
  }

  lemma PassedOn(m: System, coll: nat, debt: nat)
    requires (debt > 0 ==> m.totalStakes > 0) && (debt == 0 ==> coll == 0)
    ensures var r := Snapshot(Redistribute(m, coll, debt)); IsRedistribution(m, r, coll, debt) && IsSnapshot(r)
  {
    RedistributeLaws(m, coll, debt);
  }

  lemma AfterSteps(holds: (System, System, nat, nat) -> bool, s: System, op: Op, m: System)
    requires Accounted(s) && Step(s, op).Ok? && op.Liquidate? && (op.debt > 0 ==> m.totalStakes > 0)
    requires Step(s, op).value == Snapshot(Redistribute(m, op.coll, op.debt))
    requires holds(m, Snapshot(Redistribute(m, op.coll, op.debt)), op.coll, op.debt)
    ensures holds(m, Step(s, op).value, op.coll, op.debt)
  {
  }

  /**
   A liquidation seizes its victims, shares what it passes on among the
   stakes that are left, and takes the snapshots of what is left.
   */
  lemma LiquidateLaws(s: System, op: Op)
    requires Valid(s) && op.Liquidate? && Step(s, op).Ok?
    ensures var m, r := SeizeAll(s, op.victims).value, Step(s, op).value;
            IsSeizure(s, m, op.victims) && IsRedistribution(m, r, op.coll, op.debt) && IsSnapshot(r)
  {
    var m := SeizeAll(s, op.victims).value;
    LiquidationSteps(s, op);
    SeizeAllLaws(s, op.victims);
    PassedOn(m, op.coll, op.debt);
    AfterSteps(IsRedistribution, s, op, m);
  }
}
