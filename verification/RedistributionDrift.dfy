/**
 How far truncation lets stakes drift from collateral.  In every run there
 is a band, the same for all Troves, that holds the collateral per unit
 staked and moves with every redistribution.  With it the order of any two
 Troves, of whatever age, is kept across a gap.
 */
module RedistributionDrift {
  import opened Arithmetic
  import opened Redistribution
  import opened RedistributionSafety
  import opened RedistributionDust
  import opened RedistributionOrder

  datatype Band = Band(lo: real, hi: real)

  /** The collateral per unit staked that new stakes are computed with. */
  function Rate(s: System): real {
    if s.collSnapshot == 0 || s.stakesSnapshot == 0 then 1.0 else s.collSnapshot as real / s.stakesSnapshot as real
  }

  /** Collateral with its pending share, untruncated. */
  function ExactNow(t: Trove, perStake: nat): real {
    t.coll as real + Share(t.stake, t.atETH, perStake) as real / DECIMAL_PRECISION as real
  }

  /** Stakes of a number of Troves within the band; each may be short of the collateral by up to one unit. */
  predicate StakesInBand(exact: real, stakes: nat, count: nat, b: Band) {
    b.lo * stakes as real <= exact <= b.hi * (stakes as real + count as real)
  }

  predicate TroveInBand(t: Trove, perStake: nat, b: Band) {
    StakesInBand(ExactNow(t, perStake), t.stake, 1, b)
  }

  predicate AllInBand(ts: seq<Trove>, perStake: nat, b: Band) {
    forall t :: t in ts ==> TroveInBand(t, perStake, b)
  }

  predicate InBand(s: System, b: Band) {
    && 0.0 < b.lo <= b.hi && (SnapshotsUsable(s) ==> b.lo <= Rate(s) <= b.hi)
    && AllInBand(s.troves, s.ethPerStake, b)
  }

  // ----- Recording

  lemma QuotientBrackets(n: nat, d: nat)
    requires d > 0
    ensures Quotient(n, d) as real * d as real <= n as real < (Quotient(n, d) as real + 1.0) * d as real
  {
    DivBounds(n, d);
    assert (Quotient(n, d) * d) as real == Quotient(n, d) as real * d as real;
  }

  /** A stake computed with the snapshots brackets the collateral at their rate. */
  lemma NewStakeAtRate(s: System, coll: nat)
    requires SnapshotsUsable(s)
    ensures Rate(s) * NewStake(s, coll) as real <= coll as real <= Rate(s) * (NewStake(s, coll) as real + 1.0)
  {
    if s.collSnapshot > 0 {
      QuotientBrackets(coll * s.stakesSnapshot, s.collSnapshot);
      assert (coll * s.stakesSnapshot) as real == coll as real * s.stakesSnapshot as real;
      RateBrackets(coll as real, s.stakesSnapshot as real, s.collSnapshot as real, NewStake(s, coll) as real);
    }
  }

  lemma RateBrackets(coll: real, ts: real, tc: real, stake: real)
    requires ts > 0.0 && tc > 0.0 && stake * tc <= coll * ts < (stake + 1.0) * tc
    ensures tc / ts * stake <= coll <= tc / ts * (stake + 1.0)
  {
    var k := tc / ts;
    assert k * ts == tc;
    assert stake * tc == (k * stake) * ts;
    assert (stake + 1.0) * tc == (k * (stake + 1.0)) * ts;
    CancelReal(k * stake, coll, ts);
    CancelReal(coll, k * (stake + 1.0), ts);
  }

  lemma CancelReal(x: real, y: real, k: real)
    requires k > 0.0 && x * k <= y * k
    ensures x <= y
  {
    assert x * k / k == x && y * k / k == y;
  }

  lemma WiderBand(exact: real, stake: nat, rate: real, b: Band)
    requires b.lo <= rate <= b.hi && rate * stake as real <= exact <= rate * (stake as real + 1.0)
    ensures StakesInBand(exact, stake, 1, b)
  {
    RealMulMono(b.lo, rate, stake as real);
    RealMulMono(rate, b.hi, stake as real + 1.0);
  }

  /** A Trove recorded at present, with a stake computed at present, or gone. */
  lemma RecordInBand(s: System, t: Trove, b: Band)
    requires InBand(s, b)
    requires t == NoTrove || (SnapshotsUsable(s) && t.atETH == s.ethPerStake && t.stake == NewStake(s, t.coll))
    ensures TroveInBand(t, s.ethPerStake, b)
  {
    ShareIsZero(t.stake, t.atETH, s.ethPerStake);
    assert ExactNow(t, s.ethPerStake) == t.coll as real;
    if t != NoTrove {
      NewStakeAtRate(s, t.coll);
      WiderBand(t.coll as real, t.stake, Rate(s), b);
    }
  }

  // ----- Steps other than liquidations

  lemma SameTerms(s: System, op: Op)
    requires Valid(s) && Step(s, op).Ok? && !op.Liquidate?
    ensures var r := Step(s, op).value;
            && r.ethPerStake == s.ethPerStake
            && r.collSnapshot == s.collSnapshot && r.stakesSnapshot == s.stakesSnapshot
  {
  }

  lemma TouchedInBand(s: System, op: Op, i: nat, b: Band)
    requires Valid(s) && InBand(s, b) && Step(s, op).Ok? && !op.Liquidate? && i < |s.troves| && Touches(op, i)
    ensures var t := Step(s, op).value.troves[i]; TroveInBand(t, s.ethPerStake, b)
  {
    if op.Adjust? {
      ApplyPendingKeepsValid(s, i);
    }
    RecordInBand(s, Step(s, op).value.troves[i], b);
  }

  lemma RecordingKeepsBand(s: System, op: Op, b: Band)
    requires Valid(s) && InBand(s, b) && Step(s, op).Ok? && !op.Liquidate?
    ensures InBand(Step(s, op).value, b)
  {
    var r := Step(s, op).value;
    SameTerms(s, op);
    forall t | t in r.troves
      ensures TroveInBand(t, s.ethPerStake, b)
    {
      var k :| 0 <= k < |r.troves| && r.troves[k] == t;
      if Touches(op, k) {
        TouchedInBand(s, op, k, b);
      } else {
        StepLeavesOthers(s, op, k);
        assert t in s.troves;
      }
    }
  }

  // ----- Liquidations

  lemma SeizeKeepsBand(s: System, i: nat, b: Band)
    requires Valid(s) && InBand(s, b) && i < |s.troves| && Seize(s, i).Ok?
    ensures InBand(Seize(s, i).value, b)
  {
    var r := Seize(s, i).value;
    RecordInBand(s, NoTrove, b);
    forall t | t in r.troves
      ensures TroveInBand(t, s.ethPerStake, b)
    {
      var k :| 0 <= k < |r.troves| && r.troves[k] == t;
      assert t == NoTrove || t in s.troves;
    }
  }

  lemma {:induction false} SeizeAllKeepsBand(s: System, victims: seq<nat>, b: Band)
    requires Valid(s) && InBand(s, b) && (forall v :: v in victims ==> v < |s.troves|) && SeizeAll(s, victims).Ok?
    ensures InBand(SeizeAll(s, victims).value, b)
  {
    if victims != [] {
      var n := |victims| - 1;
      assert forall v :: v in victims[..n] ==> v in victims;
      assert victims[n] in victims;
      SeizeAllKeepsBand(s, victims[..n], b);
      SeizeAllKeepsValid(s, victims[..n]);
      SeizeKeepsBand(SeizeAll(s, victims[..n]).value, victims[n], b);
    }
  }

  function Raised(b: Band, e: real): Band {
    Band(b.lo + e, b.hi + e)
  }

  lemma ExactNowGrows(t: Trove, perStake: nat, q: nat)
    requires t.atETH <= perStake
    ensures ExactNow(t, perStake + q) == ExactNow(t, perStake) + t.stake as real * PerUnit(q)
  {
    ShareGrows(t.stake, t.atETH, perStake, q);
    assert (q * t.stake) as real == q as real * t.stake as real;
    AddQuotients(Share(t.stake, t.atETH, perStake) as real, q as real * t.stake as real, DECIMAL_PRECISION as real);
    assert q as real * t.stake as real / DECIMAL_PRECISION as real == t.stake as real * PerUnit(q);
  }

  lemma AddQuotients(x: real, y: real, d: real)
    requires d > 0.0
    ensures (x + y) / d == x / d + y / d
  {
  }

  lemma RaisedBand(exact: real, stake: nat, b: Band, e: real)
    requires StakesInBand(exact, stake, 1, b) && e >= 0.0
    ensures StakesInBand(exact + stake as real * e, stake, 1, Raised(b, e))
  {
    var s := stake as real;
    assert (b.lo + e) * s == b.lo * s + s * e;
    assert (b.hi + e) * (s + 1.0) == b.hi * (s + 1.0) + s * e + e;
  }

  lemma TroveRaised(t: Trove, perStake: nat, q: nat, b: Band)
    requires TroveInBand(t, perStake, b) && t.atETH <= perStake
    ensures TroveInBand(t, perStake + q, Raised(b, PerUnit(q)))
  {
    ExactNowGrows(t, perStake, q);
    RaisedBand(ExactNow(t, perStake), t.stake, b, PerUnit(q));
  }

  lemma AllRaised(ts: seq<Trove>, perStake: nat, q: nat, b: Band)
    requires AllInBand(ts, perStake, b) && forall t :: t in ts ==> t.atETH <= perStake
    ensures AllInBand(ts, perStake + q, Raised(b, PerUnit(q)))
  {
    forall t | t in ts
      ensures TroveInBand(t, perStake + q, Raised(b, PerUnit(q)))
    {
      TroveRaised(t, perStake, q, b);
    }
  }

  lemma HigherBand(exact: real, stake: nat, b: Band, hi: real)
    requires StakesInBand(exact, stake, 1, b) && b.hi <= hi
    ensures StakesInBand(exact, stake, 1, Band(b.lo, hi))
  {
    RealMulMono(b.hi, hi, stake as real + 1.0);
  }

  lemma AllHigher(ts: seq<Trove>, perStake: nat, b: Band, hi: real)
    requires AllInBand(ts, perStake, b) && b.hi <= hi
    ensures AllInBand(ts, perStake, Band(b.lo, hi))
  {
    forall t | t in ts
      ensures TroveInBand(t, perStake, Band(b.lo, hi))
    {
      HigherBand(ExactNow(t, perStake), t.stake, b, hi);
    }
  }

  lemma BandAdds(x: real, a: nat, m: nat, y: real, c: nat, k: nat, b: Band)
    requires StakesInBand(x, a, m, b) && StakesInBand(y, c, k, b)
    ensures StakesInBand(x + y, a + c, m + k, b)
  {
    var s, t, u, v := a as real, c as real, m as real, k as real;
    assert b.lo * (s + t) == b.lo * s + b.lo * t;
    assert b.hi * (s + t + (u + v)) == b.hi * (s + u) + b.hi * (t + v);
  }

  function SumExact(ts: seq<Trove>, perStake: nat): real {
    Sum(RecordedColl, ts) as real + Sum(EthShare(perStake), ts) as real / DECIMAL_PRECISION as real
  }

  lemma SumExactStep(ts: seq<Trove>, perStake: nat)
    requires ts != []
    ensures SumExact(ts, perStake) == SumExact(ts[..|ts| - 1], perStake) + ExactNow(ts[|ts| - 1], perStake)
  {
    var init, last := ts[..|ts| - 1], ts[|ts| - 1];
    AddQuotients(Sum(EthShare(perStake), init) as real, EthShare(perStake)(last) as real, DECIMAL_PRECISION as real);
  }

  lemma NothingInBand(b: Band)
    ensures StakesInBand(0.0, 0, 0, b)
  {
  }

  /** All exact collateral together is within what the band allows for all stakes. */
  lemma {:induction false} SumInBand(holds: (real, nat, nat) -> bool, ts: seq<Trove>, perStake: nat)
    requires holds(0.0, 0, 0)
    requires forall x, a: nat, m: nat, y, c: nat, k: nat ::
               holds(x, a, m) && holds(y, c, k) ==> holds(x + y, a + c, m + k)
    requires forall t :: t in ts ==> holds(ExactNow(t, perStake), t.stake, 1)
    ensures holds(SumExact(ts, perStake), Sum(StakeOf, ts), |ts|)
  {
    if ts == [] {
      assert SumExact(ts, perStake) == 0.0;
    } else {
      var init, last := ts[..|ts| - 1], ts[|ts| - 1];
      assert last in ts;
      SumInBand(holds, init, perStake);
      SumExactStep(ts, perStake);
      assert holds(SumExact(init, perStake) + ExactNow(last, perStake), Sum(StakeOf, init) + last.stake, |init| + 1);
    }
  }

  lemma TotalInBand(ts: seq<Trove>, perStake: nat, b: Band)
    requires AllInBand(ts, perStake, b)
    ensures StakesInBand(SumExact(ts, perStake), Sum(StakeOf, ts), |ts|, b)
  {
    var holds := (x: real, a: nat, m: nat) => StakesInBand(x, a, m, b);
    NothingInBand(b);
    forall x, a: nat, m: nat, y, c: nat, k: nat | holds(x, a, m) && holds(y, c, k)
      ensures holds(x + y, a + c, m + k)
    {
      BandAdds(x, a, m, y, c, k, b);
    }
    SumInBand(holds, ts, perStake);
  }

  /** What the pools hold beyond all exact collateral. */
  function Dust(s: System): real {
    s.defaultETH as real - Sum(EthShare(s.ethPerStake), s.troves) as real / DECIMAL_PRECISION as real
  }

  lemma DustIsSlack(s: System)
    ensures Dust(s) == (EthSlack(s) + s.ethError) as real / DECIMAL_PRECISION as real
  {
    var x := Sum(EthShare(s.ethPerStake), s.troves);
    assert (DECIMAL_PRECISION * s.defaultETH - x) as real
        == DECIMAL_PRECISION as real * s.defaultETH as real - x as real;
  }

  lemma DustIsNonneg(s: System)
    requires EthHeld(s)
    ensures Dust(s) >= 0.0
  {
    DustIsSlack(s);
  }

  /** Over every run, dust is at most one unit per Trove moved out, and the carried error. */
  lemma DustIsSmall(n: nat, ops: seq<Op>)
    ensures 0.0 <= Dust(Reached(n, ops)) <= AllMoves(ops) as real + PerUnit(Reached(n, ops).ethError)
  {
    var s := Reached(n, ops);
    DustIsSlack(s);
    SlackIsSmall(n, ops);
    assert (DECIMAL_PRECISION * AllMoves(ops)) as real == DECIMAL_PRECISION as real * AllMoves(ops) as real;
  }

  /** A rate at which all stakes are worth at most hi per unit, with one more unit for each Trove, and the dust. */
  predicate RateNear(rate: real, stakes: nat, hi: real, count: nat, dust: real) {
    rate * stakes as real <= hi * (stakes as real + count as real) + dust
  }

  lemma RateOf(total: real, stakes: real, lo: real)
    requires stakes > 0.0 && lo > 0.0 && lo * stakes <= total
    ensures total > 0.0 && total / stakes * stakes == total && lo <= total / stakes
  {
    RealMulNonneg(lo, stakes);
    CancelReal(lo, total / stakes, stakes);
  }

  lemma RateOfAll(total: real, exact: real, dust: real, stakes: nat, count: nat, b: Band)
    requires stakes > 0 && b.lo > 0.0 && dust >= 0.0 && total == exact + dust
    requires StakesInBand(exact, stakes, count, b)
    ensures total > 0.0 && b.lo <= total / stakes as real && RateNear(total / stakes as real, stakes, b.hi, count, dust)
  {
    RateOf(total, stakes as real, b.lo);
  }

  /** The rate of new snapshots is not below the band, and above it by little: one unit per Trove, and dust. */
  lemma SnapshotRate(s: System, b: Band)
    requires Valid(s) && s.totalStakes > 0 && b.lo > 0.0 && AllInBand(s.troves, s.ethPerStake, b)
    ensures var r := Snapshot(s);
            && SnapshotsUsable(r) && b.lo <= Rate(r)
            && RateNear(Rate(r), s.totalStakes, b.hi, |s.troves|, Dust(s))
  {
    TotalInBand(s.troves, s.ethPerStake, b);
    DustIsNonneg(s);
    assert (s.activeETH + s.defaultETH) as real == SumExact(s.troves, s.ethPerStake) + Dust(s);
    RateOfAll((s.activeETH + s.defaultETH) as real, SumExact(s.troves, s.ethPerStake), Dust(s),
              s.totalStakes, |s.troves|, b);
  }

  /** After a redistribution of e per unit and a snapshot at the given rate. */
  function NextBand(b: Band, e: real, rate: real): Band {
    Band(b.lo + e, if rate > b.hi + e then rate else b.hi + e)
  }

  lemma SnapshotMovesBand(m: System, b: Band, e: real)
    requires Valid(m) && m.totalStakes > 0 && b.lo > 0.0 && e >= 0.0 && AllInBand(m.troves, m.ethPerStake, Raised(b, e))
    ensures InBand(Snapshot(m), NextBand(b, e, Rate(Snapshot(m))))
    ensures RateNear(Rate(Snapshot(m)), m.totalStakes, b.hi + e, |m.troves|, Dust(m))
  {
    SnapshotRate(m, Raised(b, e));
    AllHigher(m.troves, m.ethPerStake, Raised(b, e), NextBand(b, e, Rate(Snapshot(m))).hi);
  }

  lemma GainOf(s: System, coll: nat, debt: nat, b: Band)
    requires Valid(s) && InBand(s, b) && (debt > 0 ==> s.totalStakes > 0)
    ensures var m := Redistribute(s, coll, debt);
            && Later(s, m) && AllInBand(m.troves, m.ethPerStake, Raised(b, PerUnit(m.ethPerStake - s.ethPerStake)))
  {
    RedistributeKeepsValid(s, coll, debt);
    AllRaised(s.troves, s.ethPerStake, Redistribute(s, coll, debt).ethPerStake - s.ethPerStake, b);
  }

  /**
   After a liquidation the band is raised by what it gives per unit, and
   widened if the new rate lies above it by little.  If it leaves neither
   stakes nor collateral, the band is that of the start.
   */
  function BandTo(perStake: nat, r: System, b: Band): Band
    requires perStake <= r.ethPerStake
  {
    if r.stakesSnapshot > 0 then NextBand(b, PerUnit(r.ethPerStake - perStake), Rate(r))
    else if r.collSnapshot == 0 then Band(1.0, 1.0)
    else b
  }

  lemma SharedBand(s: System, coll: nat, debt: nat, b: Band)
    requires Valid(s) && InBand(s, b) && s.totalStakes > 0
    ensures var r := Snapshot(Redistribute(s, coll, debt));
            && Later(s, r) && InBand(r, BandTo(s.ethPerStake, r, b))
            && RateNear(Rate(r), r.totalStakes, b.hi + PerUnit(r.ethPerStake - s.ethPerStake), |r.troves|, Dust(r))
  {
    var m := Redistribute(s, coll, debt);
    RedistributeKeepsValid(s, coll, debt);
    GainOf(s, coll, debt, b);
    SnapshotMovesBand(m, b, PerUnit(m.ethPerStake - s.ethPerStake));
  }

  lemma NothingLeft(s: System, t: Trove)
    requires Accounted(s) && s.totalStakes == 0 && t in s.troves
    ensures t.stake == 0 && (s.activeETH == 0 ==> t.coll == 0)
  {
    var i :| 0 <= i < |s.troves| && s.troves[i] == t;
    SumUpdate(StakeOf, s.troves, i, t);
    SumUpdate(RecordedColl, s.troves, i, t);
  }

  /** Without stakes nothing is passed on. */
  lemma UnsharedBand(s: System, b: Band)
    requires Valid(s) && InBand(s, b) && s.totalStakes == 0
    ensures InBand(Snapshot(s), BandTo(s.ethPerStake, Snapshot(s), b))
  {
    var r := Snapshot(s);
    if r.collSnapshot == 0 {
      forall t | t in r.troves
        ensures TroveInBand(t, r.ethPerStake, Band(1.0, 1.0))
      {
        NothingLeft(s, t);
        ShareIsZero(t.stake, t.atETH, r.ethPerStake);
      }
    }
  }

  // ----- Runs

  function BandAfter(s: System, op: Op, b: Band): Band
    requires Valid(s)
  {
    if op.Liquidate? && Step(s, op).Ok? then
      StepKeepsValid(s, op);
      BandTo(s.ethPerStake, Step(s, op).value, b)
    else b
  }

  lemma LiquidationMovesBand(s: System, op: Op, b: Band)
    requires Valid(s) && InBand(s, b) && Step(s, op).Ok? && op.Liquidate?
    ensures InBand(Step(s, op).value, BandAfter(s, op, b))
  {
    LiquidationSteps(s, op);
    var left := SeizeAll(s, op.victims).value;
    SeizeAllKeepsBand(s, op.victims, b);
    if left.totalStakes > 0 {
      SharedBand(left, op.coll, op.debt, b);
    } else {
      UnsharedBand(left, b);
    }
  }

  lemma StepMovesBand(s: System, op: Op, b: Band)
    requires Valid(s) && InBand(s, b) && Step(s, op).Ok?
    ensures InBand(Step(s, op).value, BandAfter(s, op, b))
  {
    if op.Liquidate? {
      LiquidationMovesBand(s, op, b);
    } else {
      RecordingKeepsBand(s, op, b);
    }
  }

  /** The band after a run: raised by every redistribution, and widened where a new rate lies above it. */
  function RunBand(s: System, ops: seq<Op>, b: Band): Band
    requires Valid(s)
  {
    if ops == [] then b
    else BandAfter(Run(s, ops[..|ops| - 1]), ops[|ops| - 1], RunBand(s, ops[..|ops| - 1], b))
  }

  lemma {:induction false} RunStaysInBand(s: System, ops: seq<Op>, b: Band)
    requires Valid(s) && InBand(s, b)
    ensures InBand(Run(s, ops), RunBand(s, ops, b))
  {
    if ops != [] {
      var init, last := ops[..|ops| - 1], ops[|ops| - 1];
      RunStaysInBand(s, init, b);
      if Step(Run(s, init), last).Ok? {
        StepMovesBand(Run(s, init), last, RunBand(s, init, b));
      }
    }
  }

  /** The band of a system reached from the start, where collateral and stake are the same. */
  function ReachedBand(n: nat, ops: seq<Op>): Band {
    InitialIsValid(n);
    RunBand(Initial(n), ops, Band(1.0, 1.0))
  }

  /** In every system that can be reached, all collateral per unit staked is within one band. */
  lemma ReachedIsInBand(n: nat, ops: seq<Op>)
    ensures InBand(Reached(n, ops), ReachedBand(n, ops))
  {
    InitialIsValid(n);
    forall t | t in Initial(n).troves
      ensures TroveInBand(t, 0, Band(1.0, 1.0))
    {
      assert t == NoTrove;
      ShareIsZero(0, 0, 0);
    }
    RunStaysInBand(Initial(n), ops, Band(1.0, 1.0));
  }

  // ----- Order

  /** How far two stakes in the band can be from being proportional to their collateral. */
  function Slip(b: Band, s: real, t: real): real {
    SlipOf(b.hi - b.lo, b.hi, s, t)
  }

  /** The slip of a band of the given width and height. */
  function SlipOf(width: real, height: real, s: real, t: real): real {
    width * (s * t) + (height + 1.0) * (s + t)
  }

  lemma SlipGrows(width: real, width': real, height: real, height': real, s: real, t: real)
    requires width <= width' && height <= height' && s >= 0.0 && t >= 0.0
    ensures SlipOf(width, height, s, t) <= SlipOf(width', height', s, t)
  {
    RealMulNonneg(s, t);
    RealMulMono(width, width', s * t);
    RealMulMono(height + 1.0, height' + 1.0, s + t);
  }

  predicate AtMost(x: real, bound: real) {
    -bound <= x <= bound
  }

  lemma SlipIsNonneg(b: Band, s: real, t: real)
    requires 0.0 < b.lo <= b.hi && s >= 0.0 && t >= 0.0
    ensures Slip(b, s, t) >= 0.0
  {
    RealMulNonneg(s, t);
    RealMulNonneg(b.hi - b.lo, s * t);
    RealMulNonneg(b.hi + 1.0, s + t);
  }

  lemma SlipIsSymmetric(b: Band, s: real, t: real)
    ensures Slip(b, s, t) == Slip(b, t, s)
  {
  }

  /** Collateral a, hardly below the band, and c, not above it. */
  lemma OneSideInBand(a: real, c: real, s: real, t: real, b: Band)
    requires 0.0 < b.lo <= b.hi && s >= 0.0 && t >= 0.0
    requires a >= b.lo * t - 1.0 && c <= b.hi * (s + 1.0)
    ensures ExactCross(a, s, c, t) >= -Slip(b, s, t)
  {
    var st, hs, ht := s * t, b.hi * s, b.hi * t;
    RealMulMono(b.lo * t - 1.0, a, s);
    RealMulMono(c, b.hi * (s + 1.0), t);
    assert (b.lo * t - 1.0) * s == b.lo * st - s;
    assert b.hi * (s + 1.0) * t == b.hi * st + ht;
    RealMulNonneg(b.hi, s);
    SlipExpands(b, s, t, st, hs, ht);
    CrossAboveSlip(a * s, c * t, b.lo * st, b.hi * st, hs, ht, s, t, Slip(b, s, t));
  }

  lemma CrossAboveSlip(x: real, y: real, u: real, v: real, hs: real, ht: real, s: real, t: real, slip: real)
    requires x >= u - s && y <= v + ht && hs >= 0.0 && t >= 0.0 && slip == v - u + hs + ht + s + t
    ensures x - y >= -slip
  {
  }

  lemma SlipExpands(b: Band, s: real, t: real, st: real, hs: real, ht: real)
    requires st == s * t && hs == b.hi * s && ht == b.hi * t
    ensures Slip(b, s, t) == b.hi * st - b.lo * st + hs + ht + s + t
  {
    assert (b.hi - b.lo) * st == b.hi * st - b.lo * st;
    assert (b.hi + 1.0) * (s + t) == hs + ht + s + t;
  }

  lemma TruncatedNow(s: System, t: Trove)
    ensures CurrentColl(s, t) as real <= ExactNow(t, s.ethPerStake) < CurrentColl(s, t) as real + 1.0
  {
    TruncatedBounds(Share(t.stake, t.atETH, s.ethPerStake));
  }

  /** Truncated collateral at a stake in the band. */
  predicate Bracketed(coll: nat, stake: nat, b: Band) {
    b.lo * stake as real - 1.0 <= coll as real <= b.hi * (stake as real + 1.0)
  }

  lemma CollInBand(s: System, b: Band, t: Trove)
    requires InBand(s, b) && t in s.troves
    ensures Bracketed(CurrentColl(s, t), t.stake, b)
  {
    TruncatedNow(s, t);
    assert TroveInBand(t, s.ethPerStake, b);
  }

  lemma CrossInBand(a: nat, c: nat, p: nat, q: nat, b: Band)
    requires 0.0 < b.lo <= b.hi && Bracketed(a, q, b) && Bracketed(c, p, b)
    ensures AtMost(Cross(a, p, c, q) as real, Slip(b, p as real, q as real))
  {
    CrossIsExact(a, p, c, q);
    CrossFlips(a as real, p as real, c as real, q as real);
    OneSideInBand(a as real, c as real, p as real, q as real, b);
    OneSideInBand(c as real, a as real, q as real, p as real, b);
    SlipIsSymmetric(b, p as real, q as real);
  }

  lemma CrossFlips(a: real, b: real, c: real, d: real)
    ensures ExactCross(a, b, c, d) == -ExactCross(c, d, a, b)
  {
  }

  /** The imbalance of any two Troves is at most the slip of the band. */
  lemma PairInBand(s: System, b: Band, p: Trove, q: Trove)
    requires InBand(s, b) && p in s.troves && q in s.troves
    ensures AtMost(Imbalance(s, p, q) as real, Slip(b, p.stake as real, q.stake as real))
  {
    CollInBand(s, b, p);
    CollInBand(s, b, q);
    CrossInBand(CurrentColl(s, q), CurrentColl(s, p), p.stake, q.stake, b);
  }

  predicate LeadFollows(coll: real, lead: real, stake: real, gap: real, debt: real, imbalance: real) {
    coll * lead == stake * gap - debt * imbalance
  }

  lemma LeadAgainstSlip(gap: real, imbalance: real, lead: real, coll: real, debt: real, stake: real, slip: real)
    requires coll > 0.0 && debt >= 0.0 && stake >= 0.0 && gap >= 0.0 && imbalance <= slip
    requires LeadFollows(coll, lead, stake, gap, debt, imbalance)
    ensures lead + debt * slip / coll >= 0.0
  {
    RealMulNonneg(stake, gap);
    RealMulMono(imbalance, slip, debt);
    var x := debt * slip / coll;
    assert x * coll == debt * slip;
    assert (lead + x) * coll == coll * lead + debt * slip;
    CancelReal(0.0, lead + x, coll);
  }

  lemma LeadIdentity(s: System, p: Trove, q: Trove)
    ensures LeadFollows(CurrentColl(s, p) as real, Lead(s, p, q) as real, p.stake as real, Gap(s, p, q) as real,
                        CurrentDebt(s, p) as real, Imbalance(s, p, q) as real)
  {
    var a, b, c, d := CurrentColl(s, q), CurrentDebt(s, p), CurrentColl(s, p), CurrentDebt(s, q);
    var v, g, u := Lead(s, p, q), Gap(s, p, q), Imbalance(s, p, q);
    CrossIdentity(a, b, c, d, p.stake, q.stake);
    assert c * v == p.stake * g - b * u;
    ProductAsReal(c, v);
    ProductAsReal(p.stake, g);
    ProductAsReal(b, u);
  }

  lemma ProductAsReal(x: int, y: int)
    ensures (x * y) as real == x as real * y as real
  {
  }

  /** The gap outweighs what is redistributed to the two Troves times the slip, and truncation. */
  predicate WideInBand(s: System, r: System, b: Band, p: Trove, q: Trove)
    requires Later(s, r) && CurrentColl(s, p) > 0
  {
    OutweighsSlip(Gap(s, p, q) as real, PerUnit(r.ethPerStake - s.ethPerStake),
                  PerUnit(r.debtPerStake - s.debtPerStake),
                  Slip(b, p.stake as real, q.stake as real), CurrentColl(s, p) as real, CurrentDebt(s, p) as real,
                  Tolerance(r, p, q) as real)
  }

  predicate OutweighsSlip(gap: real, e: real, f: real, slip: real, coll: real, debt: real, bound: real)
    requires coll > 0.0
  {
    Outweighs(gap, e, f, slip, debt * slip / coll, bound)
  }

  lemma SplitAgainstSlip(gap: real, imbalance: real, lead: real, e: real, f: real, slip: real, coll: real, debt: real,
                         stake: real, bound: real)
    requires coll > 0.0 && debt >= 0.0 && stake >= 0.0 && slip >= 0.0 && e >= 0.0 && f >= 0.0 && bound >= 0.0
    requires OutweighsSlip(gap, e, f, slip, coll, debt, bound) && AtMost(imbalance, slip)
    requires LeadFollows(coll, lead, stake, gap, debt, imbalance)
    ensures Split(gap, imbalance, lead, e, f) >= bound
  {
    NonnegQuotient(debt, slip, coll);
    WideGapIsPositive(gap, e, f, slip, debt * slip / coll, bound);
    LeadAgainstSlip(gap, imbalance, lead, coll, debt, stake, slip);
    SplitAtLeast(gap, imbalance, lead, e, f, slip, debt * slip / coll, bound);
  }

  lemma ExactGapAgainstSlip(s: System, r: System, p: Trove, q: Trove, slip: real)
    requires Later(s, r) && CurrentColl(s, p) > 0 && slip >= 0.0 && AtMost(Imbalance(s, p, q) as real, slip)
    requires OutweighsSlip(Gap(s, p, q) as real, PerUnit(r.ethPerStake - s.ethPerStake),
                           PerUnit(r.debtPerStake - s.debtPerStake), slip,
                           CurrentColl(s, p) as real, CurrentDebt(s, p) as real, Tolerance(r, p, q) as real)
    ensures ExactGap(s, r, p, q) >= Tolerance(r, p, q) as real
  {
    LeadIdentity(s, p, q);
    SplitAgainstSlip(Gap(s, p, q) as real, Imbalance(s, p, q) as real, Lead(s, p, q) as real,
                     PerUnit(r.ethPerStake - s.ethPerStake), PerUnit(r.debtPerStake - s.debtPerStake), slip,
                     CurrentColl(s, p) as real, CurrentDebt(s, p) as real, p.stake as real, Tolerance(r, p, q) as real);
    ExactGapSplits(s, r, p, q);
  }

  lemma ExactGapInBand(s: System, r: System, b: Band, p: Trove, q: Trove)
    requires Later(s, r) && InBand(s, b) && p in s.troves && q in s.troves && CurrentColl(s, p) > 0
    requires WideInBand(s, r, b, p, q)
    ensures ExactGap(s, r, p, q) >= Tolerance(r, p, q) as real
  {
    SlipIsNonneg(b, p.stake as real, q.stake as real);
    PairInBand(s, b, p, q);
    ExactGapAgainstSlip(s, r, p, q, Slip(b, p.stake as real, q.stake as real));
  }

  lemma NonnegQuotient(a: real, b: real, c: real)
    requires a >= 0.0 && b >= 0.0 && c > 0.0
    ensures a * b / c >= 0.0
  {
    RealMulNonneg(a, b);
  }

  /**
   Any two Troves of any system that can be reached, whenever they were last
   recorded, stay in order over every run that does not touch them if the gap
   between them outweighs the slip of the band, scaled by what is
   redistributed, and the tolerance.
   */
  lemma OrderKeptInBand(n: nat, before: seq<Op>, ops: seq<Op>, i: nat, j: nat)
    requires i < n && j < n && Untouched(ops, i) && Untouched(ops, j)
    requires CurrentColl(Reached(n, before), Reached(n, before).troves[i]) > 0
    requires var s := Reached(n, before);
             WideInBand(s, Run(s, ops), ReachedBand(n, before), s.troves[i], s.troves[j])
    ensures var s := Reached(n, before); Gap(Run(s, ops), s.troves[i], s.troves[j]) > 0
  {
    var s := Reached(n, before);
    ReachedIsInBand(n, before);
    assert s.troves[i] in s.troves && s.troves[j] in s.troves;
    ExactGapInBand(s, Run(s, ops), ReachedBand(n, before), s.troves[i], s.troves[j]);
    OrderOverRun(s, ops, i, j);
  }
}
