/**
 How wide the band of collateral per unit staked can become.  Relative to its
 height, every liquidation widens it by at most one part for each Trove and
 each unit of dust, over all stakes.  The gap across which the order of two
 Troves is kept then depends on numbers that are known at the time.
 */
module RedistributionWidth {
  import opened Arithmetic
  import opened Redistribution
  import opened RedistributionSafety
  import opened RedistributionDust
  import opened RedistributionOrder
  import opened RedistributionDrift

  // ----- Thin bands

  function Part(height: real, x: real): real {
    height * x
  }

  lemma PartLaws(h: real, h': real, x: real, y: real)
    requires 0.0 <= h <= h' && x >= 0.0 && y >= 0.0
    ensures 0.0 <= Part(h, x) <= Part(h', x)
    ensures Part(h', x + y) == Part(h', x) + Part(h', y) >= Part(h', x)
  {
    RealMulNonneg(h, x);
    RealMulMono(h, h', x);
    RealMulNonneg(h', y);
  }

  /** The width is at most the part x of the height. */
  predicate Thin(b: Band, x: real) {
    b.hi >= 1.0 && x >= 0.0 && b.hi - b.lo <= Part(b.hi, x)
  }

  lemma ThinnerBand(b: Band, x: real, x': real)
    requires Thin(b, x) && x <= x'
    ensures Thin(b, x')
  {
    PartLaws(b.hi, b.hi, x, x' - x);
  }

  /** One for each Trove, and the dust, over all stakes. */
  function Widening(count: nat, dust: real, stakes: nat): real
    requires stakes > 0
  {
    (count as real + dust) / stakes as real
  }

  lemma WideningLaws(count: nat, dust: real, stakes: nat)
    requires stakes > 0 && dust >= 0.0
    ensures Widening(count, dust, stakes) >= 0.0
    ensures Widening(count, dust, stakes) * stakes as real == count as real + dust
  {
  }

  lemma MoreWidening(count: nat, dust: real, stakes: nat, dust': real, stakes': nat)
    requires 0 < stakes' <= stakes && 0.0 <= dust <= dust'
    ensures Widening(count, dust, stakes) <= Widening(count, dust', stakes')
  {
    var y := Widening(count, dust', stakes');
    WideningLaws(count, dust, stakes);
    WideningLaws(count, dust', stakes');
    RealMulMono(stakes' as real, stakes as real, y);
    CancelReal(Widening(count, dust, stakes), y, stakes as real);
  }

  lemma TopArithmetic(rate: real, hi: real, k: real, count: real, dust: real, y: real)
    requires 1.0 <= hi <= rate && k > 0.0 && count >= 0.0 && dust >= 0.0 && y * k == count + dust
    requires rate * k <= hi * (k + count) + dust
    ensures rate <= hi + Part(rate, y)
  {
    assert hi * (k + count) == hi * k + hi * count;
    RealMulMono(hi, rate, count);
    RealMulMono(1.0, rate, dust);
    assert rate * (y * k) == rate * count + rate * dust;
    assert (hi + rate * y) * k == hi * k + rate * (y * k);
    CancelReal(rate, hi + rate * y, k);
  }

  /** A rate near the top is above it by at most what is widened, as a part of the rate. */
  lemma RateAboveTop(rate: real, hi: real, stakes: nat, count: nat, dust: real)
    requires stakes > 0 && dust >= 0.0 && 1.0 <= hi <= rate && RateNear(rate, stakes, hi, count, dust)
    ensures rate <= hi + Part(rate, Widening(count, dust, stakes))
  {
    WideningLaws(count, dust, stakes);
    TopArithmetic(rate, hi, stakes as real, count as real, dust, Widening(count, dust, stakes));
  }

  lemma WidenBy(b: Band, e: real, rate: real, y: real, x: real)
    requires Thin(b, x) && y >= 0.0 && e >= 0.0
    requires rate > b.hi + e ==> rate <= b.hi + e + Part(rate, y)
    ensures Thin(NextBand(b, e, rate), x + y)
  {
    var hi := NextBand(b, e, rate).hi;
    PartLaws(b.hi, hi, x, y);
    PartLaws(b.hi, hi, y, x);
  }

  lemma NextBandIsThin(b: Band, e: real, rate: real, stakes: nat, count: nat, dust: real, x: real)
    requires Thin(b, x) && e >= 0.0 && dust >= 0.0 && stakes > 0 && RateNear(rate, stakes, b.hi + e, count, dust)
    ensures Thin(NextBand(b, e, rate), x + Widening(count, dust, stakes))
  {
    WideningLaws(count, dust, stakes);
    if rate > b.hi + e {
      RateAboveTop(rate, b.hi + e, stakes, count, dust);
    }
    WidenBy(b, e, rate, Widening(count, dust, stakes), x);
  }

  // ----- One liquidation

  /** What a liquidation that leads to r adds to the relative width of the band. */
  function WidenedBy(r: System): real {
    if r.totalStakes == 0 then 0.0 else Widening(|r.troves|, Dust(r), r.totalStakes)
  }

  lemma ThinBandTo(thin: (Band, real) -> bool, perStake: nat, r: System, b: Band, x: real)
    requires perStake <= r.ethPerStake && r.stakesSnapshot == r.totalStakes > 0
    requires thin(NextBand(b, PerUnit(r.ethPerStake - perStake), Rate(r)),
                  x + Widening(|r.troves|, Dust(r), r.totalStakes))
    ensures thin(BandTo(perStake, r, b), x + WidenedBy(r))
  {
  }

  lemma SharedBandIsThin(s: System, coll: nat, debt: nat, b: Band, x: real)
    requires Valid(s) && InBand(s, b) && s.totalStakes > 0 && Thin(b, x)
    ensures var r := Snapshot(Redistribute(s, coll, debt));
            Later(s, r) && Thin(BandTo(s.ethPerStake, r, b), x + WidenedBy(r))
  {
    var r := Snapshot(Redistribute(s, coll, debt));
    SharedBand(s, coll, debt, b);
    RedistributeKeepsValid(s, coll, debt);
    DustIsNonneg(r);
    var e := PerUnit(r.ethPerStake - s.ethPerStake);
    NextBandIsThin(b, e, Rate(r), r.totalStakes, |r.troves|, Dust(r), x);
    ThinBandTo(Thin, s.ethPerStake, r, b, x);
  }

  lemma UnsharedBandIsThin(s: System, b: Band, x: real)
    requires Valid(s) && s.totalStakes == 0 && Thin(b, x)
    ensures var r := Snapshot(s); Thin(BandTo(s.ethPerStake, r, b), x + WidenedBy(r))
  {
    PartLaws(1.0, 1.0, x, 0.0);
  }

  lemma ThinAfterSteps(thin: (Band, real) -> bool, s: System, op: Op, left: System, b: Band, x: real)
    requires Valid(s) && Step(s, op).Ok? && op.Liquidate? && (op.debt > 0 ==> left.totalStakes > 0)
    requires Step(s, op).value == Snapshot(Redistribute(left, op.coll, op.debt)) && left.ethPerStake == s.ethPerStake
    requires var r := Snapshot(Redistribute(left, op.coll, op.debt));
             left.ethPerStake <= r.ethPerStake && thin(BandTo(left.ethPerStake, r, b), x + WidenedBy(r))
    ensures thin(BandAfter(s, op, b), x + WidenedBy(Step(s, op).value))
  {
  }

  lemma LeftInBand(s: System, op: Op, b: Band) returns (left: System)
    requires Valid(s) && InBand(s, b) && Step(s, op).Ok? && op.Liquidate?
    ensures Valid(left) && InBand(left, b) && (op.debt > 0 ==> left.totalStakes > 0)
    ensures Step(s, op).value == Snapshot(Redistribute(left, op.coll, op.debt)) && left.ethPerStake == s.ethPerStake
  {
    LiquidationSteps(s, op);
    SeizeAllKeepsBand(s, op.victims, b);
    left := SeizeAll(s, op.victims).value;
  }

  lemma SnapshotBandIsThin(s: System, coll: nat, debt: nat, b: Band, x: real)
    requires Valid(s) && InBand(s, b) && Thin(b, x) && (debt > 0 ==> s.totalStakes > 0)
    ensures var r := Snapshot(Redistribute(s, coll, debt));
            s.ethPerStake <= r.ethPerStake && Thin(BandTo(s.ethPerStake, r, b), x + WidenedBy(r))
  {
    if s.totalStakes > 0 {
      SharedBandIsThin(s, coll, debt, b, x);
    } else {
      UnsharedBandIsThin(s, b, x);
    }
  }

  /** A liquidation widens the band by at most one part for each Trove and unit of dust, over all stakes. */
  lemma BandWidensLittle(s: System, op: Op, b: Band, x: real)
    requires Valid(s) && InBand(s, b) && Step(s, op).Ok? && op.Liquidate? && Thin(b, x)
    ensures Thin(BandAfter(s, op, b), x + WidenedBy(Step(s, op).value))
  {
    var left := LeftInBand(s, op, b);
    SnapshotBandIsThin(left, op.coll, op.debt, b, x);
    ThinAfterSteps(Thin, s, op, left, b, x);
  }

  // ----- Runs

  /** A liquidation that leaves few stakes, or carries on a large error. */
  ghost function Sparse(stakes: nat, error: nat): (System, Op) -> bool {
    (s: System, op: Op) =>
      && Accounted(s) && op.Liquidate? && Step(s, op).Ok?
      && var r := Step(s, op).value; 0 < r.totalStakes && (r.totalStakes < stakes || r.ethError > error)
  }

  function Liquidations(ops: seq<Op>): nat {
    if ops == [] then 0 else Liquidations(ops[..|ops| - 1]) + if ops[|ops| - 1].Liquidate? then 1 else 0
  }

  /** The relative width of the band after a run in which every liquidation leaves so many stakes and such an error. */
  function RunWidth(n: nat, ops: seq<Op>, stakes: nat, error: nat): real
    requires stakes > 0
  {
    Part(Liquidations(ops) as real, Widening(n, AllMoves(ops) as real + PerUnit(error), stakes))
  }

  /** What a liquidation adds is little if it leaves enough stakes and dust is small. */
  predicate Enough(r: System, stakes: nat, moves: nat, dust: real) {
    r.totalStakes > 0 ==> r.totalStakes >= stakes && moves as real + PerUnit(r.ethError) <= dust
  }

  lemma WidenedByLittle(n: nat, ops: seq<Op>, stakes: nat, dust: real)
    requires stakes > 0 && dust >= 0.0 && Enough(Reached(n, ops), stakes, AllMoves(ops), dust)
    ensures WidenedBy(Reached(n, ops)) <= Widening(n, dust, stakes)
  {
    var r := Reached(n, ops);
    DustIsSmall(n, ops);
    if r.totalStakes > 0 {
      MoreWidening(n, Dust(r), r.totalStakes, dust, stakes);
    } else {
      WideningLaws(n, dust, stakes);
    }
  }

  lemma OneMoreTime(k: nat, y: real)
    requires y >= 0.0
    ensures Part((k + 1) as real, y) == Part(k as real, y) + y
  {
  }

  /** One transaction, with the liquidations before it and what one of them can add. */
  lemma StepStaysThin(s: System, op: Op, b: Band, k: nat, y: real)
    requires Valid(s) && InBand(s, b) && y >= 0.0 && Thin(b, Part(k as real, y))
    requires op.Liquidate? && Step(s, op).Ok? ==> WidenedBy(Step(s, op).value) <= y
    ensures Thin(BandAfter(s, op, b), Part((if op.Liquidate? then k + 1 else k) as real, y))
  {
    OneMoreTime(k, y);
    var x := Part(k as real, y);
    if op.Liquidate? {
      if Step(s, op).Ok? {
        BandWidensLittle(s, op, b, x);
        ThinnerBand(BandAfter(s, op, b), x + WidenedBy(Step(s, op).value), x + y);
      } else {
        ThinnerBand(b, x, x + y);
      }
    }
  }

  /** A liquidation that is not sparse leaves enough. */
  lemma EnoughLeft(n: nat, ops: seq<Op>, stakes: nat, error: nat, dust: real)
    requires ops != [] && AllMoves(ops) as real + PerUnit(error) <= dust
    requires var s, op := Reached(n, ops[..|ops| - 1]), ops[|ops| - 1];
             op.Liquidate? && Step(s, op).Ok? && !Sparse(stakes, error)(s, op)
    ensures Enough(Reached(n, ops), stakes, AllMoves(ops), dust)
  {
  }

  lemma WidenedInStep(n: nat, ops: seq<Op>, stakes: nat, error: nat, dust: real)
    requires ops != [] && stakes > 0 && dust >= 0.0 && AllMoves(ops) as real + PerUnit(error) <= dust
    requires var s, op := Reached(n, ops[..|ops| - 1]), ops[|ops| - 1];
             op.Liquidate? && Step(s, op).Ok? && !Sparse(stakes, error)(s, op)
    ensures WidenedBy(Step(Reached(n, ops[..|ops| - 1]), ops[|ops| - 1]).value) <= Widening(n, dust, stakes)
  {
    EnoughLeft(n, ops, stakes, error, dust);
    WidenedByLittle(n, ops, stakes, dust);
  }

  lemma ThinReached(thin: (Band, real) -> bool, n: nat, ops: seq<Op>, y: real)
    requires ops != []
    requires var init, op := ops[..|ops| - 1], ops[|ops| - 1];
             thin(BandAfter(Reached(n, init), op, ReachedBand(n, init)),
                  Part((if op.Liquidate? then Liquidations(init) + 1 else Liquidations(init)) as real, y))
    ensures thin(ReachedBand(n, ops), Part(Liquidations(ops) as real, y))
  {
  }

  lemma ThinAtStart(n: nat, y: real)
    ensures Thin(ReachedBand(n, []), Part(0.0, y))
  {
    assert Part(0.0, y) == 0.0 == Part(1.0, 0.0);
  }

  lemma NotSparse(n: nat, ops: seq<Op>, stakes: nat, error: nat)
    requires ops != [] && Never(Sparse(stakes, error), n, ops)
    ensures Never(Sparse(stakes, error), n, ops[..|ops| - 1])
    ensures !Sparse(stakes, error)(Reached(n, ops[..|ops| - 1]), ops[|ops| - 1])
  {
    OneStepMore((before, op) => !Sparse(stakes, error)(Reached(n, before), op), ops);
  }

  lemma {:induction false} BandStaysThin(n: nat, ops: seq<Op>, stakes: nat, error: nat, dust: real)
    requires stakes > 0 && dust >= 0.0 && Never(Sparse(stakes, error), n, ops)
    requires AllMoves(ops) as real + PerUnit(error) <= dust
    ensures Thin(ReachedBand(n, ops), Part(Liquidations(ops) as real, Widening(n, dust, stakes)))
  {
    if ops == [] {
      ThinAtStart(n, Widening(n, dust, stakes));
    } else {
      var init, last, y := ops[..|ops| - 1], ops[|ops| - 1], Widening(n, dust, stakes);
      NotSparse(n, ops, stakes, error);
      BandStaysThin(n, init, stakes, error, dust);
      ReachedIsInBand(n, init);
      WideningLaws(n, dust, stakes);
      if last.Liquidate? && Step(Reached(n, init), last).Ok? {
        WidenedInStep(n, ops, stakes, error, dust);
      }
      StepStaysThin(Reached(n, init), last, ReachedBand(n, init), Liquidations(init), y);
      ThinReached(Thin, n, ops, y);
    }
  }

  /**
   Over every run the width of the band is at most a part of its height: for
   each liquidation, the number of Troves and the units of dust that there
   can be, over the stakes that liquidations leave.
   */
  lemma BandIsThin(n: nat, ops: seq<Op>, stakes: nat, error: nat)
    requires stakes > 0 && Never(Sparse(stakes, error), n, ops)
    ensures Thin(ReachedBand(n, ops), RunWidth(n, ops, stakes, error))
  {
    BandStaysThin(n, ops, stakes, error, AllMoves(ops) as real + PerUnit(error));
  }

  // ----- Order

  /** The slip of any band that contains the rate and whose width is at most half of its height. */
  function SlipAt(rate: real, x: real, s: real, t: real): real {
    SlipOf(Part(2.0 * rate, x), 2.0 * rate, s, t)
  }

  lemma ThinBandAtRate(b: Band, rate: real, x: real)
    requires 0.0 < b.lo <= rate <= b.hi && Thin(b, x) && x <= 0.5
    ensures b.hi <= 2.0 * rate && b.hi - b.lo <= Part(2.0 * rate, x)
  {
    PartLaws(b.hi, b.hi, x, 0.5 - x);
    assert Part(b.hi, 0.5) == b.hi / 2.0;
    PartLaws(b.hi, 2.0 * rate, x, 0.0);
  }

  lemma SlipOfThinBand(b: Band, rate: real, x: real, s: real, t: real)
    requires 0.0 < b.lo <= rate <= b.hi && Thin(b, x) && x <= 0.5 && s >= 0.0 && t >= 0.0
    ensures 0.0 <= Slip(b, s, t) <= SlipAt(rate, x, s, t)
  {
    SlipIsNonneg(b, s, t);
    ThinBandAtRate(b, rate, x);
    SlipGrows(b.hi - b.lo, Part(2.0 * rate, x), b.hi, 2.0 * rate, s, t);
  }

  lemma LooserBound(x: real, bound: real, bound': real)
    requires AtMost(x, bound) && bound <= bound'
    ensures AtMost(x, bound')
  {
  }

  /** The gap outweighs what is redistributed to the two Troves times the slip at the rate, and truncation. */
  predicate WideAtRate(s: System, r: System, x: real, p: Trove, q: Trove)
    requires Later(s, r) && CurrentColl(s, p) > 0
  {
    OutweighsSlip(Gap(s, p, q) as real, PerUnit(r.ethPerStake - s.ethPerStake),
                  PerUnit(r.debtPerStake - s.debtPerStake),
                  SlipAt(Rate(s), x, p.stake as real, q.stake as real), CurrentColl(s, p) as real,
                  CurrentDebt(s, p) as real, Tolerance(r, p, q) as real)
  }

  lemma SlipWithoutStakes(width: real, height: real)
    ensures SlipOf(width, height, 0.0, 0.0) == 0.0
  {
  }

  lemma ImbalanceAtRate(s: System, b: Band, x: real, p: Trove, q: Trove)
    requires Valid(s) && UsableOrUnstaked(s) && InBand(s, b) && Thin(b, x) && x <= 0.5 && p in s.troves && q in s.troves
    ensures var slip := SlipAt(Rate(s), x, p.stake as real, q.stake as real);
            slip >= 0.0 && AtMost(Imbalance(s, p, q) as real, slip)
  {
    PairInBand(s, b, p, q);
    if SnapshotsUsable(s) {
      SlipOfThinBand(b, Rate(s), x, p.stake as real, q.stake as real);
    } else {
      NothingLeft(s, p);
      NothingLeft(s, q);
      SlipWithoutStakes(b.hi - b.lo, b.hi);
      SlipWithoutStakes(Part(2.0 * Rate(s), x), 2.0 * Rate(s));
    }
    LooserBound(Imbalance(s, p, q) as real, Slip(b, p.stake as real, q.stake as real),
                SlipAt(Rate(s), x, p.stake as real, q.stake as real));
  }

  lemma ExactGapAtRate(s: System, r: System, b: Band, x: real, p: Trove, q: Trove)
    requires Later(s, r) && Valid(s) && UsableOrUnstaked(s) && InBand(s, b) && Thin(b, x) && x <= 0.5
    requires p in s.troves && q in s.troves && CurrentColl(s, p) > 0 && WideAtRate(s, r, x, p, q)
    ensures ExactGap(s, r, p, q) >= Tolerance(r, p, q) as real
  {
    ImbalanceAtRate(s, b, x, p, q);
    ExactGapAgainstSlip(s, r, p, q, SlipAt(Rate(s), x, p.stake as real, q.stake as real));
  }

  /**
   Any two Troves of any system that can be reached stay in order over every
   run that does not touch them if the gap between them outweighs the slip at
   the rate of the snapshots.  That depends on how many liquidations there
   were, what they left, and how many rewards were moved out.
   */
  lemma OrderKeptAtRate(n: nat, before: seq<Op>, ops: seq<Op>, i: nat, j: nat, stakes: nat, error: nat)
    requires i < n && j < n && Untouched(ops, i) && Untouched(ops, j)
    requires stakes > 0 && Never(Sparse(stakes, error), n, before) && RunWidth(n, before, stakes, error) <= 0.5
    requires var s := Reached(n, before); CurrentColl(s, s.troves[i]) > 0
    requires var s := Reached(n, before);
             WideAtRate(s, Run(s, ops), RunWidth(n, before, stakes, error), s.troves[i], s.troves[j])
    ensures var s := Reached(n, before); Gap(Run(s, ops), s.troves[i], s.troves[j]) > 0
  {
    var s := Reached(n, before);
    assert s.troves[i] in s.troves && s.troves[j] in s.troves;
    ReachedIsInBand(n, before);
    UnusableMeansUnstaked(n, before);
    BandIsThin(n, before, stakes, error);
    ExactGapAtRate(s, Run(s, ops), ReachedBand(n, before), RunWidth(n, before, stakes, error), s.troves[i],
                   s.troves[j]);
    OrderOverRun(s, ops, i, j);
  }
}
