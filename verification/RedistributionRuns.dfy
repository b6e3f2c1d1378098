/**
 Four runs of redistribution with amounts that Troves can have: one that
 reverses the order of two Troves, one that raises a ratio, one after which
 the default pool lacks pending debt, and one after which no stake can be
 computed.  Each is followed system by system.
 */
module RedistributionRuns {
  import opened Arithmetic
  import opened Outcomes
  import opened Redistribution
  import opened RedistributionOrder

  lemma ReachedAtStart(n: nat)
    ensures Reached(n, []) == Initial(n) && Accounted(Initial(n))
  {
    InitialIsValid(n);
  }

  lemma ReachedOneMore(n: nat, ops: seq<Op>, op: Op, s: System, r: System)
    requires Reached(n, ops) == s && Step(s, op) == Ok(r)
    ensures Reached(n, ops + [op]) == r
  {
    assert (ops + [op])[..|ops + [op]| - 1] == ops;
  }

  lemma SeizeOne(s: System, v: nat)
    requires Accounted(s) && v < |s.troves|
    ensures SeizeAll(s, [v]) == Seize(s, v)
  {
    assert [v][..0] == [];
  }

  /** The liquidation of one Trove without pending rewards. */
  lemma LiquidateOne(s: System, v: nat, op: Op, left: System, r: System)
    requires Accounted(s) && v < |s.troves| && op.Liquidate? && op.victims == [v] && Record(s, v, NoTrove) == left
    requires s.troves[v].atETH == s.ethPerStake && s.troves[v].atDebt == s.debtPerStake
    requires CanPassOn(s, left, op.coll, op.debt) && Snapshot(Redistribute(left, op.coll, op.debt)) == r
    ensures Step(s, op) == Ok(r)
  {
    SeizeOne(s, v);
    PresentAmounts(s, s.troves[v]);
  }

  lemma PresentAmounts(s: System, t: Trove)
    requires t.atETH == s.ethPerStake && t.atDebt == s.debtPerStake
    ensures CurrentColl(s, t) == t.coll && CurrentDebt(s, t) == t.debt
  {
    ShareIsZero(t.stake, t.atETH, s.ethPerStake);
    ShareIsZero(t.stake, t.atDebt, s.debtPerStake);
  }

  // ----- An order that is reversed

  const OpenUpper: Op := Open(0, 8_896_137_770_079_972_750, 226_684_038_520_082_236_161)

  const OpenLower: Op := Open(1, 26_688_413_310_239_918_249, 680_052_115_560_246_708_482)

  const OpenVictim: Op := Open(2, 9_930_483_828_829_936_176, 1_924_651_985_502_624_665_865)

  const PassOnVictim: Op := Liquidate([2], 9_880_831_409_685_786_496, 1_924_651_985_502_624_665_865)

  const Upper := Trove(8_896_137_770_079_972_750, 226_684_038_520_082_236_161, 8_896_137_770_079_972_750, 0, 0)

  const Lower := Trove(26_688_413_310_239_918_249, 680_052_115_560_246_708_482, 26_688_413_310_239_918_249, 0, 0)

  const Victim := Trove(9_930_483_828_829_936_176, 1_924_651_985_502_624_665_865, 9_930_483_828_829_936_176, 0, 0)

  const WithUpper := System([Upper, NoTrove, NoTrove], 0, 0, 0, 0, 8_896_137_770_079_972_750, 0, 0,
                            8_896_137_770_079_972_750, 226_684_038_520_082_236_161, 0, 0)

  lemma WithUpperStep()
    requires Accounted(Initial(3))
    ensures Step(Initial(3), OpenUpper) == Ok(WithUpper)
  {
    assert NewStake(Initial(3), 8_896_137_770_079_972_750) == 8_896_137_770_079_972_750;
    assert Initial(3).troves[0 := Upper] == WithUpper.troves;
  }

  const WithLower := System([Upper, Lower, NoTrove], 0, 0, 0, 0, 35_584_551_080_319_890_999, 0, 0,
                            35_584_551_080_319_890_999, 906_736_154_080_328_944_643, 0, 0)

  lemma WithLowerStep()
    requires Accounted(WithUpper)
    ensures Step(WithUpper, OpenLower) == Ok(WithLower)
  {
    assert NewStake(WithUpper, 26_688_413_310_239_918_249) == 26_688_413_310_239_918_249;
    assert WithUpper.troves[1 := Lower] == WithLower.troves;
  }

  const WithVictim := System([Upper, Lower, Victim], 0, 0, 0, 0, 45_515_034_909_149_827_175, 0, 0,
                             45_515_034_909_149_827_175, 2_831_388_139_582_953_610_508, 0, 0)

  lemma WithVictimStep()
    requires Accounted(WithLower)
    ensures Step(WithLower, OpenVictim) == Ok(WithVictim)
  {
    assert NewStake(WithLower, 9_930_483_828_829_936_176) == 9_930_483_828_829_936_176;
    assert WithLower.troves[2 := Victim] == WithVictim.troves;
  }

  const Reversed := System([Upper, Lower, NoTrove], 277_671_942_169_038_647, 54_086_729_411_265_705_026,
                           12_359_687_240_341_561_647, 11_077_803_684_793_539_026, 35_584_551_080_319_890_999,
                           35_584_551_080_319_890_999, 45_465_382_490_005_677_495, 35_584_551_080_319_890_999,
                           906_736_154_080_328_944_643, 9_880_831_409_685_786_496, 1_924_651_985_502_624_665_865)

  const ReversedLeft := System([Upper, Lower, NoTrove], 0, 0, 0, 0, 35_584_551_080_319_890_999, 0, 0,
                               35_584_551_080_319_890_999, 906_736_154_080_328_944_643, 0, 0)

  lemma ReversedQuotients()
    ensures Quotient(9_880_831_409_685_786_496_000_000_000_000_000_000,
                     35_584_551_080_319_890_999) == 277_671_942_169_038_647
    ensures Quotient(1_924_651_985_502_624_665_865_000_000_000_000_000_000,
                     35_584_551_080_319_890_999) == 54_086_729_411_265_705_026
  {
    DivUnique(9_880_831_409_685_786_496_000_000_000_000_000_000, 35_584_551_080_319_890_999, 277_671_942_169_038_647);
    DivUnique(1_924_651_985_502_624_665_865_000_000_000_000_000_000, 35_584_551_080_319_890_999,
              54_086_729_411_265_705_026);
  }

  lemma ReversedStep()
    requires Accounted(WithVictim)
    ensures Step(WithVictim, PassOnVictim) == Ok(Reversed)
  {
    assert WithVictim.troves[2 := NoTrove] == ReversedLeft.troves;
    ReversedQuotients();
    LiquidateOne(WithVictim, 2, PassOnVictim, ReversedLeft, Reversed);
  }

  lemma RatiosBefore()
    ensures Ratio(WithVictim, Upper) == Some(3_924_465_890_125_674_747)
    ensures Ratio(WithVictim, Lower) == Some(3_924_465_890_125_674_746)
  {
    PresentAmounts(WithVictim, Upper);
    PresentAmounts(WithVictim, Lower);
    assert NominalCR(8_896_137_770_079_972_750, 226_684_038_520_082_236_161) == Some(3_924_465_890_125_674_747) by {
      DivUnique(889_613_777_007_997_275_000_000_000_000_000_000_000, 226_684_038_520_082_236_161,
                3_924_465_890_125_674_747);
    }
    assert NominalCR(26_688_413_310_239_918_249, 680_052_115_560_246_708_482) == Some(3_924_465_890_125_674_746) by {
      DivUnique(2_668_841_331_023_991_824_900_000_000_000_000_000_000, 680_052_115_560_246_708_482,
                3_924_465_890_125_674_746);
    }
  }

  lemma RatiosAfter()
    ensures Ratio(Reversed, Upper) == Some(1_605_762_977_332_470_354)
    ensures Ratio(Reversed, Lower) == Some(1_605_762_977_332_470_355)
  {
    DivUnique(2_470_207_852_421_446_620_979_496_175_456_869_250, DECIMAL_PRECISION, 2_470_207_852_421_446_620);
    DivUnique(481_162_996_375_656_166_477_002_231_431_618_041_500, DECIMAL_PRECISION, 481_162_996_375_656_166_477);
    DivUnique(7_410_623_557_264_339_862_660_816_584_201_569_103, DECIMAL_PRECISION, 7_410_623_557_264_339_862);
    DivUnique(1_443_488_989_126_968_499_376_919_964_883_588_419_474, DECIMAL_PRECISION,
              1_443_488_989_126_968_499_376);
    assert CurrentColl(Reversed, Upper) == 11_366_345_622_501_419_370;
    assert CurrentDebt(Reversed, Upper) == 707_847_034_895_738_402_638;
    assert CurrentColl(Reversed, Lower) == 34_099_036_867_504_258_111;
    assert CurrentDebt(Reversed, Lower) == 2_123_541_104_687_215_207_858;
    assert NominalCR(11_366_345_622_501_419_370, 707_847_034_895_738_402_638) == Some(1_605_762_977_332_470_354) by {
      DivUnique(1_136_634_562_250_141_937_000_000_000_000_000_000_000, 707_847_034_895_738_402_638,
                1_605_762_977_332_470_354);
    }
    assert NominalCR(34_099_036_867_504_258_111,
        2_123_541_104_687_215_207_858) == Some(1_605_762_977_332_470_355) by {
      DivUnique(3_409_903_686_750_425_811_100_000_000_000_000_000_000, 2_123_541_104_687_215_207_858,
                1_605_762_977_332_470_355);
    }
  }

  lemma ReversedIsReached()
    ensures Reached(3, [OpenUpper] + [OpenLower] + [OpenVictim]) == WithVictim
    ensures Reached(3, [OpenUpper] + [OpenLower] + [OpenVictim] + [PassOnVictim]) == Reversed
  {
    ReachedAtStart(3);
    WithUpperStep();
    ReachedOneMore(3, [], OpenUpper, Initial(3), WithUpper);
    assert [] + [OpenUpper] == [OpenUpper];
    WithLowerStep();
    ReachedOneMore(3, [OpenUpper], OpenLower, WithUpper, WithLower);
    WithVictimStep();
    ReachedOneMore(3, [OpenUpper] + [OpenLower], OpenVictim, WithLower, WithVictim);
    ReversedStep();
    ReachedOneMore(3, [OpenUpper] + [OpenLower] + [OpenVictim], PassOnVictim, WithVictim, Reversed);
  }

  /**
   Two Troves of 226 and 680 ZUSD, and a third whose liquidation passes on
   its 1924 ZUSD: before it the first has the higher nominal ratio, after it
   the second, although neither is touched.
   */
  lemma OrderCanBeReversed()
    ensures var s, r := Reached(3, [OpenUpper] + [OpenLower] + [OpenVictim]),
                        Reached(3, [OpenUpper] + [OpenLower] + [OpenVictim] + [PassOnVictim]);
            && s.troves[0] == r.troves[0] != NoTrove && s.troves[1] == r.troves[1] != NoTrove
            && Ratio(s, s.troves[0]).Some? && Ratio(s, s.troves[1]).Some?
            && Ratio(r, r.troves[0]).Some? && Ratio(r, r.troves[1]).Some?
            && Ratio(s, s.troves[0]).value > Ratio(s, s.troves[1]).value
            && Ratio(r, r.troves[0]).value < Ratio(r, r.troves[1]).value
  {
    ReversedIsReached();
    RatiosBefore();
    RatiosAfter();
  }

  // ----- A ratio that rises

  const OpenPoor: Op := Open(0, 10_000_000_000_000_000, 400_000_000_000_000_000_000)

  const OpenRicher: Op := Open(1, 20_000_000_000_000_000, 400_000_000_000_000_000_000)

  const PassOnRicher: Op := Liquidate([1], 19_900_000_000_000_000, 400_000_000_000_000_000_000)

  const Poor := Trove(10_000_000_000_000_000, 400_000_000_000_000_000_000, 10_000_000_000_000_000, 0, 0)

  const Richer := Trove(20_000_000_000_000_000, 400_000_000_000_000_000_000, 20_000_000_000_000_000, 0, 0)

  const WithPoor := System([Poor, NoTrove], 0, 0, 0, 0, 10_000_000_000_000_000, 0, 0, 10_000_000_000_000_000,
                           400_000_000_000_000_000_000, 0, 0)

  lemma WithPoorStep()
    requires Accounted(Initial(2))
    ensures Step(Initial(2), OpenPoor) == Ok(WithPoor)
  {
    assert NewStake(Initial(2), 10_000_000_000_000_000) == 10_000_000_000_000_000;
    assert Initial(2).troves[0 := Poor] == WithPoor.troves;
  }

  const WithRicher := System([Poor, Richer], 0, 0, 0, 0, 30_000_000_000_000_000, 0, 0, 30_000_000_000_000_000,
                             800_000_000_000_000_000_000, 0, 0)

  lemma WithRicherStep()
    requires Accounted(WithPoor)
    ensures Step(WithPoor, OpenRicher) == Ok(WithRicher)
  {
    assert NewStake(WithPoor, 20_000_000_000_000_000) == 20_000_000_000_000_000;
    assert WithPoor.troves[1 := Richer] == WithRicher.troves;
  }

  const Raised := System([Poor, NoTrove], 1_990_000_000_000_000_000, 40_000_000_000_000_000_000_000, 0, 0,
                         10_000_000_000_000_000, 10_000_000_000_000_000, 29_900_000_000_000_000,
                         10_000_000_000_000_000, 400_000_000_000_000_000_000, 19_900_000_000_000_000,
                         400_000_000_000_000_000_000)

  const RaisedLeft := System([Poor, NoTrove], 0, 0, 0, 0, 10_000_000_000_000_000, 0, 0, 10_000_000_000_000_000,
                             400_000_000_000_000_000_000, 0, 0)

  lemma RaisedQuotients()
    ensures Quotient(19_900_000_000_000_000_000_000_000_000_000_000,
                     10_000_000_000_000_000) == 1_990_000_000_000_000_000
    ensures Quotient(400_000_000_000_000_000_000_000_000_000_000_000_000,
                     10_000_000_000_000_000) == 40_000_000_000_000_000_000_000
  {
    DivUnique(19_900_000_000_000_000_000_000_000_000_000_000, 10_000_000_000_000_000, 1_990_000_000_000_000_000);
    DivUnique(400_000_000_000_000_000_000_000_000_000_000_000_000, 10_000_000_000_000_000,
              40_000_000_000_000_000_000_000);
  }

  lemma RaisedStep()
    requires Accounted(WithRicher)
    ensures Step(WithRicher, PassOnRicher) == Ok(Raised)
  {
    assert WithRicher.troves[1 := NoTrove] == RaisedLeft.troves;
    RaisedQuotients();
    LiquidateOne(WithRicher, 1, PassOnRicher, RaisedLeft, Raised);
  }

  lemma PoorBefore()
    ensures Ratio(WithRicher, Poor) == Some(2_500_000_000_000_000)
  {
    PresentAmounts(WithRicher, Poor);
    assert NominalCR(10_000_000_000_000_000, 400_000_000_000_000_000_000) == Some(2_500_000_000_000_000) by {
      DivUnique(1_000_000_000_000_000_000_000_000_000_000_000_000, 400_000_000_000_000_000_000,
                2_500_000_000_000_000);
    }
  }

  lemma PoorAfter()
    ensures Ratio(Raised, Poor) == Some(3_737_500_000_000_000)
  {
    DivUnique(19_900_000_000_000_000_000_000_000_000_000_000, DECIMAL_PRECISION, 19_900_000_000_000_000);
    DivUnique(400_000_000_000_000_000_000_000_000_000_000_000_000, DECIMAL_PRECISION, 400_000_000_000_000_000_000);
    assert CurrentColl(Raised, Poor) == 29_900_000_000_000_000;
    assert CurrentDebt(Raised, Poor) == 800_000_000_000_000_000_000;
    assert NominalCR(29_900_000_000_000_000, 800_000_000_000_000_000_000) == Some(3_737_500_000_000_000) by {
      DivUnique(2_990_000_000_000_000_000_000_000_000_000_000_000, 800_000_000_000_000_000_000,
                3_737_500_000_000_000);
    }
  }

  lemma RaisedIsReached()
    ensures Reached(2, [OpenPoor] + [OpenRicher]) == WithRicher
    ensures Reached(2, [OpenPoor] + [OpenRicher] + [PassOnRicher]) == Raised
  {
    ReachedAtStart(2);
    WithPoorStep();
    ReachedOneMore(2, [], OpenPoor, Initial(2), WithPoor);
    assert [] + [OpenPoor] == [OpenPoor];
    WithRicherStep();
    ReachedOneMore(2, [OpenPoor], OpenRicher, WithPoor, WithRicher);
    RaisedStep();
    ReachedOneMore(2, [OpenPoor] + [OpenRicher], PassOnRicher, WithRicher, Raised);
  }

  /** A liquidation of a Trove with twice the ratio raises that of the one left, by just under a half. */
  lemma RatioCanRise()
    ensures var s, r := Reached(2, [OpenPoor] + [OpenRicher]), Reached(2, [OpenPoor] + [OpenRicher] + [PassOnRicher]);
            && s.troves[0] == r.troves[0] != NoTrove
            && Ratio(s, s.troves[0]) == Some(2_500_000_000_000_000)
            && Ratio(r, r.troves[0]) == Some(3_737_500_000_000_000)
  {
    RaisedIsReached();
    PoorBefore();
    PoorAfter();
  }

  // ----- Pending debt that is not there

  const OpenOne: Op := Open(0, 2_000_000_000_000_000_000, 200_000_000_000_000_000_000)

  const OpenTwo: Op := Open(1, 2_000_000_000_000_000_000, 200_000_000_000_000_000_000)

  const OpenSmall: Op := Open(2, 10_000_000_000_000_000, 200_000_000_000_000_000_000)

  const PassOnCrumbs: Op := Liquidate([2], 1, 4)

  const EnlargeOne: Op := Adjust(0, 6_000_000_000_000_000_000, 200_000_000_000_000_000_000)

  const Equal := Trove(2_000_000_000_000_000_000, 200_000_000_000_000_000_000, 2_000_000_000_000_000_000, 0, 0)

  const Small := Trove(10_000_000_000_000_000, 200_000_000_000_000_000_000, 10_000_000_000_000_000, 0, 0)

  const WithOne := System([Equal, NoTrove, NoTrove], 0, 0, 0, 0, 2_000_000_000_000_000_000, 0, 0,
                          2_000_000_000_000_000_000, 200_000_000_000_000_000_000, 0, 0)

  lemma WithOneStep()
    requires Accounted(Initial(3))
    ensures Step(Initial(3), OpenOne) == Ok(WithOne)
  {
    assert NewStake(Initial(3), 2_000_000_000_000_000_000) == 2_000_000_000_000_000_000;
    assert Initial(3).troves[0 := Equal] == WithOne.troves;
  }

  const WithTwo := System([Equal, Equal, NoTrove], 0, 0, 0, 0, 4_000_000_000_000_000_000, 0, 0,
                          4_000_000_000_000_000_000, 400_000_000_000_000_000_000, 0, 0)

  lemma WithTwoStep()
    requires Accounted(WithOne)
    ensures Step(WithOne, OpenTwo) == Ok(WithTwo)
  {
    assert NewStake(WithOne, 2_000_000_000_000_000_000) == 2_000_000_000_000_000_000;
    assert WithOne.troves[1 := Equal] == WithTwo.troves;
  }

  const WithSmall := System([Equal, Equal, Small], 0, 0, 0, 0, 4_010_000_000_000_000_000, 0, 0,
                            4_010_000_000_000_000_000, 600_000_000_000_000_000_000, 0, 0)

  lemma WithSmallStep()
    requires Accounted(WithTwo)
    ensures Step(WithTwo, OpenSmall) == Ok(WithSmall)
  {
    assert NewStake(WithTwo, 10_000_000_000_000_000) == 10_000_000_000_000_000;
    assert WithTwo.troves[2 := Small] == WithSmall.troves;
  }

  const Passed := System([Equal, Equal, NoTrove], 0, 1, 1_000_000_000_000_000_000, 0, 4_000_000_000_000_000_000,
                         4_000_000_000_000_000_000, 4_000_000_000_000_000_001, 4_000_000_000_000_000_000,
                         400_000_000_000_000_000_000, 1, 4)

  const PassedLeft := System([Equal, Equal, NoTrove], 0, 0, 0, 0, 4_000_000_000_000_000_000, 0, 0,
                             4_000_000_000_000_000_000, 400_000_000_000_000_000_000, 0, 0)

  lemma PassedQuotients()
    ensures Quotient(1_000_000_000_000_000_000, 4_000_000_000_000_000_000) == 0
    ensures Quotient(4_000_000_000_000_000_000, 4_000_000_000_000_000_000) == 1
  {
    DivUnique(1_000_000_000_000_000_000, 4_000_000_000_000_000_000, 0);
    DivUnique(4_000_000_000_000_000_000, 4_000_000_000_000_000_000, 1);
  }

  lemma PassedStep()
    requires Accounted(WithSmall)
    ensures Step(WithSmall, PassOnCrumbs) == Ok(Passed)
  {
    assert WithSmall.troves[2 := NoTrove] == PassedLeft.troves;
    PassedQuotients();
    LiquidateOne(WithSmall, 2, PassOnCrumbs, PassedLeft, Passed);
  }

  const Enlarged := System([Trove(6_000_000_000_000_000_000, 200_000_000_000_000_000_000, 5_999_999_999_999_999_998,
                           0, 0), Equal, NoTrove], 0, 1, 1_000_000_000_000_000_000, 0, 7_999_999_999_999_999_998,
                           4_000_000_000_000_000_000, 4_000_000_000_000_000_001, 8_000_000_000_000_000_000,
                           400_000_000_000_000_000_000, 1, 4)

  lemma EnlargedStep()
    requires Accounted(Passed)
    ensures Step(Passed, EnlargeOne) == Ok(Enlarged)
  {
    assert NewStake(Passed, 6_000_000_000_000_000_000) == 5_999_999_999_999_999_998 by {
      DivUnique(24_000_000_000_000_000_000_000_000_000_000_000_000, 4_000_000_000_000_000_001,
                5_999_999_999_999_999_998);
    }
    assert Passed.troves[0 := Trove(6_000_000_000_000_000_000, 200_000_000_000_000_000_000,
        5_999_999_999_999_999_998, 0, 0)] == Enlarged.troves;
  }

  lemma EnlargedLacksDebt()
    ensures PendingDebt(Enlarged, Enlarged.troves[0]) == 5
  {
    DivUnique(5_999_999_999_999_999_998, DECIMAL_PRECISION, 5);
  }

  lemma EnlargedIsReached()
    ensures Reached(3, [OpenOne] + [OpenTwo] + [OpenSmall] + [PassOnCrumbs] + [EnlargeOne]) == Enlarged
  {
    ReachedAtStart(3);
    WithOneStep();
    ReachedOneMore(3, [], OpenOne, Initial(3), WithOne);
    assert [] + [OpenOne] == [OpenOne];
    WithTwoStep();
    ReachedOneMore(3, [OpenOne], OpenTwo, WithOne, WithTwo);
    WithSmallStep();
    ReachedOneMore(3, [OpenOne] + [OpenTwo], OpenSmall, WithTwo, WithSmall);
    PassedStep();
    ReachedOneMore(3, [OpenOne] + [OpenTwo] + [OpenSmall], PassOnCrumbs, WithSmall, Passed);
    EnlargedStep();
    ReachedOneMore(3, [OpenOne] + [OpenTwo] + [OpenSmall] + [PassOnCrumbs], EnlargeOne, Passed, Enlarged);
  }

  /**
   The Stability Pool offsets all but 4 units of a debt, of which the passed
   on unit of collateral is too little to be shared.  When a Trove is then
   enlarged, its pending debt is overlooked and grows with the stake, to 5:
   one more than the default pool holds, so that liquidating it reverts.
   */
  lemma PendingDebtCanBeMissing()
    ensures var s := Reached(3, [OpenOne] + [OpenTwo] + [OpenSmall] + [PassOnCrumbs] + [EnlargeOne]);
            && PendingDebt(s, s.troves[0]) == 5 && s.defaultDebt == 4
            && forall coll, debt :: Step(s, Liquidate([0], coll, debt)).Err?
  {
    EnlargedIsReached();
    EnlargedLacksDebt();
    SeizeOne(Enlarged, 0);
  }

  // ----- Collateral without stakes

  const OpenLittle: Op := Open(0, 20_000_000_000_000_000, 200_000_000_000_000_000_000)

  const OpenLarge: Op := Open(1, 1_000_000_000_000_000_000_000, 20_000_000_000_000_000_000_000_000)

  const PassOnLarge: Op := Liquidate([1], 995_000_000_000_000_000_000, 20_000_000_000_000_000_000_000_000)

  const ReduceLittle: Op := Adjust(0, 20_000_000_000_000_000, 200_000_000_000_000_000_000)

  const OffsetLarge: Op := Liquidate([1], 0, 0)

  const Little := System([Trove(20_000_000_000_000_000, 200_000_000_000_000_000_000, 20_000_000_000_000_000, 0, 0),
                         NoTrove], 0, 0, 0, 0, 20_000_000_000_000_000, 0, 0, 20_000_000_000_000_000,
                         200_000_000_000_000_000_000, 0, 0)

  lemma LittleStep()
    requires Accounted(Initial(2))
    ensures Step(Initial(2), OpenLittle) == Ok(Little)
  {
    assert NewStake(Initial(2), 20_000_000_000_000_000) == 20_000_000_000_000_000;
    assert Initial(2).troves[0 := Trove(20_000_000_000_000_000, 200_000_000_000_000_000_000, 20_000_000_000_000_000,
        0, 0)] == Little.troves;
  }

  const JoinedOnce := System([Trove(20_000_000_000_000_000, 200_000_000_000_000_000_000, 20_000_000_000_000_000, 0,
                             0), Trove(1_000_000_000_000_000_000_000, 20_000_000_000_000_000_000_000_000,
                             1_000_000_000_000_000_000_000, 0, 0)], 0, 0, 0, 0, 1_000_020_000_000_000_000_000, 0, 0,
                             1_000_020_000_000_000_000_000, 20_000_200_000_000_000_000_000_000, 0, 0)

  lemma JoinedOnceStep()
    requires Accounted(Little)
    ensures Step(Little, OpenLarge) == Ok(JoinedOnce)
  {
    assert NewStake(Little, 1_000_000_000_000_000_000_000) == 1_000_000_000_000_000_000_000;
    assert Little.troves[1 := Trove(1_000_000_000_000_000_000_000, 20_000_000_000_000_000_000_000_000,
        1_000_000_000_000_000_000_000, 0, 0)] == JoinedOnce.troves;
  }

  const SharedOnce := System([Trove(20_000_000_000_000_000, 200_000_000_000_000_000_000, 20_000_000_000_000_000, 0,
                             0), NoTrove], 49_750_000_000_000_000_000_000, 1_000_000_000_000_000_000_000_000_000, 0,
                             0, 20_000_000_000_000_000, 20_000_000_000_000_000, 995_020_000_000_000_000_000,
                             20_000_000_000_000_000, 200_000_000_000_000_000_000, 995_000_000_000_000_000_000,
                             20_000_000_000_000_000_000_000_000)

  const SharedOnceLeft := System([Trove(20_000_000_000_000_000, 200_000_000_000_000_000_000, 20_000_000_000_000_000,
                                 0, 0), NoTrove], 0, 0, 0, 0, 20_000_000_000_000_000, 0, 0, 20_000_000_000_000_000,
                                 200_000_000_000_000_000_000, 0, 0)

  lemma SharedOnceQuotients()
    ensures Quotient(995_000_000_000_000_000_000_000_000_000_000_000_000,
                     20_000_000_000_000_000) == 49_750_000_000_000_000_000_000
    ensures Quotient(20_000_000_000_000_000_000_000_000_000_000_000_000_000_000,
                     20_000_000_000_000_000) == 1_000_000_000_000_000_000_000_000_000
  {
    DivUnique(995_000_000_000_000_000_000_000_000_000_000_000_000, 20_000_000_000_000_000,
              49_750_000_000_000_000_000_000);
    DivUnique(20_000_000_000_000_000_000_000_000_000_000_000_000_000_000, 20_000_000_000_000_000,
              1_000_000_000_000_000_000_000_000_000);
  }

  lemma SharedOnceStep()
    requires Accounted(JoinedOnce)
    ensures Step(JoinedOnce, PassOnLarge) == Ok(SharedOnce)
  {
    assert JoinedOnce.troves[1 := NoTrove] == SharedOnceLeft.troves;
    SharedOnceQuotients();
    LiquidateOne(JoinedOnce, 1, PassOnLarge, SharedOnceLeft, SharedOnce);
  }

  const ReducedOnce := System([Trove(20_000_000_000_000_000, 200_000_000_000_000_000_000, 402_001_969_809,
                              49_750_000_000_000_000_000_000, 1_000_000_000_000_000_000_000_000_000), NoTrove],
                              49_750_000_000_000_000_000_000, 1_000_000_000_000_000_000_000_000_000, 0, 0,
                              402_001_969_809, 20_000_000_000_000_000, 995_020_000_000_000_000_000,
                              20_000_000_000_000_000, 200_000_000_000_000_000_000, 0, 0)

  lemma ReducedOnceRewards()
    ensures PendingETH(SharedOnce, SharedOnce.troves[0]) == 995_000_000_000_000_000_000
    ensures PendingDebt(SharedOnce, SharedOnce.troves[0]) == 20_000_000_000_000_000_000_000_000
  {
    DivUnique(995_000_000_000_000_000_000_000_000_000_000_000_000, DECIMAL_PRECISION, 995_000_000_000_000_000_000);
    DivUnique(20_000_000_000_000_000_000_000_000_000_000_000_000_000_000, DECIMAL_PRECISION,
              20_000_000_000_000_000_000_000_000);
  }

  lemma ReducedOnceStep()
    requires Accounted(SharedOnce)
    ensures Step(SharedOnce, ReduceLittle) == Ok(ReducedOnce)
  {
    ReducedOnceRewards();
    assert NewStake(SharedOnce, 20_000_000_000_000_000) == 402_001_969_809 by {
      DivUnique(400_000_000_000_000_000_000_000_000_000_000, 995_020_000_000_000_000_000, 402_001_969_809);
    }
    assert SharedOnce.troves[0 := Trove(995_020_000_000_000_000_000, 20_000_200_000_000_000_000_000_000,
        20_000_000_000_000_000, 49_750_000_000_000_000_000_000,
        1_000_000_000_000_000_000_000_000_000)][0 := Trove(20_000_000_000_000_000, 200_000_000_000_000_000_000,
        402_001_969_809, 49_750_000_000_000_000_000_000,
        1_000_000_000_000_000_000_000_000_000)] == ReducedOnce.troves;
  }

  const JoinedTwice := System([Trove(20_000_000_000_000_000, 200_000_000_000_000_000_000, 402_001_969_809,
                              49_750_000_000_000_000_000_000, 1_000_000_000_000_000_000_000_000_000),
                              Trove(1_000_000_000_000_000_000_000, 20_000_000_000_000_000_000_000_000,
                              20_100_098_490_482_603, 49_750_000_000_000_000_000_000,
                              1_000_000_000_000_000_000_000_000_000)], 49_750_000_000_000_000_000_000,
                              1_000_000_000_000_000_000_000_000_000, 0, 0, 20_100_500_492_452_412,
                              20_000_000_000_000_000, 995_020_000_000_000_000_000, 1_000_020_000_000_000_000_000,
                              20_000_200_000_000_000_000_000_000, 0, 0)

  lemma JoinedTwiceStep()
    requires Accounted(ReducedOnce)
    ensures Step(ReducedOnce, OpenLarge) == Ok(JoinedTwice)
  {
    assert NewStake(ReducedOnce, 1_000_000_000_000_000_000_000) == 20_100_098_490_482_603 by {
      DivUnique(20_000_000_000_000_000_000_000_000_000_000_000_000, 995_020_000_000_000_000_000,
                20_100_098_490_482_603);
    }
    assert ReducedOnce.troves[1 := Trove(1_000_000_000_000_000_000_000, 20_000_000_000_000_000_000_000_000,
        20_100_098_490_482_603, 49_750_000_000_000_000_000_000,
        1_000_000_000_000_000_000_000_000_000)] == JoinedTwice.troves;
  }

  const SharedTwice := System([Trove(20_000_000_000_000_000, 200_000_000_000_000_000_000, 402_001_969_809,
                              49_750_000_000_000_000_000_000, 1_000_000_000_000_000_000_000_000_000), NoTrove],
                              2_475_162_000_004_014_755_825_119_012, 49_752_000_000_080_698_609_550_130_897_179,
                              54_144_091_292, 249_558_731_189, 402_001_969_809, 402_001_969_809,
                              995_020_000_000_000_000_000, 20_000_000_000_000_000, 200_000_000_000_000_000_000,
                              995_000_000_000_000_000_000, 20_000_000_000_000_000_000_000_000)

  const SharedTwiceLeft := System([Trove(20_000_000_000_000_000, 200_000_000_000_000_000_000, 402_001_969_809,
                                  49_750_000_000_000_000_000_000, 1_000_000_000_000_000_000_000_000_000), NoTrove],
                                  49_750_000_000_000_000_000_000, 1_000_000_000_000_000_000_000_000_000, 0, 0,
                                  402_001_969_809, 20_000_000_000_000_000, 995_020_000_000_000_000_000,
                                  20_000_000_000_000_000, 200_000_000_000_000_000_000, 0, 0)

  lemma SharedTwiceQuotients()
    ensures Quotient(995_000_000_000_000_000_000_000_000_000_000_000_000,
                     402_001_969_809) == 2_475_112_250_004_014_755_825_119_012
    ensures Quotient(20_000_000_000_000_000_000_000_000_000_000_000_000_000_000,
                     402_001_969_809) == 49_751_000_000_080_698_609_550_130_897_179
  {
    DivUnique(995_000_000_000_000_000_000_000_000_000_000_000_000, 402_001_969_809,
              2_475_112_250_004_014_755_825_119_012);
    DivUnique(20_000_000_000_000_000_000_000_000_000_000_000_000_000_000, 402_001_969_809,
              49_751_000_000_080_698_609_550_130_897_179);
  }

  lemma SharedTwiceStep()
    requires Accounted(JoinedTwice)
    ensures Step(JoinedTwice, PassOnLarge) == Ok(SharedTwice)
  {
    assert JoinedTwice.troves[1 := NoTrove] == SharedTwiceLeft.troves;
    SharedTwiceQuotients();
    LiquidateOne(JoinedTwice, 1, PassOnLarge, SharedTwiceLeft, SharedTwice);
  }

  const ReducedTwice := System([Trove(20_000_000_000_000_000, 200_000_000_000_000_000_000, 8_080_279,
                               2_475_162_000_004_014_755_825_119_012, 49_752_000_000_080_698_609_550_130_897_179),
                               NoTrove], 2_475_162_000_004_014_755_825_119_012,
                               49_752_000_000_080_698_609_550_130_897_179, 54_144_091_292, 249_558_731_189,
                               8_080_279, 402_001_969_809, 995_020_000_000_000_000_000, 20_000_000_000_000_000,
                               200_000_000_000_000_000_000, 1, 1)

  lemma ReducedTwiceRewards()
    ensures PendingETH(SharedTwice, SharedTwice.troves[0]) == 994_999_999_999_999_999_999
    ensures PendingDebt(SharedTwice, SharedTwice.troves[0]) == 19_999_999_999_999_999_999_999_999
  {
    DivUnique(994_999_999_999_999_999_999_999_999_945_855_908_708, DECIMAL_PRECISION, 994_999_999_999_999_999_999);
    DivUnique(19_999_999_999_999_999_999_999_999_999_999_750_441_268_811, DECIMAL_PRECISION,
              19_999_999_999_999_999_999_999_999);
  }

  lemma ReducedTwiceStep()
    requires Accounted(SharedTwice)
    ensures Step(SharedTwice, ReduceLittle) == Ok(ReducedTwice)
  {
    ReducedTwiceRewards();
    assert NewStake(SharedTwice, 20_000_000_000_000_000) == 8_080_279 by {
      DivUnique(8_040_039_396_180_000_000_000_000_000, 995_020_000_000_000_000_000, 8_080_279);
    }
    assert SharedTwice.troves[0 := Trove(995_019_999_999_999_999_999, 20_000_199_999_999_999_999_999_999,
        402_001_969_809, 2_475_162_000_004_014_755_825_119_012,
        49_752_000_000_080_698_609_550_130_897_179)][0 := Trove(20_000_000_000_000_000, 200_000_000_000_000_000_000,
        8_080_279, 2_475_162_000_004_014_755_825_119_012,
        49_752_000_000_080_698_609_550_130_897_179)] == ReducedTwice.troves;
  }

  const JoinedThrice := System([Trove(20_000_000_000_000_000, 200_000_000_000_000_000_000, 8_080_279,
                               2_475_162_000_004_014_755_825_119_012, 49_752_000_000_080_698_609_550_130_897_179),
                               Trove(1_000_000_000_000_000_000_000, 20_000_000_000_000_000_000_000_000,
                               404_013_959_326, 2_475_162_000_004_014_755_825_119_012,
                               49_752_000_000_080_698_609_550_130_897_179)], 2_475_162_000_004_014_755_825_119_012,
                               49_752_000_000_080_698_609_550_130_897_179, 54_144_091_292, 249_558_731_189,
                               404_022_039_605, 402_001_969_809, 995_020_000_000_000_000_000,
                               1_000_020_000_000_000_000_000, 20_000_200_000_000_000_000_000_000, 1, 1)

  lemma JoinedThriceStep()
    requires Accounted(ReducedTwice)
    ensures Step(ReducedTwice, OpenLarge) == Ok(JoinedThrice)
  {
    assert NewStake(ReducedTwice, 1_000_000_000_000_000_000_000) == 404_013_959_326 by {
      DivUnique(402_001_969_809_000_000_000_000_000_000_000, 995_020_000_000_000_000_000, 404_013_959_326);
    }
    assert ReducedTwice.troves[1 := Trove(1_000_000_000_000_000_000_000, 20_000_000_000_000_000_000_000_000,
        404_013_959_326, 2_475_162_000_004_014_755_825_119_012,
        49_752_000_000_080_698_609_550_130_897_179)] == JoinedThrice.troves;
  }

  const SharedThrice := System([Trove(20_000_000_000_000_000, 200_000_000_000_000_000_000, 8_080_279,
                               2_475_162_000_004_014_755_825_119_012, 49_752_000_000_080_698_609_550_130_897_179),
                               NoTrove], 123_141_787_554_554_766_047_106_440_741_831,
                               2_475_211_810_141_804_342_655_405_843_922_268_684, 7_804_791, 5_681_294, 8_080_279,
                               8_080_279, 995_020_000_000_000_000_001, 20_000_000_000_000_000,
                               200_000_000_000_000_000_000, 995_000_000_000_000_000_001,
                               20_000_000_000_000_000_000_000_001)

  const SharedThriceLeft := System([Trove(20_000_000_000_000_000, 200_000_000_000_000_000_000, 8_080_279,
                                   2_475_162_000_004_014_755_825_119_012,
                                   49_752_000_000_080_698_609_550_130_897_179), NoTrove],
                                   2_475_162_000_004_014_755_825_119_012,
                                   49_752_000_000_080_698_609_550_130_897_179, 54_144_091_292, 249_558_731_189,
                                   8_080_279, 402_001_969_809, 995_020_000_000_000_000_000, 20_000_000_000_000_000,
                                   200_000_000_000_000_000_000, 1, 1)

  lemma SharedThriceQuotients()
    ensures Quotient(995_000_000_000_000_000_000_000_000_054_144_091_292,
                     8_080_279) == 123_139_312_392_554_762_032_350_615_622_819
    ensures Quotient(20_000_000_000_000_000_000_000_000_000_000_249_558_731_189,
                     8_080_279) == 2_475_162_058_141_804_261_956_796_293_791_371_505
  {
    DivUnique(995_000_000_000_000_000_000_000_000_054_144_091_292, 8_080_279,
              123_139_312_392_554_762_032_350_615_622_819);
    DivUnique(20_000_000_000_000_000_000_000_000_000_000_249_558_731_189, 8_080_279,
              2_475_162_058_141_804_261_956_796_293_791_371_505);
  }

  lemma SharedThriceStep()
    requires Accounted(JoinedThrice)
    ensures Step(JoinedThrice, PassOnLarge) == Ok(SharedThrice)
  {
    assert JoinedThrice.troves[1 := NoTrove] == SharedThriceLeft.troves;
    SharedThriceQuotients();
    LiquidateOne(JoinedThrice, 1, PassOnLarge, SharedThriceLeft, SharedThrice);
  }

  const ReducedThrice := System([Trove(20_000_000_000_000_000, 200_000_000_000_000_000_000, 162,
                                123_141_787_554_554_766_047_106_440_741_831,
                                2_475_211_810_141_804_342_655_405_843_922_268_684), NoTrove],
                                123_141_787_554_554_766_047_106_440_741_831,
                                2_475_211_810_141_804_342_655_405_843_922_268_684, 7_804_791, 5_681_294, 162,
                                8_080_279, 995_020_000_000_000_000_001, 20_000_000_000_000_000,
                                200_000_000_000_000_000_000, 1, 1)

  lemma ReducedThriceRewards()
    ensures PendingETH(SharedThrice, SharedThrice.troves[0]) == 995_000_000_000_000_000_000
    ensures PendingDebt(SharedThrice, SharedThrice.troves[0]) == 20_000_000_000_000_000_000_000_000
  {
    DivUnique(995_000_000_000_000_000_000_000_000_054_136_286_501, DECIMAL_PRECISION, 995_000_000_000_000_000_000);
    DivUnique(20_000_000_000_000_000_000_000_000_000_000_249_553_049_895, DECIMAL_PRECISION,
              20_000_000_000_000_000_000_000_000);
  }

  lemma ReducedThriceStep()
    requires Accounted(SharedThrice)
    ensures Step(SharedThrice, ReduceLittle) == Ok(ReducedThrice)
  {
    ReducedThriceRewards();
    assert NewStake(SharedThrice, 20_000_000_000_000_000) == 162 by {
      DivUnique(161_605_580_000_000_000_000_000, 995_020_000_000_000_000_001, 162);
    }
    assert SharedThrice.troves[0 := Trove(995_020_000_000_000_000_000, 20_000_200_000_000_000_000_000_000,
        8_080_279, 123_141_787_554_554_766_047_106_440_741_831,
        2_475_211_810_141_804_342_655_405_843_922_268_684)][0 := Trove(20_000_000_000_000_000,
        200_000_000_000_000_000_000, 162, 123_141_787_554_554_766_047_106_440_741_831,
        2_475_211_810_141_804_342_655_405_843_922_268_684)] == ReducedThrice.troves;
  }

  const JoinedFourTimes := System([Trove(20_000_000_000_000_000, 200_000_000_000_000_000_000, 162,
                                  123_141_787_554_554_766_047_106_440_741_831,
                                  2_475_211_810_141_804_342_655_405_843_922_268_684),
                                  Trove(1_000_000_000_000_000_000_000, 20_000_000_000_000_000_000_000_000,
                                  8_120_720, 123_141_787_554_554_766_047_106_440_741_831,
                                  2_475_211_810_141_804_342_655_405_843_922_268_684)],
                                  123_141_787_554_554_766_047_106_440_741_831,
                                  2_475_211_810_141_804_342_655_405_843_922_268_684, 7_804_791, 5_681_294,
                                  8_120_882, 8_080_279, 995_020_000_000_000_000_001, 1_000_020_000_000_000_000_000,
                                  20_000_200_000_000_000_000_000_000, 1, 1)

  lemma JoinedFourTimesStep()
    requires Accounted(ReducedThrice)
    ensures Step(ReducedThrice, OpenLarge) == Ok(JoinedFourTimes)
  {
    assert NewStake(ReducedThrice, 1_000_000_000_000_000_000_000) == 8_120_720 by {
      DivUnique(8_080_279_000_000_000_000_000_000_000, 995_020_000_000_000_000_001, 8_120_720);
    }
    assert ReducedThrice.troves[1 := Trove(1_000_000_000_000_000_000_000, 20_000_000_000_000_000_000_000_000,
        8_120_720, 123_141_787_554_554_766_047_106_440_741_831,
        2_475_211_810_141_804_342_655_405_843_922_268_684)] == JoinedFourTimes.troves;
  }

  const SharedFourTimes := System([Trove(20_000_000_000_000_000, 200_000_000_000_000_000_000, 162,
                                  123_141_787_554_554_766_047_106_440_741_831,
                                  2_475_211_810_141_804_342_655_405_843_922_268_684), NoTrove],
                                  6_142_098_450_429_529_863_408_022_415_082_765_317,
                                  123_459_265_335_266_931_927_799_445_529_300_712_427_210, 59, 82, 162, 162,
                                  995_020_000_000_000_000_001, 20_000_000_000_000_000, 200_000_000_000_000_000_000,
                                  995_000_000_000_000_000_001, 20_000_000_000_000_000_000_000_001)

  const SharedFourTimesLeft := System([Trove(20_000_000_000_000_000, 200_000_000_000_000_000_000, 162,
                                      123_141_787_554_554_766_047_106_440_741_831,
                                      2_475_211_810_141_804_342_655_405_843_922_268_684), NoTrove],
                                      123_141_787_554_554_766_047_106_440_741_831,
                                      2_475_211_810_141_804_342_655_405_843_922_268_684, 7_804_791, 5_681_294, 162,
                                      8_080_279, 995_020_000_000_000_000_001, 20_000_000_000_000_000,
                                      200_000_000_000_000_000_000, 1, 1)

  lemma SharedFourTimesQuotients()
    ensures Quotient(995_000_000_000_000_000_000_000_000_000_007_804_791,
                     162) == 6_141_975_308_641_975_308_641_975_308_642_023_486
    ensures Quotient(20_000_000_000_000_000_000_000_000_000_000_000_005_681_294,
                     162) == 123_456_790_123_456_790_123_456_790_123_456_790_158_526
  {
    DivUnique(995_000_000_000_000_000_000_000_000_000_007_804_791, 162,
              6_141_975_308_641_975_308_641_975_308_642_023_486);
    DivUnique(20_000_000_000_000_000_000_000_000_000_000_000_005_681_294, 162,
              123_456_790_123_456_790_123_456_790_123_456_790_158_526);
  }

  lemma SharedFourTimesStep()
    requires Accounted(JoinedFourTimes)
    ensures Step(JoinedFourTimes, PassOnLarge) == Ok(SharedFourTimes)
  {
    assert JoinedFourTimes.troves[1 := NoTrove] == SharedFourTimesLeft.troves;
    SharedFourTimesQuotients();
    LiquidateOne(JoinedFourTimes, 1, PassOnLarge, SharedFourTimesLeft, SharedFourTimes);
  }

  const ReducedFourTimes := System([Trove(20_000_000_000_000_000, 200_000_000_000_000_000_000, 0,
                                   6_142_098_450_429_529_863_408_022_415_082_765_317,
                                   123_459_265_335_266_931_927_799_445_529_300_712_427_210), NoTrove],
                                   6_142_098_450_429_529_863_408_022_415_082_765_317,
                                   123_459_265_335_266_931_927_799_445_529_300_712_427_210, 59, 82, 0, 162,
                                   995_020_000_000_000_000_001, 20_000_000_000_000_000, 200_000_000_000_000_000_000,
                                   1, 1)

  lemma ReducedFourTimesRewards()
    ensures PendingETH(SharedFourTimes, SharedFourTimes.troves[0]) == 995_000_000_000_000_000_000
    ensures PendingDebt(SharedFourTimes, SharedFourTimes.troves[0]) == 20_000_000_000_000_000_000_000_000
  {
    DivUnique(995_000_000_000_000_000_000_000_000_000_007_804_732, DECIMAL_PRECISION, 995_000_000_000_000_000_000);
    DivUnique(20_000_000_000_000_000_000_000_000_000_000_000_005_681_212, DECIMAL_PRECISION,
              20_000_000_000_000_000_000_000_000);
  }

  lemma ReducedFourTimesStep()
    requires Accounted(SharedFourTimes)
    ensures Step(SharedFourTimes, ReduceLittle) == Ok(ReducedFourTimes)
  {
    ReducedFourTimesRewards();
    assert NewStake(SharedFourTimes, 20_000_000_000_000_000) == 0 by {
      DivUnique(3_240_000_000_000_000_000, 995_020_000_000_000_000_001, 0);
    }
    assert SharedFourTimes.troves[0 := Trove(995_020_000_000_000_000_000, 20_000_200_000_000_000_000_000_000, 162,
        6_142_098_450_429_529_863_408_022_415_082_765_317,
        123_459_265_335_266_931_927_799_445_529_300_712_427_210)][0 := Trove(20_000_000_000_000_000,
        200_000_000_000_000_000_000, 0, 6_142_098_450_429_529_863_408_022_415_082_765_317,
        123_459_265_335_266_931_927_799_445_529_300_712_427_210)] == ReducedFourTimes.troves;
  }

  const JoinedAgain := System([Trove(20_000_000_000_000_000, 200_000_000_000_000_000_000, 0,
                              6_142_098_450_429_529_863_408_022_415_082_765_317,
                              123_459_265_335_266_931_927_799_445_529_300_712_427_210),
                              Trove(1_000_000_000_000_000_000_000, 20_000_000_000_000_000_000_000_000, 162,
                              6_142_098_450_429_529_863_408_022_415_082_765_317,
                              123_459_265_335_266_931_927_799_445_529_300_712_427_210)],
                              6_142_098_450_429_529_863_408_022_415_082_765_317,
                              123_459_265_335_266_931_927_799_445_529_300_712_427_210, 59, 82, 162, 162,
                              995_020_000_000_000_000_001, 1_000_020_000_000_000_000_000,
                              20_000_200_000_000_000_000_000_000, 1, 1)

  lemma JoinedAgainStep()
    requires Accounted(ReducedFourTimes)
    ensures Step(ReducedFourTimes, OpenLarge) == Ok(JoinedAgain)
  {
    assert NewStake(ReducedFourTimes, 1_000_000_000_000_000_000_000) == 162 by {
      DivUnique(162_000_000_000_000_000_000_000, 995_020_000_000_000_000_001, 162);
    }
    assert ReducedFourTimes.troves[1 := Trove(1_000_000_000_000_000_000_000, 20_000_000_000_000_000_000_000_000,
        162, 6_142_098_450_429_529_863_408_022_415_082_765_317,
        123_459_265_335_266_931_927_799_445_529_300_712_427_210)] == JoinedAgain.troves;
  }

  const Stranded := System([Trove(20_000_000_000_000_000, 200_000_000_000_000_000_000, 0,
                           6_142_098_450_429_529_863_408_022_415_082_765_317,
                           123_459_265_335_266_931_927_799_445_529_300_712_427_210), NoTrove],
                           6_142_098_450_429_529_863_408_022_415_082_765_317,
                           123_459_265_335_266_931_927_799_445_529_300_712_427_210, 59, 82, 0, 0,
                           20_000_000_000_000_001, 20_000_000_000_000_000, 200_000_000_000_000_000_000, 1, 1)

  const StrandedLeft := System([Trove(20_000_000_000_000_000, 200_000_000_000_000_000_000, 0,
                               6_142_098_450_429_529_863_408_022_415_082_765_317,
                               123_459_265_335_266_931_927_799_445_529_300_712_427_210), NoTrove],
                               6_142_098_450_429_529_863_408_022_415_082_765_317,
                               123_459_265_335_266_931_927_799_445_529_300_712_427_210, 59, 82, 0, 162,
                               995_020_000_000_000_000_001, 20_000_000_000_000_000, 200_000_000_000_000_000_000, 1, 1)

  lemma StrandedStep()
    requires Accounted(JoinedAgain)
    ensures Step(JoinedAgain, OffsetLarge) == Ok(Stranded)
  {
    assert JoinedAgain.troves[1 := NoTrove] == StrandedLeft.troves;
    LiquidateOne(JoinedAgain, 1, OffsetLarge, StrandedLeft, Stranded);
  }

  /** One Trove of 0.02 that is four times joined by one of 1000, takes it on, and is reduced to what it was. */
  const Squeeze: seq<Op> := [OpenLarge, PassOnLarge, ReduceLittle]

  lemma ReachedSqueeze(ops: seq<Op>, s: System, a: System, b: System, c: System)
    requires Reached(2, ops) == s && Step(s, OpenLarge) == Ok(a)
    requires Step(a, PassOnLarge) == Ok(b) && Step(b, ReduceLittle) == Ok(c)
    ensures Reached(2, ops + Squeeze) == c
  {
    ReachedOneMore(2, ops, OpenLarge, s, a);
    ReachedOneMore(2, ops + [OpenLarge], PassOnLarge, a, b);
    ReachedOneMore(2, ops + [OpenLarge] + [PassOnLarge], ReduceLittle, b, c);
    assert ops + Squeeze == ops + [OpenLarge] + [PassOnLarge] + [ReduceLittle];
  }

  lemma ReducedOnceIsReached()
    ensures Reached(2, [OpenLittle] + Squeeze) == ReducedOnce
  {
    ReachedAtStart(2);
    LittleStep();
    ReachedOneMore(2, [], OpenLittle, Initial(2), Little);
    assert [] + [OpenLittle] == [OpenLittle];
    JoinedOnceStep();
    SharedOnceStep();
    ReducedOnceStep();
    ReachedSqueeze([OpenLittle], Little, JoinedOnce, SharedOnce, ReducedOnce);
  }

  lemma ReducedTwiceIsReached()
    ensures Reached(2, [OpenLittle] + Squeeze + Squeeze) == ReducedTwice
  {
    ReducedOnceIsReached();
    JoinedTwiceStep();
    SharedTwiceStep();
    ReducedTwiceStep();
    ReachedSqueeze([OpenLittle] + Squeeze, ReducedOnce, JoinedTwice, SharedTwice, ReducedTwice);
  }

  lemma ReducedThriceIsReached()
    ensures Reached(2, [OpenLittle] + Squeeze + Squeeze + Squeeze) == ReducedThrice
  {
    ReducedTwiceIsReached();
    JoinedThriceStep();
    SharedThriceStep();
    ReducedThriceStep();
    ReachedSqueeze([OpenLittle] + Squeeze + Squeeze, ReducedTwice, JoinedThrice, SharedThrice, ReducedThrice);
  }

  lemma ReducedFourTimesIsReached()
    ensures Reached(2, [OpenLittle] + Squeeze + Squeeze + Squeeze + Squeeze) == ReducedFourTimes
  {
    ReducedThriceIsReached();
    JoinedFourTimesStep();
    SharedFourTimesStep();
    ReducedFourTimesStep();
    ReachedSqueeze([OpenLittle] + Squeeze + Squeeze + Squeeze, ReducedThrice, JoinedFourTimes, SharedFourTimes,
                   ReducedFourTimes);
  }

  lemma StrandedIsReached()
    ensures Reached(2, [OpenLittle] + Squeeze + Squeeze + Squeeze + Squeeze + [OpenLarge] + [OffsetLarge]) == Stranded
  {
    ReducedFourTimesIsReached();
    JoinedAgainStep();
    ReachedOneMore(2, [OpenLittle] + Squeeze + Squeeze + Squeeze + Squeeze, OpenLarge, ReducedFourTimes, JoinedAgain);
    StrandedStep();
    ReachedOneMore(2, [OpenLittle] + Squeeze + Squeeze + Squeeze + Squeeze + [OpenLarge], OffsetLarge, JoinedAgain,
                   Stranded);
  }

  /**
   A Trove of 0.02 whose stake shrinks to nothing while it takes on large
   Troves four times and is reduced again.  When the next large Trove is
   fully offset by the Stability Pool, collateral is left without stakes, so
   that the assertion in the computation of new stakes fails for every
   Trove that is to be opened or adjusted.
   */
  lemma StakesCanVanish()
    ensures var s := Reached(2, [OpenLittle] + Squeeze + Squeeze + Squeeze + Squeeze + [OpenLarge] + [OffsetLarge]);
            && s.stakesSnapshot == 0 && s.collSnapshot > 0
            && forall i, coll, debt :: Step(s, Open(i, coll, debt)).Err? && Step(s, Adjust(i, coll, debt)).Err?
  {
    StrandedIsReached();
  }
}
