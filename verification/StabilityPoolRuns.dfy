/**
 Two runs of the Stability Pool with amounts that its Troves can have: one
 after which rounding has favoured a depositor, and one after which the
 product cannot shrink any further.  Each is followed pool by pool.
 */
module StabilityPoolRuns {
  import opened Outcomes
  import opened StabilityPool

  lemma RunOneMore(n: nat, ops: seq<Op>, op: Op, p: Pool, q: Pool)
    requires Run(n, ops) == p && Step(p, op) == Ok(q)
    ensures Run(n, ops + [op]) == q
  {
    assert (ops + [op])[..|ops + [op]| - 1] == ops;
  }

  // ----- Rounding that favours the depositor

  const ProvideAll: Op := Provide(0, 18_088_000_000_000_000_000_000)

  const OffsetLittle: Op := Liquidate(245_000_000_000_000_000_000, 13_000_000_000_000_000)

  const OffsetMost: Op := Liquidate(17_147_000_000_000_000_000_000, 900_000_000_000_000_000)

  const LoneDeposit := Deposit(18_088_000_000_000_000_000_000, Product(DECIMAL_PRECISION, 0, 0), 0)

  const Deposited := Pool(Product(1_000_000_000_000_000_000, 0, 0),
                          map[], 18_088_000_000_000_000_000_000, 0, 0, 0, [LoneDeposit])

  lemma DepositedIsReached()
    ensures Run(1, [ProvideAll]) == Deposited
  {
    var p := Initial(1);
    assert p.deposits == [NoDeposit];
    assert Run(1, []) == p;
    assert Renewed(p, 18_088_000_000_000_000_000_000) == LoneDeposit && p.deposits[0 := LoneDeposit] == [LoneDeposit];
    RunOneMore(1, [], ProvideAll, p, Deposited);
    assert [] + [ProvideAll] == [ProvideAll];
  }

  const OnceOffset := Pool(Product(986_455_108_359_133_126, 0, 0),
                           map[(0, 0) := 718_708_536_045_000_000_000_000_000_000],
                           17_843_000_000_000_000_000_000, 13_000_000_000_000_000, 16_912_000_000_000_000_000_000,
                           18_040_000_000_000_000_000_000, [LoneDeposit])

  lemma FirstOffset()
    ensures Offset(Deposited, 245_000_000_000_000_000_000, 13_000_000_000_000_000) == Ok(OnceOffset)
  {
    assert LossPerUnit(Deposited.total, 245_000_000_000_000_000_000, Deposited.lossError)
        == PerUnit(13_544_891_640_866_874, 16_912_000_000_000_000_000_000);
    assert GainPerUnit(Deposited.total, 13_000_000_000_000_000, Deposited.ethError)
        == PerUnit(718_708_536_045, 18_040_000_000_000_000_000_000);
    assert WithGain(Deposited, 718_708_536_045) == OnceOffset.sums;
  }

  const TwiceOffset := Pool(Product(38_478_549_314_462_628, 0, 0),
                            map[(0, 0) := 50_475_453_339_229_611_407_947_788_146_664],
                            696_000_000_000_000_000_000, 913_000_000_000_000_000, 52_000_000_000_000_000_000,
                            14_788_000_000_000_000_000_000, [LoneDeposit])

  lemma SecondOffset()
    ensures Offset(OnceOffset, 17_147_000_000_000_000_000_000, 900_000_000_000_000_000) == Ok(TwiceOffset)
  {
    assert LossPerUnit(OnceOffset.total, 17_147_000_000_000_000_000_000, OnceOffset.lossError)
        == PerUnit(960_993_106_540_379_980, 52_000_000_000_000_000_000);
    assert GainPerUnit(OnceOffset.total, 900_000_000_000_000_000, OnceOffset.ethError)
        == PerUnit(50_439_948_439_164, 14_788_000_000_000_000_000_000);
    assert WithGain(OnceOffset, 50_439_948_439_164) == TwiceOffset.sums;
  }

  lemma ReachedByTwoOffsets()
    ensures Run(1, [ProvideAll] + [OffsetLittle] + [OffsetMost]) == TwiceOffset
  {
    var ops := [ProvideAll];
    DepositedIsReached();
    FirstOffset();
    RunOneMore(1, ops, OffsetLittle, Deposited, OnceOffset);
    SecondOffset();
    RunOneMore(1, ops + [OffsetLittle], OffsetMost, OnceOffset, TwiceOffset);
  }

  lemma ShortfallAfterTwoOffsets()
    requires WellFormed(TwiceOffset)
    ensures Compounded(TwiceOffset, LoneDeposit) == 696_000_000_000_000_015_264
    ensures Step(TwiceOffset, Withdraw(0, 696_000_000_000_000_015_264, true)).Err?
  {
    assert FloorDiv(LoneDeposit.value * TwiceOffset.product.P, LoneDeposit.at.P) == 696_000_000_000_000_015_264;
  }

  /**
   A deposit of 18088 ZUSD and liquidations of 245 and 17147 ZUSD, after
   which the only depositor is owed 15264 units more than the 696 ZUSD that
   the pool holds, so that withdrawing all of it reverts.
   */
  lemma RoundingCanFavourTheDepositor()
    ensures var p := Run(1, [ProvideAll] + [OffsetLittle] + [OffsetMost]);
            && |p.deposits| == 1
            && p.total == 696_000_000_000_000_000_000
            && Compounded(p, p.deposits[0]) == p.total + 15_264
            && Step(p, Withdraw(0, Compounded(p, p.deposits[0]), true)).Err?
  {
    ReachedByTwoOffsets();
    ShortfallAfterTwoOffsets();
  }

  // ----- A product that cannot shrink

  const ProvideOne: Op := Provide(0, 10_000_000_000_000_000_000_000)

  const ProvideTwo: Op := Provide(1, 10_000_000_000_000_000_000_000)

  const ProvideThree: Op := Provide(2, 10_000_000_000_000_000_000_000)

  const OffsetOne: Op := Liquidate(9_999_999_999_999_999_989_500, 100_000_000_000_000_000)

  const OffsetTwo: Op := Liquidate(10_000_000_000_000_000_000_500, 100_000_000_000_000_000)

  const OffsetThree: Op := Liquidate(10_000_000_000_000_000_000_000, 100_000_000_000_000_000)

  const DepositOne := Deposit(10_000_000_000_000_000_000_000, Product(1_000_000_000_000_000_000, 0, 0), 0)

  const FilledOne := Pool(Product(1_000_000_000_000_000_000, 0, 0),
                          map[], 10_000_000_000_000_000_000_000, 0, 0, 0, [DepositOne, NoDeposit, NoDeposit])

  lemma FilledOneIsReached()
    ensures Run(3, [ProvideOne]) == FilledOne
  {
    var p := Initial(3);
    assert p.deposits == [NoDeposit, NoDeposit, NoDeposit];
    assert Run(3, []) == p;
    assert Renewed(p, 10_000_000_000_000_000_000_000) == DepositOne
            && p.deposits[0 := DepositOne] == FilledOne.deposits;
    RunOneMore(3, [], ProvideOne, p, FilledOne);
    assert [] + [ProvideOne] == [ProvideOne];
  }

  const EmptiedOne := Pool(Product(1_000_000_000, 1, 0),
                           map[(0, 0) := 10_000_000_000_000_000_000_000_000_000_000],
                           10_500, 100_000_000_000_000_000, 500_000_000_000_000_000_000, 0,
                           [DepositOne, NoDeposit, NoDeposit])

  lemma EmptyOne()
    ensures Offset(FilledOne, 9_999_999_999_999_999_989_500, 100_000_000_000_000_000) == Ok(EmptiedOne)
  {
    assert LossPerUnit(FilledOne.total, 9_999_999_999_999_999_989_500, FilledOne.lossError)
        == PerUnit(999_999_999_999_999_999, 500_000_000_000_000_000_000);
    assert GainPerUnit(FilledOne.total, 100_000_000_000_000_000, FilledOne.ethError) == PerUnit(10_000_000_000_000, 0);
    assert WithGain(FilledOne, 10_000_000_000_000) == EmptiedOne.sums;
  }

  const DepositTwo := Deposit(10_000_000_000_000_000_000_000, Product(1_000_000_000, 1, 0), 0)

  const FilledTwo := Pool(Product(1_000_000_000, 1, 0),
                          map[(0, 0) := 10_000_000_000_000_000_000_000_000_000_000],
                          10_000_000_000_000_000_010_500, 100_000_000_000_000_000, 500_000_000_000_000_000_000, 0,
                          [DepositOne, DepositTwo, NoDeposit])

  lemma FillTwo()
    requires WellFormed(EmptiedOne)
    ensures Step(EmptiedOne, ProvideTwo) == Ok(FilledTwo)
  {
    assert Renewed(EmptiedOne, 10_000_000_000_000_000_000_000) == DepositTwo;
    assert EmptiedOne.deposits[1 := DepositTwo] == FilledTwo.deposits;
  }

  const EmptiedTwo := Pool(Product(1, 2, 0),
                           map[(0, 0) := 10_000_000_000_000_000_000_000_000_000_000,
                               (0, 1) := 9_999_999_999_999_000_000_000],
                           10_000, 200_000_000_000_000_000, 499_999_999_999_999_989_500,
                           9_999_895_000_000_000_010_500, [DepositOne, DepositTwo, NoDeposit])

  lemma EmptyTwo()
    ensures Offset(FilledTwo, 10_000_000_000_000_000_000_500, 100_000_000_000_000_000) == Ok(EmptiedTwo)
  {
    assert LossPerUnit(FilledTwo.total, 10_000_000_000_000_000_000_500, FilledTwo.lossError)
        == PerUnit(999_999_999_999_999_999, 499_999_999_999_999_989_500);
    assert GainPerUnit(FilledTwo.total, 100_000_000_000_000_000, FilledTwo.ethError)
        == PerUnit(9_999_999_999_999, 9_999_895_000_000_000_010_500);
    assert WithGain(FilledTwo, 9_999_999_999_999) == EmptiedTwo.sums;
  }

  const DepositThree := Deposit(10_000_000_000_000_000_000_000, Product(1, 2, 0), 0)

  const FilledThree := Pool(Product(1, 2, 0),
                            map[(0, 0) := 10_000_000_000_000_000_000_000_000_000_000,
                                (0, 1) := 9_999_999_999_999_000_000_000],
                            10_000_000_000_000_000_010_000, 200_000_000_000_000_000, 499_999_999_999_999_989_500,
                            9_999_895_000_000_000_010_500, [DepositOne, DepositTwo, DepositThree])

  lemma FillThree()
    requires WellFormed(EmptiedTwo)
    ensures Step(EmptiedTwo, ProvideThree) == Ok(FilledThree)
  {
    assert Renewed(EmptiedTwo, 10_000_000_000_000_000_000_000) == DepositThree;
    assert EmptiedTwo.deposits[2 := DepositThree] == FilledThree.deposits;
  }

  lemma NothingLeftToShrink()
    ensures Offset(FilledThree, 10_000_000_000_000_000_000_000, 100_000_000_000_000_000).Err?
  {
    assert LossPerUnit(FilledThree.total, 10_000_000_000_000_000_000_000, FilledThree.lossError)
        == PerUnit(999_999_999_999_999_999, 499_999_999_999_999_979_500);
    assert Shrunk(FilledThree.product, 1).P == 0;
  }

  /**
   Three times 10000 ZUSD are deposited and all but some ten thousand units
   of the pool offset.  Twice the product shrinks, to 10^9 and to 1, with a
   change of scale each time; the third time it would vanish, and the
   liquidation reverts although the pool holds enough.
   */
  lemma ProductCanVanish()
    ensures var p := Run(3, [ProvideOne] + [OffsetOne] + [ProvideTwo] + [OffsetTwo] + [ProvideThree]);
            && p.product == Product(1, 2, 0)
            && p.total > 10_000_000_000_000_000_000_000
            && Step(p, OffsetThree).Err?
  {
    var ops := [ProvideOne];
    FilledOneIsReached();
    EmptyOne();
    RunOneMore(3, ops, OffsetOne, FilledOne, EmptiedOne);
    ops := ops + [OffsetOne];
    FillTwo();
    RunOneMore(3, ops, ProvideTwo, EmptiedOne, FilledTwo);
    ops := ops + [ProvideTwo];
    EmptyTwo();
    RunOneMore(3, ops, OffsetTwo, FilledTwo, EmptiedTwo);
    ops := ops + [OffsetTwo];
    FillThree();
    RunOneMore(3, ops, ProvideThree, EmptiedTwo, FilledThree);
    NothingLeftToShrink();
  }
}
