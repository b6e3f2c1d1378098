/**
 The state of `LiquityStore`: the fields read from the blockchain, the
 fields derived from them, and how updates replace values only when they
 have changed.

 A JavaScript object is a Value: its identity (`ref`) and what it holds
 (`content`).  Objects in the store are immutable, so one identity always
 comes with one content; that is what `Coherent` says.
 */
module StoreState {
  import opened Decimal
  import opened DecimalPow
  import opened FeeRates
  import opened Outcomes
  import opened TroveChanges

  // ----- Values

  datatype FrontendStatus = Unregistered | Registered(kickbackRate: nat)

  datatype StabilityDeposit = StabilityDeposit(
    initialZUSD: nat, currentZUSD: nat, collateralGain: nat, zeroReward: nat, frontendTag: string)

  datatype ZEROStake = ZEROStake(stakedZERO: nat, collateralGain: nat, zusdGain: nat)

  datatype Content =
    | NumberContent(number: int)
    | FlagContent(flag: bool)
    | FrontendContent(status: FrontendStatus)
    | DecimalContent(decimal: nat)
    | TroveContent(trove: Trove)
    | UserTroveContent(userTrove: UserTrove)
    | PendingTroveContent(pendingTrove: PendingTrove)
    | DepositContent(deposit: StabilityDeposit)
    | FeesContent(fees: Fees)
    | StakeContent(stake: ZEROStake)
  {
    predicate IsPrimitive() {
      NumberContent? || FlagContent?
    }
  }

  datatype Value = Value(ref: nat, content: Content)

  /** `===`: primitives by content, objects by identity. */
  predicate StrictlyEqual(a: Value, b: Value) {
    if a.content.IsPrimitive() || b.content.IsPrimitive() then a.content == b.content else a.ref == b.ref
  }

  predicate FrontendStatusEquals(a: FrontendStatus, b: FrontendStatus) {
    if a.Unregistered? then b.Unregistered? else b.Registered? && a.kickbackRate == b.kickbackRate
  }

  predicate TroveEquals(a: Trove, b: Trove) {
    a.collateral == b.collateral && a.debt == b.debt
  }

  predicate UserTroveEquals(a: UserTrove, b: UserTrove) {
    TroveEquals(a.trove, b.trove) && a.ownerAddress == b.ownerAddress && a.status == b.status
  }

  predicate PendingTroveEquals(a: PendingTrove, b: PendingTrove) {
    && TroveEquals(a.trove, b.trove) && a.ownerAddress == b.ownerAddress && a.status == b.status
    && a.stake == b.stake
    && TroveEquals(a.snapshotOfTotalRedistributed, b.snapshotOfTotalRedistributed)
  }

  predicate DepositEquals(a: StabilityDeposit, b: StabilityDeposit) {
    && a.initialZUSD == b.initialZUSD && a.currentZUSD == b.currentZUSD
    && a.collateralGain == b.collateralGain && a.zeroReward == b.zeroReward && a.frontendTag == b.frontendTag
  }

  predicate StakeEquals(a: ZEROStake, b: ZEROStake) {
    a.stakedZERO == b.stakedZERO && a.collateralGain == b.collateralGain && a.zusdGain == b.zusdGain
  }

  /** The equality that the store uses for a field with this kind of content. */
  predicate FieldEquals(a: Content, b: Content) {
    match (a, b)
    case (NumberContent(x), NumberContent(y)) => x == y
    case (FlagContent(x), FlagContent(y)) => x == y
    case (FrontendContent(x), FrontendContent(y)) => FrontendStatusEquals(x, y)
    case (DecimalContent(x), DecimalContent(y)) => x == y
    case (TroveContent(x), TroveContent(y)) => TroveEquals(x, y)
    case (UserTroveContent(x), UserTroveContent(y)) => UserTroveEquals(x, y)
    case (PendingTroveContent(x), PendingTroveContent(y)) => PendingTroveEquals(x, y)
    case (DepositContent(x), DepositContent(y)) => DepositEquals(x, y)
    case (FeesContent(x), FeesContent(y)) => Equals(x, y)
    case (StakeContent(x), StakeContent(y)) => StakeEquals(x, y)
    case _ => false
  }

  /** Every one of these equalities compares all there is to compare. */
  lemma FieldEqualsIsEquality(a: Content, b: Content)
    ensures FieldEquals(a, b) <==> a == b
  {
  }

  // ----- Fields

  datatype Field =
    | Frontend | OwnFrontend | NumberOfTroves | AccountBalance | ZusdBalance | NueBalance | ZeroBalance
    | CollateralSurplusBalance | Price | ZusdInStabilityPool | Total | TotalRedistributed
    | TroveBeforeRedistribution | OwnStabilityDeposit | RemainingStabilityPoolZEROReward | FeesInNormalMode
    | OwnZEROStake | TotalStakedZERO | RiskiestTroveBeforeRedistribution
    | OwnTrove | CurrentFees | CurrentBorrowingRate | CurrentRedemptionRate | HaveUndercollateralizedTroves

  predicate IsDerived(f: Field) {
    f.OwnTrove? || f.CurrentFees? || f.CurrentBorrowingRate? || f.CurrentRedemptionRate?
    || f.HaveUndercollateralizedTroves?
  }

  /** The type of a field. */
  predicate Fits(f: Field, c: Content) {
    match f
    case Frontend | OwnFrontend => c.FrontendContent?
    case NumberOfTroves => c.NumberContent?
    case Total | TotalRedistributed => c.TroveContent?
    case TroveBeforeRedistribution | RiskiestTroveBeforeRedistribution => c.PendingTroveContent?
    case OwnStabilityDeposit => c.DepositContent?
    case FeesInNormalMode | CurrentFees => c.FeesContent?
    case OwnZEROStake => c.StakeContent?
    case OwnTrove => c.UserTroveContent?
    case HaveUndercollateralizedTroves => c.FlagContent?
    case _ => c.DecimalContent?
  }

  type Fields = map<Field, Value>

  /** All base fields, each of its type. */
  ghost predicate IsBaseState(s: Fields) {
    && (forall f: Field :: f in s <==> !IsDerived(f))
    && (forall f :: f in s ==> Fits(f, s[f].content))
  }

  /** Some base fields, each of its type; fields the store does not know may be among them. */
  ghost predicate IsBaseUpdate(u: Fields) {
    forall f :: f in u ==> Fits(f, u[f].content)
  }

  ghost predicate IsDerivedState(s: Fields) {
    && (forall f: Field :: f in s <==> IsDerived(f))
    && (forall f :: f in s ==> Fits(f, s[f].content))
  }

  /** An identity met in both places has one content. */
  ghost predicate Coherent(a: Fields, b: Fields) {
    forall f :: f in a && f in b && a[f].ref == b[f].ref ==> a[f].content == b[f].content
  }

  /** What the fields hold, without identities. */
  function Contents(s: Fields): map<Field, Content> {
    map f | f in s :: s[f].content
  }

  // ----- Reducing

  /** `_updateIfChanged`, `_silentlyUpdateIfChanged` and `_updateFees`, which differ in logging only. */
  function UpdateIfChanged(prev: Value, next: Option<Value>): Value {
    if next.Some? && !FieldEquals(prev.content, next.value.content) then next.value else prev
  }

  function Get(u: Fields, f: Field): Option<Value> {
    if f in u then Some(u[f]) else None
  }

  /** `_reduce` and `_reduceDerived` */
  function Reduce(s: Fields, u: Fields): Fields {
    map f | f in s :: UpdateIfChanged(s[f], Get(u, f))
  }

  /** The part of an update that the store knows. */
  function Known(s: Fields, u: Fields): Fields {
    map f | f in u && f in s :: u[f]
  }

  /** Up to identities, reducing is overriding. */
  lemma ReduceOverrides(s: Fields, u: Fields)
    ensures Contents(Reduce(s, u)) == Contents(s) + Contents(Known(s, u))
  {
    forall f | f in s
      ensures Reduce(s, u)[f].content == (Contents(s) + Contents(Known(s, u)))[f]
    {
      if f in u {
        FieldEqualsIsEquality(s[f].content, u[f].content);
      }
    }
  }

  lemma ReduceKeepsTypes(s: Fields, u: Fields)
    requires IsBaseUpdate(u)
    ensures IsBaseState(s) ==> IsBaseState(Reduce(s, u))
    ensures IsDerivedState(s) ==> IsDerivedState(Reduce(s, u))
  {
  }

  function ReduceAll(s: Fields, us: seq<Fields>): Fields {
    if us == [] then s else Reduce(ReduceAll(s, us[..|us| - 1]), us[|us| - 1])
  }

  /** One update in which later defined fields win. */
  function Merged(us: seq<Fields>): Fields {
    if us == [] then map[] else Merged(us[..|us| - 1]) + us[|us| - 1]
  }

  lemma ReduceAt(s: Fields, u: Fields, f: Field)
    requires f in s
    ensures f in Reduce(s, u)
    ensures Reduce(s, u)[f].content == if f in u then u[f].content else s[f].content
  {
  }

  lemma {:induction false} ReduceAllAt(s: Fields, us: seq<Fields>, f: Field)
    ensures f in ReduceAll(s, us) <==> f in s
    ensures f in s ==> ReduceAll(s, us)[f].content == if f in Merged(us) then Merged(us)[f].content else s[f].content
  {
    if us != [] {
      var init, last := us[..|us| - 1], us[|us| - 1];
      ReduceAllAt(s, init, f);
      if f in s {
        ReduceAt(ReduceAll(s, init), last, f);
      }
    }
  }

  /** Reducing any number of updates one by one is reducing once with their merger. */
  lemma ReduceAllIsReduceMerged(s: Fields, us: seq<Fields>)
    ensures Contents(ReduceAll(s, us)) == Contents(Reduce(s, Merged(us)))
  {
    forall f: Field
      ensures f in ReduceAll(s, us) <==> f in s
      ensures f in s ==> ReduceAll(s, us)[f].content == Reduce(s, Merged(us))[f].content
    {
      ReduceAllAt(s, us, f);
      if f in s {
        ReduceAt(s, Merged(us), f);
      }
    }
  }

  // ----- Deriving

  predicate IsBaseContents(c: map<Field, Content>) {
    forall f: Field :: !IsDerived(f) ==> f in c && Fits(f, c[f])
  }

  function At(c: map<Field, Content>, f: Field): (r: Content)
    requires IsBaseContents(c) && !IsDerived(f)
    ensures Fits(f, r)
  {
    c[f]
  }

  datatype Derived = Derived(
    trove: UserTrove, fees: Fees, borrowingRate: nat, redemptionRate: nat, haveUndercollateralizedTroves: bool)

  /**
   A derived state computed from the contents of a base state, or thrown at
   while computing it.  What the store does with derived states is the same
   for every derivation; the actual one is DerivedFrom.
   */
  type Derivation = map<Field, Content> -> Result<Derived>

  /** What `_derive` computes; throws when a rate does. */
  function DerivedFrom(c: map<Field, Content>): Result<Derived>
  {
    if !IsBaseContents(c) then Err else
    var price := At(c, Price).decimal;
    var redistributed := At(c, TotalRedistributed).trove;
    var fees := SetRecoveryMode(At(c, FeesInNormalMode).fees,
                                At(c, Total).trove.CollateralRatio(price) < CRITICAL_COLLATERAL_RATIO);
    var borrowing := BorrowingRate(fees, fees.timeOfLatestBlock);
    var redemption := RedemptionRate(fees, 0, fees.timeOfLatestBlock);
    var riskiest := At(c, RiskiestTroveBeforeRedistribution).pendingTrove.ApplyRedistribution(redistributed);
    if borrowing.Err? || redemption.Err? then Err
    else Ok(Derived(
      At(c, TroveBeforeRedistribution).pendingTrove.ApplyRedistribution(redistributed),
      fees,
      borrowing.value,
      redemption.value,
      riskiest.trove.CollateralRatio(price) < MINIMUM_COLLATERAL_RATIO))
  }

  /**
   Deriving throws only when more minutes than fit 32 bits separate the
   last fee operation from the latest block; otherwise the rates are within
   their limits, borrowing being free in recovery mode.
   */
  lemma DerivedFromLaws(c: map<Field, Content>)
    requires IsBaseContents(c)
    ensures var fees := At(c, FeesInNormalMode).fees;
            DerivedFrom(c).Ok? <==> MinutesSinceLastFeeOperation(fees, fees.timeOfLatestBlock) <= MAX_UINT_32
    ensures DerivedFrom(c).Ok? ==>
              var d := DerivedFrom(c).value;
              && d.fees == SetRecoveryMode(At(c, FeesInNormalMode).fees, d.fees.recoveryMode)
              && MINIMUM_REDEMPTION_RATE <= d.redemptionRate <= ONE
              && if d.fees.recoveryMode then d.borrowingRate == 0
                 else MINIMUM_BORROWING_RATE <= d.borrowingRate <= MAXIMUM_BORROWING_RATE
  {
  }

  function ContentOf(d: Derived, f: Field): Content
    requires IsDerived(f)
  {
    match f
    case OwnTrove => UserTroveContent(d.trove)
    case CurrentFees => FeesContent(d.fees)
    case CurrentBorrowingRate => DecimalContent(d.borrowingRate)
    case CurrentRedemptionRate => DecimalContent(d.redemptionRate)
    case HaveUndercollateralizedTroves => FlagContent(d.haveUndercollateralizedTroves)
  }

  /** A Trove with its share of what was redistributed since it was last recorded. */
  ghost predicate IsRedistributed(u: UserTrove, p: PendingTrove, total: Trove) {
    var since := p.snapshotOfTotalRedistributed;
    && u.ownerAddress == p.ownerAddress && u.status == p.status
    && IsShareSince(u.trove.collateral - p.trove.collateral, p.stake, since.collateral, total.collateral)
    && IsShareSince(u.trove.debt - p.trove.debt, p.stake, since.debt, total.debt)
  }

  /** The Trove's collateral is worth less than the ratio times its debt. */
  predicate IsBelow(t: Trove, price: nat, ratio: nat) {
    t.collateral * price < ratio * t.debt
  }

  /** The fees in normal mode, in recovery mode exactly if all collateral is worth less than 150% of all debt. */
  ghost predicate IsCurrentFees(c: map<Field, Content>, fees: Fees)
    requires IsBaseContents(c)
  {
    && (fees.recoveryMode <==> IsBelow(At(c, Total).trove, At(c, Price).decimal, CRITICAL_COLLATERAL_RATIO))
    && Equals(fees.(recoveryMode := false), At(c, FeesInNormalMode).fees.(recoveryMode := false))
  }

  /** Whether the riskiest Trove, with its share, is below 110%. */
  ghost predicate IsRiskFlag(c: map<Field, Content>, flag: bool)
    requires IsBaseContents(c)
  {
    var p, total := At(c, RiskiestTroveBeforeRedistribution).pendingTrove, At(c, TotalRedistributed).trove;
    exists riskiest: UserTrove ::
      && IsRedistributed(riskiest, p, total)
      && (flag <==> IsBelow(riskiest.trove, At(c, Price).decimal, MINIMUM_COLLATERAL_RATIO))
  }

  ghost predicate AreRates(fees: Fees, borrowing: nat, redemption: nat) {
    && BorrowingRate(fees, fees.timeOfLatestBlock) == Ok(borrowing)
    && RedemptionRate(fees, 0, fees.timeOfLatestBlock) == Ok(redemption)
  }

  /**
   What is derived, against the base state alone: the user's own Trove; the
   fees and, of these, the two rates at the latest block; and whether the
   riskiest Trove is below 110%.
   */
  ghost predicate IsDerivedOf(c: map<Field, Content>, d: Derived)
    requires IsBaseContents(c)
  {
    && IsRedistributed(d.trove, At(c, TroveBeforeRedistribution).pendingTrove, At(c, TotalRedistributed).trove)
    && IsCurrentFees(c, d.fees)
    && AreRates(d.fees, d.borrowingRate, d.redemptionRate)
    && IsRiskFlag(c, d.haveUndercollateralizedTroves)
  }

  lemma RedistributedIs(p: PendingTrove, total: Trove)
    ensures IsRedistributed(p.ApplyRedistribution(total), p, total)
  {
    ApplyRedistributionIs(p, total);
  }

  lemma RiskFlagIs(c: map<Field, Content>)
    requires IsBaseContents(c) && DerivedFrom(c).Ok?
    ensures IsRiskFlag(c, DerivedFrom(c).value.haveUndercollateralizedTroves)
  {
    var price, total := At(c, Price).decimal, At(c, TotalRedistributed).trove;
    var p := At(c, RiskiestTroveBeforeRedistribution).pendingTrove;
    RedistributedIs(p, total);
    RatioBelowIff(p.ApplyRedistribution(total).trove, price, MINIMUM_COLLATERAL_RATIO);
  }

  lemma CurrentFeesAre(c: map<Field, Content>)
    requires IsBaseContents(c) && DerivedFrom(c).Ok?
    ensures IsCurrentFees(c, DerivedFrom(c).value.fees)
  {
    RatioBelowIff(At(c, Total).trove, At(c, Price).decimal, CRITICAL_COLLATERAL_RATIO);
  }

  lemma DerivedFromIs(c: map<Field, Content>)
    requires IsBaseContents(c) && DerivedFrom(c).Ok?
    ensures IsDerivedOf(c, DerivedFrom(c).value)
  {
    RedistributedIs(At(c, TroveBeforeRedistribution).pendingTrove, At(c, TotalRedistributed).trove);
    CurrentFeesAre(c);
    RiskFlagIs(c);
  }

  /** The derived fields as an object; `refs` are the identities of its values. */
  function DerivedFields(d: Derived, refs: Field -> nat): Fields {
    map f: Field | IsDerived(f) :: Value(refs(f), ContentOf(d, f))
  }

  /** `_derive` */
  function Derive(derivation: Derivation, base: Fields, refs: Field -> nat): Result<Fields> {
    match derivation(Contents(base))
    case Ok(d) => Ok(DerivedFields(d, refs))
    case Err => Err
  }

  lemma DerivedFieldsAreTyped(d: Derived, refs: Field -> nat)
    ensures IsDerivedState(DerivedFields(d, refs))
  {
  }

  /** A derived state agrees with a base state when every field equals what is derived for it. */
  ghost predicate Agrees(derivation: Derivation, base: Fields, derived: Fields) {
    && IsDerivedState(derived)
    && derivation(Contents(base)).Ok?
    && forall f: Field :: IsDerived(f) ==>
         f in derived && FieldEquals(derived[f].content, ContentOf(derivation(Contents(base)).value, f))
  }

  /** Refreshing a stale derived state field by field makes it agree, whatever it was before. */
  lemma ReducedDerivedAgrees(derivation: Derivation, base: Fields, derived: Fields, refs: Field -> nat)
    requires IsDerivedState(derived)
    requires Derive(derivation, base, refs).Ok?
    ensures Agrees(derivation, base, Reduce(derived, Derive(derivation, base, refs).value))
  {
    var d := derivation(Contents(base)).value;
    DerivedFieldsAreTyped(d, refs);
    ReduceKeepsTypes(derived, DerivedFields(d, refs));
    forall f: Field | IsDerived(f)
      ensures f in Reduce(derived, DerivedFields(d, refs))
      ensures FieldEquals(Reduce(derived, DerivedFields(d, refs))[f].content, ContentOf(d, f))
    {
      assert f in derived;
      ReduceAt(derived, DerivedFields(d, refs), f);
      FieldEqualsIsEquality(ContentOf(d, f), ContentOf(d, f));
    }
  }

  /** What the derived fields of a store show. */
  function Shown(derived: Fields): Derived
    requires IsDerivedState(derived)
  {
    Derived(derived[OwnTrove].content.userTrove, derived[CurrentFees].content.fees,
            derived[CurrentBorrowingRate].content.decimal, derived[CurrentRedemptionRate].content.decimal,
            derived[HaveUndercollateralizedTroves].content.flag)
  }

  lemma AgreeingShown(derivation: Derivation, base: Fields, derived: Fields)
    requires Agrees(derivation, base, derived)
    ensures Shown(derived) == derivation(Contents(base)).value
  {
    var d := derivation(Contents(base)).value;
    forall f: Field | IsDerived(f)
      ensures derived[f].content == ContentOf(d, f)
    {
      FieldEqualsIsEquality(derived[f].content, ContentOf(d, f));
    }
  }

  lemma BaseContentsOf(base: Fields)
    requires IsBaseState(base)
    ensures IsBaseContents(Contents(base))
  {
  }

  /** Each derived field of a state that agrees with its base state shows what its name says. */
  lemma AgreeingFieldsAre(base: Fields, derived: Fields)
    requires IsBaseState(base) && Agrees(DerivedFrom, base, derived)
    ensures IsBaseContents(Contents(base)) && IsDerivedOf(Contents(base), Shown(derived))
  {
    BaseContentsOf(base);
    DerivedFromIs(Contents(base));
    AgreeingShown(DerivedFrom, base, derived);
  }

  // ----- Reporting changes

  /** `difference`: the fields of `a` that are not identical in `b`. */
  function Difference(a: Fields, b: Fields): Fields {
    map f | f in a && !(f in b && StrictlyEqual(a[f], b[f])) :: a[f]
  }

  /**
   Although `difference` compares identities, it reports a field exactly
   when its content has changed.
   */
  lemma DifferenceIsChange(s: Fields, u: Fields)
    requires Coherent(s, u)
    ensures forall f :: f in Difference(Reduce(s, u), s) <==> f in s && Contents(Reduce(s, u))[f] != Contents(s)[f]
    ensures forall f :: f in Difference(Reduce(s, u), s) ==> f in u && Difference(Reduce(s, u), s)[f] == u[f]
  {
    forall f | f in s
      ensures f in Difference(Reduce(s, u), s) <==> Reduce(s, u)[f].content != s[f].content
    {
      if f in u {
        FieldEqualsIsEquality(s[f].content, u[f].content);
      }
    }
  }

  /** The state of the store. */
  function Whole(base: Fields, derived: Fields): Fields {
    base + derived
  }

  lemma DifferenceOfWhole(base: Fields, derived: Fields, base': Fields, derived': Fields)
    requires base.Keys == base'.Keys && derived.Keys == derived'.Keys && base.Keys !! derived.Keys
    ensures Difference(Whole(base', derived'), Whole(base, derived))
         == Difference(base', base) + Difference(derived', derived)
  {
  }

  // ----- Updates without news

  /** Every known field of the update holds what the store already holds. */
  ghost predicate NoNews(base: Fields, u: Fields) {
    forall f :: f in base && f in u ==> u[f].content == base[f].content
  }

  lemma NoNewsKeepsBase(base: Fields, u: Fields)
    requires NoNews(base, u)
    ensures Reduce(base, u) == base
  {
  }

  /** Deriving again from the same base state changes nothing, not even identities. */
  lemma DerivingAgainKeepsDerived(derivation: Derivation, base: Fields, derived: Fields, refs: Field -> nat)
    requires Agrees(derivation, base, derived)
    ensures Derive(derivation, base, refs).Ok?
    ensures Reduce(derived, Derive(derivation, base, refs).value) == derived
  {
  }

  lemma NothingDiffers(s: Fields)
    ensures Difference(s, s) == map[]
  {
  }
}
