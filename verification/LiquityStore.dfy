/** The `LiquityStore` object: loading, updating, ticking, subscribing and stopping. */
module Store {
  import opened Outcomes
  import opened StoreState
  import opened StoreRuntime

  class LiquityStore {
    /** What `_derive` computes: StoreState.DerivedFrom, or any other function of the base state. */
    const derivation: Derivation

    var loaded: bool
    var baseState: Option<Fields>
    var derivedState: Option<Fields>

    var listeners: seq<nat>
    var nextListener: nat
    var updateTimeoutId: Option<nat>
    var liveTimers: set<nat>
    var nextTimer: nat

    /** The state that was loaded and the updates that were passed in since. */
    ghost var Initial: Fields
    ghost var Updates: seq<Fields>

    /** Whether the last attempt to derive threw. */
    ghost var Stale: bool

    function Rt(): Runtime
      reads `listeners, `nextListener, `updateTimeoutId, `liveTimers, `nextTimer
    {
      Runtime(listeners, nextListener, updateTimeoutId, liveTimers, nextTimer)
    }

    /** The state of a loaded store as a value. */
    ghost function View(): StoreValue
      reads `loaded, `baseState, `derivedState, `Stale
      requires baseState.Some? && derivedState.Some?
    {
      StoreValue(baseState.value, derivedState.value, Stale)
    }

    ghost predicate StateValid()
      reads `loaded, `baseState, `derivedState, `Initial, `Updates, `Stale
    {
      && (loaded <==> derivedState.Some?)
      && (loaded ==> baseState.Some?)
      && (baseState.Some? ==> IsBaseState(baseState.value) && baseState.value == ReduceAll(Initial, Updates))
      && (loaded ==> IsDerivedState(derivedState.value))
      && (loaded && !Stale ==> Agrees(derivation, baseState.value, derivedState.value))
    }

    ghost predicate RtValid()
      reads `listeners, `nextListener, `updateTimeoutId, `liveTimers, `nextTimer
    {
      StoreRuntime.Valid(Rt())
    }

    ghost predicate Valid()
      reads this
    {
      StateValid() && RtValid()
    }

    /**
     In every run: the base state is what one merged update would have
     made of the loaded state, and unless the last derivation threw, every
     derived field equals what is derived from it.
     */
    lemma StateFollowsHistory()
      requires Valid() && loaded
      ensures Contents(baseState.value) == Contents(Reduce(Initial, Merged(Updates)))
      ensures !Stale ==> Agrees(derivation, baseState.value, derivedState.value)
    {
      ReduceAllIsReduceMerged(Initial, Updates);
    }

    constructor (derivation: Derivation)
      ensures this.derivation == derivation
      ensures Valid() && !loaded && Rt() == Fresh
    {
      this.derivation := derivation;
      loaded, baseState, derivedState := false, None, None;
      listeners, nextListener, updateTimeoutId, liveTimers, nextTimer := [], 0, None, {}, 0;
      Initial, Updates, Stale := map[], [], false;
    }

    // ----- Listeners and timers

    method Subscribe() returns (listener: nat)
      requires RtValid()
      modifies `listeners, `nextListener
      ensures RtValid() && Rt() == Subscribed(old(Rt()))
      ensures listener !in old(listeners) && listeners == old(listeners) + [listener]
    {
      PerformKeepsValid(Rt(), Action.Subscribe);
      listener := nextListener;
      listeners, nextListener := listeners + [nextListener], nextListener + 1;
    }

    method Unsubscribe(listener: nat)
      requires RtValid()
      modifies `listeners
      ensures RtValid() && Rt() == Unsubscribed(old(Rt()), listener)
      ensures listener !in listeners
      ensures listener !in old(listeners) ==> listeners == old(listeners)
      ensures forall k :: 0 <= k < |old(listeners)| && old(listeners)[k] == listener ==>
                listeners == old(listeners)[..k] + old(listeners)[k + 1..]
    {
      PerformKeepsValid(Rt(), Action.Unsubscribe(listener));
      WithoutIs(listeners, listener);
      listeners := Without(listeners, listener);
    }

    /** Also what the function returned by `start` does, once monitoring has stopped. */
    method CancelUpdateIfScheduled()
      requires RtValid()
      modifies `liveTimers
      ensures RtValid() && Rt() == Cancelled(old(Rt())) && liveTimers == {}
    {
      if updateTimeoutId.Some? {
        liveTimers := liveTimers - {updateTimeoutId.value};
      }
    }

    method ScheduleUpdate()
      requires RtValid()
      modifies `updateTimeoutId, `liveTimers, `nextTimer
      ensures RtValid() && Rt() == Scheduled(old(Rt()))
      ensures updateTimeoutId.Some? && liveTimers == {updateTimeoutId.value}
      ensures updateTimeoutId.value !in old(liveTimers)
    {
      CancelUpdateIfScheduled();
      updateTimeoutId, liveTimers, nextTimer := Some(nextTimer), liveTimers + {nextTimer}, nextTimer + 1;
    }

    /** A callback, as the list of what it does to the store. */
    method RunCallback(actions: seq<Action>)
      requires RtValid()
      modifies `listeners, `nextListener, `liveTimers
      ensures RtValid() && Rt() == PerformAll(old(Rt()), actions)
    {
      for i := 0 to |actions|
        invariant RtValid() && Rt() == PerformAll(old(Rt()), actions[..i])
      {
        assert actions[..i + 1][..i] == actions[..i];
        match actions[i]
        case Subscribe => var _ := Subscribe();
        case Unsubscribe(l) => Unsubscribe(l);
        case Stop => CancelUpdateIfScheduled();
      }
      assert actions[..|actions|] == actions;
    }

    method Notify(script: Script) returns (calls: seq<nat>)
      requires RtValid()
      modifies `listeners, `nextListener, `liveTimers
      ensures RtValid() && Notification(Rt(), calls) == AfterTurns(old(Rt()), old(listeners), |old(listeners)|, script)
    {
      var copy := listeners;
      calls := [];
      for i := 0 to |copy|
        invariant RtValid()
        invariant Notification(Rt(), calls) == AfterTurns(old(Rt()), copy, i, script)
      {
        if copy[i] in listeners {
          RunCallback(script(|calls|));
          calls := calls + [copy[i]];
        }
      }
    }

    method ScheduleAndRun(callback: seq<Action>)
      requires Valid()
      modifies `listeners, `nextListener, `updateTimeoutId, `liveTimers, `nextTimer
      ensures Valid() && Rt() == PerformAll(Scheduled(old(Rt())), callback)
    {
      ScheduleUpdate();
      RunCallback(callback);
    }

    method ScheduleAndNotify(script: Script) returns (calls: seq<nat>)
      requires Valid()
      modifies `listeners, `nextListener, `updateTimeoutId, `liveTimers, `nextTimer
      ensures Valid()
      ensures Notification(Rt(), calls) == AfterTurns(Scheduled(old(Rt())), old(listeners), |old(listeners)|, script)
    {
      ScheduleUpdate();
      calls := Notify(script);
    }

    // ----- Loading and updating

    method LoadState(base: Fields, refs: Field -> nat) returns (ok: bool)
      requires StateValid() && IsBaseState(base)
      modifies `loaded, `baseState, `derivedState, `Initial, `Updates, `Stale
      ensures StateValid()
      ensures ok <==> !old(loaded) && Derive(derivation, base, refs).Ok?
      ensures ok ==> loaded && !Stale
      ensures !ok ==> loaded == old(loaded) && derivedState == old(derivedState)
      ensures baseState == if old(loaded) then old(baseState) else Some(base)
      ensures old(loaded) ==> Initial == old(Initial) && Updates == old(Updates) && Stale == old(Stale)
      ensures !old(loaded) ==> Initial == base && Updates == []
      ensures ok ==> derivedState == Some(Derive(derivation, base, refs).value)
    {
      if loaded {
        return false;
      }
      baseState := Some(base);
      Initial, Updates := base, [];
      var derived := Derive(derivation, base, refs);
      if derived.Err? {
        return false;
      }
      DerivedAgrees(derivation, base, refs);
      derivedState := Some(derived.value);
      loaded, Stale := true, false;
      return true;
    }

    /** False when the store throws: it was loaded before, or a rate cannot be derived. */
    method Load(base: Fields, refs: Field -> nat, onLoaded: seq<Action>) returns (ok: bool)
      requires Valid() && IsBaseState(base)
      modifies this
      ensures Valid()
      ensures ok <==> !old(loaded) && Derive(derivation, base, refs).Ok?
      ensures ok ==> loaded && !Stale
      ensures ok ==> Rt() == PerformAll(Scheduled(old(Rt())), onLoaded)
      ensures !ok ==> Rt() == old(Rt()) && loaded == old(loaded) && derivedState == old(derivedState)
      ensures baseState == if old(loaded) then old(baseState) else Some(base)
      ensures old(loaded) ==> Initial == old(Initial) && Updates == old(Updates) && Stale == old(Stale)
      ensures !old(loaded) ==> Initial == base && Updates == []
      ensures ok ==> Loaded(derivation, base, refs) == Ok(View())
    {
      ok := LoadState(base, refs);
      if ok {
        ScheduleAndRun(onLoaded);
      }
    }

    method ReplaceBase(update: Option<Fields>)
      requires StateValid() && loaded && (update.Some? ==> IsBaseUpdate(update.value))
      modifies `baseState, `Updates
      ensures baseState == Some(NextBase(old(baseState.value), update))
      ensures Updates == old(Updates) + UpdatesOf(update)
      ensures baseState.value == ReduceAll(Initial, Updates)
    {
      if update.Some? {
        baseState := Some(Reduce(baseState.value, update.value));
        Updates := Updates + [update.value];
        ReduceOneMore(Initial, old(Updates), update.value);
      } else {
        assert Updates + [] == Updates;
      }
    }

    method UpdateState(update: Option<Fields>, refs: Field -> nat) returns (ok: bool, change: Fields)
      requires StateValid() && (update.Some? ==> IsBaseUpdate(update.value))
      modifies `baseState, `derivedState, `Updates, `Stale
      ensures StateValid()
      ensures !loaded ==> !ok && baseState == old(baseState) && Updates == old(Updates)
      ensures loaded ==> Stale == !ok && Updates == old(Updates) + UpdatesOf(update)
      ensures loaded ==> View() == Updated(derivation, old(View()), update, refs)
      ensures !ok ==> change == map[]
      ensures ok ==> change == Difference(Whole(baseState.value, derivedState.value),
                                          Whole(old(baseState.value), old(derivedState.value)))
    {
      change := map[];
      if baseState.None? || derivedState.None? {
        return false, change;
      }
      ghost var was := View();
      var oldState := Whole(baseState.value, derivedState.value);
      UpdatedIsValid(derivation, was, update, refs);
      ReplaceBase(update);
      var derived := Derive(derivation, baseState.value, refs);
      if derived.Err? {
        Stale := true;
        return false, change;
      }
      derivedState := Some(Reduce(derivedState.value, derived.value));
      Stale := false;
      return true, Difference(Whole(baseState.value, derivedState.value), oldState);
    }

    /**
     False when the store throws: it was not loaded, or a rate cannot be
     derived.  In the second case the base state has been replaced all the
     same, no listener is called and no update is scheduled.
     */
    method Update(update: Option<Fields>, refs: Field -> nat, script: Script)
      returns (ok: bool, change: Fields, calls: seq<nat>)
      requires Valid() && (update.Some? ==> IsBaseUpdate(update.value))
      modifies this
      ensures Valid() && loaded == old(loaded)
      ensures !loaded ==> !ok && baseState == old(baseState)
      ensures loaded ==> Stale == !ok
      ensures loaded ==>
                IsUpdate(derivation, old(baseState.value), old(derivedState.value), old(Stale), update, refs,
                         ok, change, baseState.value, derivedState.value)
      ensures Initial == old(Initial)
      ensures Updates == if loaded then old(Updates) + UpdatesOf(update) else old(Updates)
      ensures loaded ==> View() == Updated(derivation, old(View()), update, refs)
      ensures ok ==>
                Notification(Rt(), calls)
                == AfterTurns(Scheduled(old(Rt())), old(listeners), |old(listeners)|, script)
      ensures !ok ==> Rt() == old(Rt()) && calls == []
    {
      calls := [];
      if loaded {
        UpdateLaws(derivation, baseState.value, derivedState.value, Stale, update, refs);
      }
      ok, change := UpdateState(update, refs);
      if ok {
        calls := ScheduleAndNotify(script);
      }
    }

    /** The callback of the update timer. */
    method Tick(timer: nat, refs: Field -> nat, script: Script) returns (ok: bool, change: Fields, calls: seq<nat>)
      requires Valid() && timer in liveTimers
      modifies this
      ensures Valid() && baseState == old(baseState) && loaded == old(loaded)
      ensures Initial == old(Initial) && Updates == old(Updates)
      ensures !loaded ==> !ok
      ensures loaded ==> Stale == !ok && View() == Updated(derivation, old(View()), None, refs)
      ensures old(loaded && !Stale) ==> ok && change == map[] && derivedState == old(derivedState)
      ensures ok ==> Agrees(derivation, baseState.value, derivedState.value)
      ensures ok ==> Notification(Rt(), calls) ==
                       AfterTurns(Scheduled(Fired(old(Rt()), timer)), old(listeners), |old(listeners)|, script)
      ensures !ok ==> Rt() == Fired(old(Rt()), timer) && calls == []
    {
      FireLaws(Rt(), timer);
      liveTimers, updateTimeoutId := liveTimers - {timer}, None;
      ok, change, calls := Update(None, refs, script);
    }
  }

  // ----- Runs

  /** Base and derived state, and whether the last attempt to derive threw. */
  datatype StoreValue = StoreValue(base: Fields, derived: Fields, stale: bool)

  function Loaded(derivation: Derivation, base: Fields, refs: Field -> nat): Result<StoreValue> {
    match Derive(derivation, base, refs)
    case Ok(d) => Ok(StoreValue(base, d, false))
    case Err => Err
  }

  /** What an update, or a tick without one, makes of a loaded store. */
  function Updated(derivation: Derivation, v: StoreValue, update: Option<Fields>, refs: Field -> nat): StoreValue {
    var base := NextBase(v.base, update);
    match Derive(derivation, base, refs)
    case Ok(d) => StoreValue(base, Reduce(v.derived, d), false)
    case Err => StoreValue(base, v.derived, true)
  }

  /** An update or a tick, with the identities that deriving gives to new values. */
  datatype StoreEvent = StoreEvent(update: Option<Fields>, refs: Field -> nat)

  function UpdatesOf(update: Option<Fields>): seq<Fields> {
    if update.Some? then [update.value] else []
  }

  function AllUpdates(events: seq<StoreEvent>): seq<Fields> {
    if events == [] then [] else AllUpdates(events[..|events| - 1]) + UpdatesOf(events[|events| - 1].update)
  }

  function UpdatedAll(derivation: Derivation, v: StoreValue, events: seq<StoreEvent>): StoreValue {
    if events == [] then v
    else
      var e := events[|events| - 1];
      Updated(derivation, UpdatedAll(derivation, v, events[..|events| - 1]), e.update, e.refs)
  }

  lemma {:induction false} BaseIsReduced(derivation: Derivation, v: StoreValue, events: seq<StoreEvent>)
    ensures UpdatedAll(derivation, v, events).base == ReduceAll(v.base, AllUpdates(events))
  {
    if events != [] {
      var init, e := events[..|events| - 1], events[|events| - 1];
      BaseIsReduced(derivation, v, init);
      if e.update.Some? {
        ReduceOneMore(v.base, AllUpdates(init), e.update.value);
      } else {
        assert AllUpdates(init) + [] == AllUpdates(init);
      }
    }
  }

  lemma {:induction false} DerivedFollowsBase(derivation: Derivation, v: StoreValue, events: seq<StoreEvent>)
    requires IsDerivedState(v.derived) && !v.stale && Agrees(derivation, v.base, v.derived)
    ensures var w := UpdatedAll(derivation, v, events);
            && IsDerivedState(w.derived)
            && (w.stale <==> derivation(Contents(w.base)).Err?)
            && (!w.stale ==> Agrees(derivation, w.base, w.derived))
  {
    if events != [] {
      var init, e := events[..|events| - 1], events[|events| - 1];
      DerivedFollowsBase(derivation, v, init);
      var w := UpdatedAll(derivation, v, init);
      var base := NextBase(w.base, e.update);
      if Derive(derivation, base, e.refs).Ok? {
        ReducedDerivedAgrees(derivation, base, w.derived, e.refs);
      }
    }
  }

  /**
   In every run of a loaded store: the base state holds what one merged
   update would have made of the loaded state; whether the derived state is
   stale depends on that state alone, not on the way to it; and unless it is,
   every derived field equals what is derived from the base state.
   */
  lemma RunRefinesRecomputation(derivation: Derivation, base: Fields, refs: Field -> nat, events: seq<StoreEvent>)
    requires Loaded(derivation, base, refs).Ok?
    ensures var w := UpdatedAll(derivation, Loaded(derivation, base, refs).value, events);
            && Contents(w.base) == Contents(Reduce(base, Merged(AllUpdates(events))))
            && (w.stale <==> derivation(Contents(w.base)).Err?)
            && (!w.stale ==> Agrees(derivation, w.base, w.derived))
  {
    var v := Loaded(derivation, base, refs).value;
    DerivedAgrees(derivation, base, refs);
    BaseIsReduced(derivation, v, events);
    DerivedFollowsBase(derivation, v, events);
    ReduceAllIsReduceMerged(base, AllUpdates(events));
  }

  ghost predicate AreBaseUpdates(events: seq<StoreEvent>) {
    forall e :: e in events && e.update.Some? ==> IsBaseUpdate(e.update.value)
  }

  lemma {:induction false} RunKeepsBaseState(derivation: Derivation, v: StoreValue, events: seq<StoreEvent>)
    requires IsBaseState(v.base) && AreBaseUpdates(events)
    ensures IsBaseState(UpdatedAll(derivation, v, events).base)
  {
    if events != [] {
      var init, e := events[..|events| - 1], events[|events| - 1];
      assert e in events;
      RunKeepsBaseState(derivation, v, init);
      NextBaseLaws(UpdatedAll(derivation, v, init).base, e.update);
    }
  }

  /** Unless the last derivation threw, each derived field shows what its name says of the base state. */
  ghost predicate ShowsBaseState(v: StoreValue) {
    && IsBaseContents(Contents(v.base))
    && (!v.stale ==> IsDerivedState(v.derived) && IsDerivedOf(Contents(v.base), Shown(v.derived)))
  }

  /** So it is throughout every run of a loaded store. */
  lemma RunShowsBaseState(base: Fields, refs: Field -> nat, events: seq<StoreEvent>)
    requires IsBaseState(base) && Loaded(DerivedFrom, base, refs).Ok? && AreBaseUpdates(events)
    ensures ShowsBaseState(UpdatedAll(DerivedFrom, Loaded(DerivedFrom, base, refs).value, events))
  {
    var v := Loaded(DerivedFrom, base, refs).value;
    var w := UpdatedAll(DerivedFrom, v, events);
    RunRefinesRecomputation(DerivedFrom, base, refs, events);
    RunKeepsBaseState(DerivedFrom, v, events);
    BaseContentsOf(w.base);
    if !w.stale {
      AgreeingFieldsAre(w.base, w.derived);
    }
  }

  function News(update: Option<Fields>): Fields {
    if update.Some? then update.value else map[]
  }

  function NextBase(base: Fields, update: Option<Fields>): Fields {
    if update.Some? then Reduce(base, update.value) else base
  }

  lemma ReduceOneMore(s: Fields, us: seq<Fields>, u: Fields)
    ensures ReduceAll(s, us + [u]) == Reduce(ReduceAll(s, us), u)
  {
  }

  lemma NextBaseLaws(base: Fields, update: Option<Fields>)
    requires IsBaseState(base) && (update.Some? ==> IsBaseUpdate(update.value))
    ensures IsBaseState(NextBase(base, update))
    ensures NextBase(base, update) == Reduce(base, News(update))
    ensures NoNews(base, News(update)) ==> NextBase(base, update) == base
  {
    var u := News(update);
    ReduceKeepsTypes(base, u);
    if NoNews(base, u) {
      NoNewsKeepsBase(base, u);
    }
  }

  lemma DerivedAgrees(derivation: Derivation, base: Fields, refs: Field -> nat)
    requires Derive(derivation, base, refs).Ok?
    ensures IsDerivedState(Derive(derivation, base, refs).value)
    ensures Agrees(derivation, base, Derive(derivation, base, refs).value)
  {
    var d := derivation(Contents(base)).value;
    DerivedFieldsAreTyped(d, refs);
    forall f: Field | IsDerived(f)
      ensures FieldEquals(ContentOf(d, f), ContentOf(d, f))
    {
      FieldEqualsIsEquality(ContentOf(d, f), ContentOf(d, f));
    }
  }

  /** The reported change holds the fields whose content differs, with their new values. */
  ghost predicate ReportsChanges(change: Fields, base: Fields, derived: Fields, base': Fields, derived': Fields) {
    && (forall f :: f in change <==>
          || (f in base && f in base' && base'[f].content != base[f].content)
          || (f in derived && f in derived' && derived'[f].content != derived[f].content))
    && (forall f :: f in change ==> f in Whole(base', derived') && change[f] == Whole(base', derived')[f])
  }

  /** What an update does to a loaded state, including when it throws. */
  ghost predicate IsUpdate(derivation: Derivation, base: Fields, derived: Fields, stale: bool,
                           update: Option<Fields>, refs: Field -> nat,
                           ok: bool, change: Fields, base': Fields, derived': Fields)
    requires IsBaseState(base) && (update.Some? ==> IsBaseUpdate(update.value))
  {
    && base' == NextBase(base, update)
    && IsBaseState(base')
    && (ok <==> Derive(derivation, base', refs).Ok?)
    && (ok ==> Agrees(derivation, base', derived'))
    && (!ok ==> derived' == derived)
    && (ok && Coherent(base, News(update)) && Coherent(derived, Derive(derivation, base', refs).value) ==>
          ReportsChanges(change, base, derived, base', derived'))
    && (!stale && NoNews(base, News(update)) ==> ok && change == map[] && base' == base && derived' == derived)
  }

  lemma UpdatedIsValid(derivation: Derivation, v: StoreValue, update: Option<Fields>, refs: Field -> nat)
    requires IsBaseState(v.base) && IsDerivedState(v.derived)
    requires update.Some? ==> IsBaseUpdate(update.value)
    ensures var w := Updated(derivation, v, update, refs);
            IsBaseState(w.base) && IsDerivedState(w.derived) && (!w.stale ==> Agrees(derivation, w.base, w.derived))
  {
    NextBaseLaws(v.base, update);
    var base := NextBase(v.base, update);
    if Derive(derivation, base, refs).Ok? {
      ReducedDerivedAgrees(derivation, base, v.derived, refs);
    }
  }

  lemma UpdateLaws(derivation: Derivation, base: Fields, derived: Fields, stale: bool, update: Option<Fields>,
                   refs: Field -> nat)
    requires IsBaseState(base) && IsDerivedState(derived) && (!stale ==> Agrees(derivation, base, derived))
    requires update.Some? ==> IsBaseUpdate(update.value)
    ensures IsBaseState(NextBase(base, update))
    ensures var base' := NextBase(base, update);
            match Derive(derivation, base', refs)
            case Ok(d) =>
              var derived' := Reduce(derived, d);
              IsDerivedState(derived')
              && IsUpdate(derivation, base, derived, stale, update, refs,
                          true, Difference(Whole(base', derived'), Whole(base, derived)), base', derived')
            case Err =>
              IsUpdate(derivation, base, derived, stale, update, refs, false, map[], base', derived)
  {
    var base' := NextBase(base, update);
    NextBaseLaws(base, update);
    if !stale && NoNews(base, News(update)) {
      DerivingAgainKeepsDerived(derivation, base, derived, refs);
      NothingDiffers(Whole(base, derived));
    }
    if Derive(derivation, base', refs).Ok? {
      ReducedDerivedAgrees(derivation, base', derived, refs);
      ChangeLaws(base, derived, News(update), Derive(derivation, base', refs).value);
    }
  }

  lemma ChangeLaws(base: Fields, derived: Fields, u: Fields, d: Fields)
    requires IsBaseState(base) && IsDerivedState(derived)
    ensures Coherent(base, u) && Coherent(derived, d) ==>
              var base', derived' := Reduce(base, u), Reduce(derived, d);
              ReportsChanges(Difference(Whole(base', derived'), Whole(base, derived)), base, derived, base', derived')
  {
    var base', derived' := Reduce(base, u), Reduce(derived, d);
    DifferenceOfWhole(base, derived, base', derived');
    if Coherent(base, u) && Coherent(derived, d) {
      DifferenceIsChange(base, u);
      DifferenceIsChange(derived, d);
    }
  }
}
