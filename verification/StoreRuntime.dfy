/**
 Listeners and the update timer of `LiquityStore`, as values.

 Callbacks are arbitrary: what the k-th callback of a notification does to
 the store is a list of actions `script(k)`, and laws hold for every script.
 The live timers belong to the JavaScript runtime.
 */
module StoreRuntime {
  import opened Outcomes

  /** What a callback can do to the store, short of updating it. */
  datatype Action = Subscribe | Unsubscribe(listener: nat) | Stop

  datatype Runtime = Runtime(
    listeners: seq<nat>,
    nextListener: nat,
    recorded: Option<nat>,
    live: set<nat>,
    nextTimer: nat
  )

  predicate Increasing(s: seq<nat>) {
    forall i, j :: 0 <= i < j < |s| ==> s[i] < s[j]
  }

  /** Listeners are in order of subscription; the only live timer, if any, is the recorded one. */
  predicate Valid(rt: Runtime) {
    && Increasing(rt.listeners)
    && (forall l :: l in rt.listeners ==> l < rt.nextListener)
    && (rt.recorded.Some? ==> rt.recorded.value < rt.nextTimer)
    && (forall t :: t in rt.live ==> rt.recorded == Some(t))
  }

  function Without(s: seq<nat>, x: nat): (r: seq<nat>)
    ensures forall y :: y in r <==> y in s && y != x
  {
    if s == [] then []
    else
      assert s == s[..|s| - 1] + [s[|s| - 1]];
      Without(s[..|s| - 1], x) + if s[|s| - 1] == x then [] else [s[|s| - 1]]
  }

  lemma {:induction false} WithoutIncreasing(s: seq<nat>, x: nat)
    requires Increasing(s)
    ensures Increasing(Without(s, x))
  {
    if s != [] {
      var init, last := s[..|s| - 1], s[|s| - 1];
      WithoutIncreasing(init, x);
      forall y | y in Without(init, x)
        ensures y < last
      {
        assert y in init;
      }
      var w := Without(init, x);
      assert forall i :: 0 <= i < |w| ==> w[i] in w;
    }
  }

  lemma {:induction false} WithoutAbsent(s: seq<nat>, x: nat)
    requires x !in s
    ensures Without(s, x) == s
  {
    if s != [] {
      var init, last := s[..|s| - 1], s[|s| - 1];
      assert s == init + [last];
      WithoutAbsent(init, x);
    }
  }

  /** Removing an element keeps the others in their order. */
  lemma {:induction false} WithoutAt(s: seq<nat>, k: nat)
    requires Increasing(s) && k < |s|
    ensures Without(s, s[k]) == s[..k] + s[k + 1..]
  {
    var init, last := s[..|s| - 1], s[|s| - 1];
    if k < |init| {
      WithoutAt(init, k);
      assert init[..k] == s[..k] && s[k + 1..] == init[k + 1..] + [last];
    } else {
      WithoutAbsent(init, last);
      assert s[..k] + s[k + 1..] == init;
    }
  }

  lemma WithoutIs(s: seq<nat>, x: nat)
    requires Increasing(s)
    ensures x !in s ==> Without(s, x) == s
    ensures forall k :: 0 <= k < |s| && s[k] == x ==> Without(s, x) == s[..k] + s[k + 1..]
  {
    if x !in s {
      WithoutAbsent(s, x);
    }
    forall k | 0 <= k < |s| && s[k] == x
      ensures Without(s, x) == s[..k] + s[k + 1..]
    {
      WithoutAt(s, k);
    }
  }

  // ----- Steps

  /** `subscribe`: every subscription adds a listener of its own. */
  function Subscribed(rt: Runtime): Runtime {
    rt.(listeners := rt.listeners + [rt.nextListener], nextListener := rt.nextListener + 1)
  }

  function Unsubscribed(rt: Runtime, listener: nat): Runtime {
    rt.(listeners := Without(rt.listeners, listener))
  }

  /** `_cancelUpdateIfScheduled`; the recorded id is kept. */
  function Cancelled(rt: Runtime): Runtime {
    if rt.recorded.Some? then rt.(live := rt.live - {rt.recorded.value}) else rt
  }

  /** `_scheduleUpdate` */
  function Scheduled(rt: Runtime): Runtime {
    Cancelled(rt).(recorded := Some(rt.nextTimer), live := Cancelled(rt).live + {rt.nextTimer},
                   nextTimer := rt.nextTimer + 1)
  }

  /** The runtime takes a timer off when it fires, and the callback forgets it. */
  function Fired(rt: Runtime, timer: nat): Runtime {
    rt.(live := rt.live - {timer}, recorded := None)
  }

  function Perform(rt: Runtime, action: Action): Runtime {
    match action
    case Subscribe => Subscribed(rt)
    case Unsubscribe(l) => Unsubscribed(rt, l)
    case Stop => Cancelled(rt)
  }

  function PerformAll(rt: Runtime, actions: seq<Action>): Runtime {
    if actions == [] then rt else Perform(PerformAll(rt, actions[..|actions| - 1]), actions[|actions| - 1])
  }

  lemma PerformKeepsValid(rt: Runtime, action: Action)
    requires Valid(rt)
    ensures Valid(Perform(rt, action))
    ensures Perform(rt, action).live <= rt.live
    ensures Perform(rt, action).nextListener >= rt.nextListener
    ensures action.Stop? ==> Perform(rt, action).live == {}
    ensures forall l :: l in Perform(rt, action).listeners && l < rt.nextListener ==> l in rt.listeners
  {
    match action
    case Subscribe => assert forall i :: 0 <= i < |rt.listeners| ==> rt.listeners[i] in rt.listeners;
    case Unsubscribe(l) => WithoutIncreasing(rt.listeners, l);
    case Stop =>
  }

  lemma {:induction false} PerformAllKeepsValid(rt: Runtime, actions: seq<Action>)
    requires Valid(rt)
    ensures Valid(PerformAll(rt, actions))
    ensures PerformAll(rt, actions).live <= rt.live
    ensures PerformAll(rt, actions).nextListener >= rt.nextListener
    ensures Stop in actions ==> PerformAll(rt, actions).live == {}
    ensures forall l :: l in PerformAll(rt, actions).listeners && l < rt.nextListener ==> l in rt.listeners
  {
    if actions != [] {
      var init, last := actions[..|actions| - 1], actions[|actions| - 1];
      assert actions == init + [last];
      PerformAllKeepsValid(rt, init);
      PerformKeepsValid(PerformAll(rt, init), last);
    }
  }

  /** A subscription comes last, under a number no listener has; the others and the timers are left alone. */
  lemma SubscribeLaws(rt: Runtime)
    requires Valid(rt)
    ensures exists l :: l !in rt.listeners && Subscribed(rt).listeners == rt.listeners + [l]
    ensures Subscribed(rt).recorded == rt.recorded && Subscribed(rt).live == rt.live
  {
    assert rt.nextListener !in rt.listeners;
  }

  /** One that was not subscribed changes nothing, and one that was leaves the others in their order. */
  lemma UnsubscribeLaws(rt: Runtime, listener: nat)
    requires Valid(rt)
    ensures listener !in rt.listeners ==> Unsubscribed(rt, listener) == rt
    ensures forall k :: 0 <= k < |rt.listeners| && rt.listeners[k] == listener ==>
              Unsubscribed(rt, listener) == rt.(listeners := rt.listeners[..k] + rt.listeners[k + 1..])
  {
    WithoutIs(rt.listeners, listener);
  }

  /** The timer that was live is replaced by a new one. */
  lemma ScheduleLaws(rt: Runtime)
    requires Valid(rt)
    ensures Valid(Scheduled(rt))
    ensures Scheduled(rt).recorded.Some? && Scheduled(rt).recorded.value !in rt.live
    ensures Scheduled(rt).live == {Scheduled(rt).recorded.value}
    ensures Scheduled(rt).listeners == rt.listeners && Scheduled(rt).nextListener == rt.nextListener
  {
  }

  lemma FireLaws(rt: Runtime, timer: nat)
    requires Valid(rt) && timer in rt.live
    ensures rt.recorded == Some(timer)
    ensures Valid(Fired(rt, timer)) && Fired(rt, timer).live == {}
  {
  }

  // ----- Notifying

  type Script = nat -> seq<Action>

  datatype Notification = Notification(rt: Runtime, calls: seq<nat>)

  /** After the first i listeners of the copy have had their turn. */
  function AfterTurns(rt: Runtime, copy: seq<nat>, i: nat, script: Script): Notification
    requires i <= |copy|
  {
    if i == 0 then Notification(rt, [])
    else
      var n := AfterTurns(rt, copy, i - 1, script);
      if copy[i - 1] in n.rt.listeners then
        Notification(PerformAll(n.rt, script(|n.calls|)), n.calls + [copy[i - 1]])
      else n
  }

  lemma {:induction false} TurnsKeepValid(rt: Runtime, i: nat, script: Script)
    requires Valid(rt) && i <= |rt.listeners|
    ensures var n := AfterTurns(rt, rt.listeners, i, script);
            Valid(n.rt) && n.rt.live <= rt.live && |n.calls| <= i
  {
    if i > 0 {
      TurnsKeepValid(rt, i - 1, script);
      var n := AfterTurns(rt, rt.listeners, i - 1, script);
      if rt.listeners[i - 1] in n.rt.listeners {
        PerformAllKeepsValid(n.rt, script(|n.calls|));
      }
    }
  }

  /** Once the k-th callback has stopped the store, no timer is live for the rest of the pass. */
  lemma {:induction false} StoppedDuringTurns(rt: Runtime, i: nat, script: Script, k: nat)
    requires Valid(rt) && i <= |rt.listeners|
    requires k < |AfterTurns(rt, rt.listeners, i, script).calls| && Stop in script(k)
    ensures AfterTurns(rt, rt.listeners, i, script).rt.live == {}
  {
    if i > 0 {
      TurnsKeepValid(rt, i - 1, script);
      var n := AfterTurns(rt, rt.listeners, i - 1, script);
      if rt.listeners[i - 1] in n.rt.listeners {
        PerformAllKeepsValid(n.rt, script(|n.calls|));
      }
      if k < |n.calls| {
        StoppedDuringTurns(rt, i - 1, script, k);
      }
    }
  }

  /** Calls go to listeners of the copy, in their order. */
  lemma {:induction false} CallsFollowTheCopy(rt: Runtime, i: nat, script: Script)
    requires Valid(rt) && i <= |rt.listeners|
    ensures var calls := AfterTurns(rt, rt.listeners, i, script).calls;
            && Increasing(calls)
            && (forall c :: c in calls ==> c in rt.listeners[..i])
  {
    if i > 0 {
      CallsFollowTheCopy(rt, i - 1, script);
      assert rt.listeners[..i] == rt.listeners[..i - 1] + [rt.listeners[i - 1]];
      var calls := AfterTurns(rt, rt.listeners, i - 1, script).calls;
      forall k | 0 <= k < |calls|
        ensures calls[k] < rt.listeners[i - 1]
      {
        assert calls[k] in calls;
        var m :| 0 <= m < i - 1 && rt.listeners[m] == calls[k];
      }
    }
  }

  lemma {:induction false} CallsGrow(rt: Runtime, copy: seq<nat>, i: nat, j: nat, script: Script)
    requires i <= j <= |copy|
    ensures AfterTurns(rt, copy, i, script).calls <= AfterTurns(rt, copy, j, script).calls
  {
    if i < j {
      CallsGrow(rt, copy, i, j - 1, script);
    }
  }

  lemma CalledIfStillSubscribed(rt: Runtime, copy: seq<nat>, j: nat, script: Script)
    requires j < |copy|
    requires copy[j] in AfterTurns(rt, copy, j, script).rt.listeners
    ensures copy[j] in AfterTurns(rt, copy, |copy|, script).calls
  {
    var before := AfterTurns(rt, copy, j, script).calls;
    CallsGrow(rt, copy, j + 1, |copy|, script);
    var calls := AfterTurns(rt, copy, |copy|, script).calls;
    assert AfterTurns(rt, copy, j + 1, script).calls == before + [copy[j]] <= calls;
    assert calls[|before|] == copy[j];
  }

  /** A listener that misses its turn is not called afterwards. */
  lemma {:induction false} NotCalledAfterMissedTurn(rt: Runtime, j: nat, i: nat, script: Script)
    requires Valid(rt) && j < i <= |rt.listeners|
    requires rt.listeners[j] !in AfterTurns(rt, rt.listeners, j, script).rt.listeners
    ensures rt.listeners[j] !in AfterTurns(rt, rt.listeners, i, script).calls
  {
    if i == j + 1 {
      CallsFollowTheCopy(rt, j, script);
      assert rt.listeners[j] !in rt.listeners[..j];
    } else {
      NotCalledAfterMissedTurn(rt, j, i - 1, script);
      assert rt.listeners[i - 1] != rt.listeners[j];
    }
  }

  /**
   Whatever the callbacks do, a pass calls listeners in order of
   subscription and at most once, none that was added during the pass, and
   of the others exactly those still subscribed at their turn.
   */
  lemma NotifyLaws(rt: Runtime, script: Script)
    requires Valid(rt)
    ensures var calls := AfterTurns(rt, rt.listeners, |rt.listeners|, script).calls;
            && Increasing(calls)
            && (forall c :: c in calls ==> c in rt.listeners)
    ensures forall j :: 0 <= j < |rt.listeners| ==>
              (rt.listeners[j] in AfterTurns(rt, rt.listeners, |rt.listeners|, script).calls
               <==> rt.listeners[j] in AfterTurns(rt, rt.listeners, j, script).rt.listeners)
  {
    CallsFollowTheCopy(rt, |rt.listeners|, script);
    assert rt.listeners[..|rt.listeners|] == rt.listeners;
    forall j | 0 <= j < |rt.listeners|
      ensures rt.listeners[j] in AfterTurns(rt, rt.listeners, |rt.listeners|, script).calls
              <==> rt.listeners[j] in AfterTurns(rt, rt.listeners, j, script).rt.listeners
    {
      if rt.listeners[j] in AfterTurns(rt, rt.listeners, j, script).rt.listeners {
        CalledIfStillSubscribed(rt, rt.listeners, j, script);
      } else {
        NotCalledAfterMissedTurn(rt, j, |rt.listeners|, script);
      }
    }
  }

  // ----- Runs

  /** Loading with the actions of `onLoaded`, updating, and ticking; an update that throws changes nothing here. */
  datatype Event =
    | Act(action: Action)
    | Load(onLoaded: seq<Action>)
    | Update(script: Script)
    | Tick(script: Script)
    | TickThatThrows

  predicate Ticks(rt: Runtime) {
    rt.recorded.Some? && rt.recorded.value in rt.live
  }

  /** Loading, updating and ticking schedule the next update and then run callbacks, unless they throw. */
  function Next(rt: Runtime, e: Event): Runtime {
    match e
    case Act(a) => Perform(rt, a)
    case Load(onLoaded) => PerformAll(Scheduled(rt), onLoaded)
    case Update(script) => Notified(Scheduled(rt), script)
    case Tick(script) => if Ticks(rt) then Notified(Scheduled(Fired(rt, rt.recorded.value)), script) else rt
    case TickThatThrows => if Ticks(rt) then Fired(rt, rt.recorded.value) else rt
  }

  function Notified(rt: Runtime, script: Script): Runtime {
    AfterTurns(rt, rt.listeners, |rt.listeners|, script).rt
  }

  function RunOf(rt: Runtime, events: seq<Event>): Runtime {
    if events == [] then rt else Next(RunOf(rt, events[..|events| - 1]), events[|events| - 1])
  }

  const Fresh: Runtime := Runtime([], 0, None, {}, 0)

  lemma NotifiedKeepsValid(rt: Runtime, script: Script)
    requires Valid(rt)
    ensures Valid(Notified(Scheduled(rt), script))
  {
    ScheduleLaws(rt);
    TurnsKeepValid(Scheduled(rt), |rt.listeners|, script);
  }

  lemma NextKeepsValid(rt: Runtime, e: Event)
    requires Valid(rt)
    ensures Valid(Next(rt, e))
    ensures !e.Load? && !e.Update? && rt.live == {} ==> Next(rt, e).live == {}
  {
    match e
    case Act(a) => PerformKeepsValid(rt, a);
    case Load(onLoaded) =>
      ScheduleLaws(rt);
      PerformAllKeepsValid(Scheduled(rt), onLoaded);
    case Update(script) => NotifiedKeepsValid(rt, script);
    case Tick(script) =>
      if Ticks(rt) {
        FireLaws(rt, rt.recorded.value);
        NotifiedKeepsValid(Fired(rt, rt.recorded.value), script);
      }
    case TickThatThrows =>
      if Ticks(rt) {
        FireLaws(rt, rt.recorded.value);
      }
  }

  /** In every run at most one update timer is live, and it is the recorded one. */
  lemma {:induction false} AtMostOneLiveTimer(events: seq<Event>)
    ensures Valid(RunOf(Fresh, events))
    ensures forall s, t :: s in RunOf(Fresh, events).live && t in RunOf(Fresh, events).live ==> s == t
  {
    if events != [] {
      AtMostOneLiveTimer(events[..|events| - 1]);
      NextKeepsValid(RunOf(Fresh, events[..|events| - 1]), events[|events| - 1]);
    }
  }

  /** A stop, whether called directly, by `onLoaded` or by any listener of a pass, leaves no timer live. */
  lemma StopStops(rt: Runtime, e: Event, k: nat)
    requires Valid(rt)
    requires match e
             case Act(a) => a.Stop?
             case Load(onLoaded) => Stop in onLoaded
             case Update(script) => k < |AfterTurns(Scheduled(rt), rt.listeners, |rt.listeners|,
                                                    script).calls| && Stop in script(k)
             case Tick(script) =>
               && Ticks(rt)
               && var t := Scheduled(Fired(rt, rt.recorded.value));
                  k < |AfterTurns(t, t.listeners, |t.listeners|, script).calls| && Stop in script(k)
             case TickThatThrows => false
    ensures Next(rt, e).live == {}
  {
    match e
    case Act(a) => PerformKeepsValid(rt, a);
    case Load(onLoaded) =>
      ScheduleLaws(rt);
      PerformAllKeepsValid(Scheduled(rt), onLoaded);
    case Update(script) =>
      ScheduleLaws(rt);
      StoppedDuringTurns(Scheduled(rt), |rt.listeners|, script, k);
    case Tick(script) =>
      FireLaws(rt, rt.recorded.value);
      ScheduleLaws(Fired(rt, rt.recorded.value));
      StoppedDuringTurns(Scheduled(Fired(rt, rt.recorded.value)), |rt.listeners|, script, k);
    case TickThatThrows =>
  }

  /** Without a stop among them, actions leave the timers alone. */
  lemma {:induction false} PerformAllKeepsTimers(rt: Runtime, actions: seq<Action>)
    requires Stop !in actions
    ensures PerformAll(rt, actions).live == rt.live && PerformAll(rt, actions).recorded == rt.recorded
  {
    if actions != [] {
      var init, last := actions[..|actions| - 1], actions[|actions| - 1];
      assert actions == init + [last];
      PerformAllKeepsTimers(rt, init);
    }
  }

  /** Whether one of the callbacks of a pass stops the store. */
  ghost predicate StoppedBy(rt: Runtime, script: Script) {
    exists k: nat :: k < |AfterTurns(rt, rt.listeners, |rt.listeners|, script).calls| && Stop in script(k)
  }

  lemma {:induction false} TurnsKeepTimers(rt: Runtime, i: nat, script: Script)
    requires i <= |rt.listeners|
    requires forall k: nat :: k < |AfterTurns(rt, rt.listeners, i, script).calls| ==> Stop !in script(k)
    ensures var n := AfterTurns(rt, rt.listeners, i, script);
            n.rt.live == rt.live && n.rt.recorded == rt.recorded
  {
    if i > 0 {
      TurnsKeepTimers(rt, i - 1, script);
      var n := AfterTurns(rt, rt.listeners, i - 1, script);
      if rt.listeners[i - 1] in n.rt.listeners {
        PerformAllKeepsTimers(n.rt, script(|n.calls|));
      }
    }
  }

  /** A pass keeps the scheduled update exactly when none of its callbacks stops the store. */
  lemma PassKeepsTimerIff(rt: Runtime, script: Script)
    requires Valid(rt) && rt.live != {}
    ensures Ticks(Notified(rt, script)) <==> !StoppedBy(rt, script)
  {
    if StoppedBy(rt, script) {
      var k: nat :| k < |AfterTurns(rt, rt.listeners, |rt.listeners|, script).calls| && Stop in script(k);
      StoppedDuringTurns(rt, |rt.listeners|, script, k);
    } else {
      TurnsKeepTimers(rt, |rt.listeners|, script);
      var t :| t in rt.live;
    }
  }

  /**
   Loading, updating and a tick that does not throw leave the next update
   scheduled exactly when no callback they run stops the store.
   */
  lemma ScheduledUnlessStopped(rt: Runtime, e: Event)
    requires Valid(rt)
    ensures e.Load? ==> (Ticks(Next(rt, e)) <==> Stop !in e.onLoaded)
    ensures e.Update? ==> (Ticks(Next(rt, e)) <==> !StoppedBy(Scheduled(rt), e.script))
    ensures e.Tick? && Ticks(rt) ==>
              (Ticks(Next(rt, e)) <==> !StoppedBy(Scheduled(Fired(rt, rt.recorded.value)), e.script))
  {
    ScheduleLaws(rt);
    match e
    case Act(a) =>
    case Load(onLoaded) =>
      PerformAllKeepsValid(Scheduled(rt), onLoaded);
      if Stop !in onLoaded {
        PerformAllKeepsTimers(Scheduled(rt), onLoaded);
      }
    case Update(script) => PassKeepsTimerIff(Scheduled(rt), script);
    case Tick(script) =>
      if Ticks(rt) {
        FireLaws(rt, rt.recorded.value);
        ScheduleLaws(Fired(rt, rt.recorded.value));
        PassKeepsTimerIff(Scheduled(Fired(rt, rt.recorded.value)), script);
      }
    case TickThatThrows =>
  }

  /** After a stop, while no timer is live, none becomes live until the store is loaded or updated again. */
  lemma {:induction false} NothingLiveAfterStop(rt: Runtime, events: seq<Event>)
    requires Valid(rt) && rt.live == {}
    requires forall i :: 0 <= i < |events| ==> !events[i].Load? && !events[i].Update?
    ensures Valid(RunOf(rt, events)) && RunOf(rt, events).live == {}
  {
    if events != [] {
      NothingLiveAfterStop(rt, events[..|events| - 1]);
      NextKeepsValid(RunOf(rt, events[..|events| - 1]), events[|events| - 1]);
    }
  }
}
