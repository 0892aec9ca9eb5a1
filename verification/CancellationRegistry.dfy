// The request cancellation registry (Framework/httpapi/event_stream.go):
// register, replace, unregister and cancelAll as a state machine over all their
// interleavings. The registry mutex is held for the whole of cancelAll, but
// replace takes only the mutex of its lifetime, and cancel functions are called
// after the mutexes of their lifetimes are released.

module CancellationRegistry {
  import opened Common

  type LifetimeId(==, !new)
  type CancelFunction(==, !new)
  type CallId(==, !new)

  // cancel and active are fields of the lifetime; latest is the function that
  // register or replace was given last.
  datatype Lifetime = Lifetime(cancel: Option<CancelFunction>, active: bool, latest: CancelFunction, unregistered: bool)

  datatype Sweep =
    | NotStarted
    | Sweeping(todo: set<LifetimeId>)
    | Calling(cancelling: LifetimeId, rest: set<LifetimeId>, taken: Option<CancelFunction>)
    | Returned

  // A call of register or replace that must still call the function itself.
  datatype Debt = Debt(lifetime: LifetimeId, due: CancelFunction)

  datatype System = System(
    stopped: bool,
    registered: set<LifetimeId>,
    lifetimes: map<LifetimeId, Lifetime>,
    sweep: Sweep,
    debts: map<CallId, Debt>,
    called: set<CancelFunction>)

  const Initial := System(false, {}, map[], NotStarted, map[], {})

  datatype Event =
    | Register(call: CallId, made: LifetimeId, cancel: CancelFunction)
    | Replace(call: CallId, lifetime: LifetimeId, cancel: CancelFunction)
    | Pay(call: CallId)
    | Unregister(lifetime: LifetimeId)
    | BeginSweep
    | Take(lifetime: LifetimeId)
    | CallTaken
    | EndSweep

  predicate MutexFree(s: System) {
    s.sweep.NotStarted? || s.sweep.Returned?
  }

  predicate Enabled(s: System, e: Event) {
    match e
    case Register(call, l, _) => MutexFree(s) && l !in s.lifetimes && call !in s.debts
    case Replace(call, l, _) => l in s.lifetimes && call !in s.debts
    case Pay(call) => call in s.debts
    case Unregister(l) => MutexFree(s) && l in s.lifetimes
    case BeginSweep => MutexFree(s)
    case Take(l) => s.sweep.Sweeping? && l in s.sweep.todo && l in s.lifetimes
    case CallTaken => s.sweep.Calling?
    case EndSweep => s.sweep.Sweeping? && s.sweep.todo == {}
  }

  function AfterRegister(s: System, call: CallId, l: LifetimeId, f: CancelFunction): System {
    var t := s.(lifetimes := s.lifetimes[l := Lifetime(Some(f), !s.stopped, f, false)]);
    if s.stopped then t.(debts := s.debts[call := Debt(l, f)]) else t.(registered := s.registered + {l})
  }

  function AfterReplace(s: System, call: CallId, l: LifetimeId, f: CancelFunction): System
    requires l in s.lifetimes
  {
    var lifetime := s.lifetimes[l];
    if lifetime.active then s.(lifetimes := s.lifetimes[l := lifetime.(cancel := Some(f), latest := f)])
    else s.(lifetimes := s.lifetimes[l := lifetime.(latest := f)], debts := s.debts[call := Debt(l, f)])
  }

  function AfterTake(s: System, l: LifetimeId): System
    requires s.sweep.Sweeping? && l in s.lifetimes
  {
    s.(lifetimes := s.lifetimes[l := s.lifetimes[l].(active := false, cancel := None)],
       sweep := Calling(l, s.sweep.todo - {l}, s.lifetimes[l].cancel))
  }

  // A second cancelAll finds the registry stopped and returns.
  function AfterBegin(s: System): System {
    if s.stopped then s else s.(stopped := true, sweep := Sweeping(s.registered))
  }

  function Next(s: System, e: Event): System
    requires Enabled(s, e)
  {
    match e
    case Register(call, l, f) => AfterRegister(s, call, l, f)
    case Replace(call, l, f) => AfterReplace(s, call, l, f)
    case Pay(call) => s.(called := s.called + {s.debts[call].due}, debts := s.debts - {call})
    case Unregister(l) =>
      s.(registered := s.registered - {l},
         lifetimes := s.lifetimes[l := s.lifetimes[l].(active := false, cancel := None, unregistered := true)])
    case BeginSweep => AfterBegin(s)
    case Take(l) => AfterTake(s, l)
    case CallTaken =>
      s.(sweep := Sweeping(s.sweep.rest),
         called := if s.sweep.taken.Some? then s.called + {s.sweep.taken.value} else s.called)
    case EndSweep => s.(sweep := Returned, registered := {})
  }

  ghost predicate Run(events: seq<Event>, states: seq<System>) {
    && |states| == |events| + 1 && states[0] == Initial
    && (forall i :: 0 <= i < |events| ==> Enabled(states[i], events[i]) && states[i + 1] == Next(states[i], events[i]))
  }

  // Some register or replace call is about to call the function.
  ghost predicate Owed(s: System, l: LifetimeId)
    requires l in s.lifetimes
  {
    exists call :: call in s.debts && s.debts[call] == Debt(l, s.lifetimes[l].latest)
  }

  ghost predicate Settled(s: System, l: LifetimeId)
    requires l in s.lifetimes
  {
    || s.lifetimes[l].unregistered
    || s.lifetimes[l].latest in s.called
    || Owed(s, l)
    || (s.sweep.Calling? && s.sweep.taken == Some(s.lifetimes[l].latest))
  }

  // An active lifetime is still to be swept, with its latest function; any other
  // one has been dealt with.
  ghost predicate LifetimeInv(s: System, l: LifetimeId)
    requires l in s.lifetimes
  {
    if s.lifetimes[l].active then
      && s.lifetimes[l].cancel == Some(s.lifetimes[l].latest)
      && match s.sweep
         case NotStarted => l in s.registered
         case Sweeping(todo) => l in todo
         case Calling(_, rest, _) => l in rest
         case Returned => false
    else Settled(s, l)
  }

  ghost predicate Inv(s: System) {
    && (s.stopped <==> !s.sweep.NotStarted?)
    && s.registered <= s.lifetimes.Keys
    && (s.sweep.Sweeping? ==> s.sweep.todo <= s.lifetimes.Keys)
    && (s.sweep.Calling? ==> s.sweep.rest <= s.lifetimes.Keys)
    && (forall l :: l in s.lifetimes ==> LifetimeInv(s, l))
  }

  lemma StepKeepsLifetime(s: System, e: Event, l: LifetimeId)
    requires Inv(s) && Enabled(s, e) && l in Next(s, e).lifetimes
    ensures LifetimeInv(Next(s, e), l)
  {
    var t := Next(s, e);
    if l in s.lifetimes && Owed(s, l) {
      var call :| call in s.debts && s.debts[call] == Debt(l, s.lifetimes[l].latest);
      assert call in t.debts ==> t.debts[call] == s.debts[call];
    }
    if (e.Register? || e.Replace?) && e.call in t.debts {
      assert t.debts[e.call] == Debt(t.debts[e.call].lifetime, e.cancel);
    }
  }

  lemma StepKeepsInv(s: System, e: Event)
    requires Inv(s) && Enabled(s, e)
    ensures Inv(Next(s, e))
  {
    forall l | l in Next(s, e).lifetimes ensures LifetimeInv(Next(s, e), l) {
      StepKeepsLifetime(s, e, l);
    }
    hide LifetimeInv;
  }

  lemma {:induction false} EveryState(events: seq<Event>, states: seq<System>, i: nat)
    requires Run(events, states) && i <= |events|
    ensures Inv(states[i])
  {
    if i > 0 {
      EveryState(events, states, i - 1);
      hide Next, Enabled, Inv;
      StepKeepsInv(states[i - 1], events[i - 1]);
    }
  }

  // Shutdown is complete: once cancelAll has returned, no lifetime is active, and
  // each one, registered before or after, has been unregistered or has had its
  // latest cancel function called, unless the call of register or replace that
  // brought it is still running and is about to call it.
  lemma ShutdownIsComplete(events: seq<Event>, states: seq<System>, i: nat, l: LifetimeId)
    requires Run(events, states) && i <= |events| && states[i].sweep.Returned? && l in states[i].lifetimes
    ensures !states[i].lifetimes[l].active
    ensures states[i].lifetimes[l].unregistered || states[i].lifetimes[l].latest in states[i].called || Owed(states[i], l)
  {
    EveryState(events, states, i);
  }

  // The registry mutex is released when cancelAll has returned, and a second
  // cancelAll returns at once only then.
  lemma SecondShutdownWaits(events: seq<Event>, states: seq<System>, i: nat)
    requires Run(events, states) && i <= |events| && states[i].stopped && Enabled(states[i], BeginSweep)
    ensures states[i].sweep.Returned? && Next(states[i], BeginSweep) == states[i]
  {
    EveryState(events, states, i);
  }

  // The function that a lifetime was given last.
  function LastGiven(events: seq<Event>, i: nat, l: LifetimeId): Option<CancelFunction>
    requires i <= |events|
  {
    if i == 0 then None else GivenBy(events[i - 1], l, LastGiven(events, i - 1, l))
  }

  function GivenBy(e: Event, l: LifetimeId, before: Option<CancelFunction>): Option<CancelFunction> {
    match e
    case Register(_, made, f) => if made == l then Some(f) else before
    case Replace(_, replaced, f) => if replaced == l then Some(f) else before
    case _ => before
  }

  // The event leaves the lifetime inactive for good.
  predicate Deactivates(s: System, e: Event, l: LifetimeId) {
    match e
    case Register(_, made, _) => made == l && s.stopped
    case Unregister(left) => left == l
    case Take(taken) => taken == l
    case _ => false
  }

  ghost predicate Deactivated(events: seq<Event>, states: seq<System>, i: nat, l: LifetimeId)
    requires i <= |events| <= |states|
  {
    exists h: nat :: h < i && Deactivates(states[h], events[h], l)
  }

  predicate Follows(s: System, l: LifetimeId, given: Option<CancelFunction>, deactivated: bool) {
    if l in s.lifetimes then
      var lifetime := s.lifetimes[l];
      && (lifetime.active <==> !deactivated) && given == Some(lifetime.latest)
      && (lifetime.active ==> lifetime.cancel == given)
    else given == None && !deactivated
  }

  lemma FollowsOn(s: System, e: Event, l: LifetimeId, given: Option<CancelFunction>, deactivated: bool)
    requires Enabled(s, e) && Follows(s, l, given, deactivated)
    ensures Follows(Next(s, e), l, GivenBy(e, l, given), deactivated || Deactivates(s, e, l))
  {
  }

  // A lifetime is active, with the function it was given last, exactly until it
  // is unregistered or swept, or from the start not at all after shutdown began.
  lemma ActiveExactly(events: seq<Event>, states: seq<System>, i: nat, l: LifetimeId)
    requires Run(events, states) && i <= |events|
    ensures l in states[i].lifetimes <==> LastGiven(events, i, l).Some?
    ensures l in states[i].lifetimes ==>
              var lifetime := states[i].lifetimes[l];
              && (lifetime.active <==> !Deactivated(events, states, i, l))
              && Some(lifetime.latest) == LastGiven(events, i, l)
              && (lifetime.active ==> lifetime.cancel == Some(lifetime.latest))
  {
    hide Next, Enabled, Deactivated;
    EveryFollows(events, states, i, l);
  }

  lemma {:induction false} EveryFollows(events: seq<Event>, states: seq<System>, i: nat, l: LifetimeId)
    requires Run(events, states) && i <= |events|
    ensures Follows(states[i], l, LastGiven(events, i, l), Deactivated(events, states, i, l))
  {
    if i > 0 {
      EveryFollows(events, states, i - 1, l);
      DeactivatedStep(events, states, i - 1, l);
      hide Next, Enabled, Deactivated, Follows, GivenBy;
      FollowsOn(states[i - 1], events[i - 1], l, LastGiven(events, i - 1, l), Deactivated(events, states, i - 1, l));
    }
  }

  lemma DeactivatedStep(events: seq<Event>, states: seq<System>, i: nat, l: LifetimeId)
    requires i < |events| <= |states|
    ensures Deactivated(events, states, i + 1, l) <==>
              Deactivated(events, states, i, l) || Deactivates(states[i], events[i], l)
  {
    hide Deactivates;
  }

  // The event means that the function is to be called: its lifetime is swept
  // while it is the one to cancel, or it was given to a lifetime that is no
  // longer active.
  predicate CallsFor(s: System, e: Event, f: CancelFunction) {
    match e
    case Register(_, _, g) => g == f && s.stopped
    case Replace(_, l, g) => g == f && l in s.lifetimes && !s.lifetimes[l].active
    case Take(l) => l in s.lifetimes && s.lifetimes[l].cancel == Some(f)
    case _ => false
  }

  ghost predicate DueBefore(events: seq<Event>, states: seq<System>, i: nat, f: CancelFunction)
    requires i <= |events| <= |states|
  {
    exists h: nat :: h < i && CallsFor(states[h], events[h], f)
  }

  // Functions that were called or are about to be.
  predicate Pending(s: System, f: CancelFunction) {
    || f in s.called
    || (exists call :: call in s.debts && s.debts[call].due == f)
    || (s.sweep.Calling? && s.sweep.taken == Some(f))
  }

  lemma PendingIsDue(s: System, e: Event, f: CancelFunction)
    requires Enabled(s, e) && Pending(Next(s, e), f)
    ensures Pending(s, f) || CallsFor(s, e, f)
  {
  }

  // No function is called, or about to be called, without cause.
  lemma {:induction false} CalledWhenDue(events: seq<Event>, states: seq<System>, i: nat, f: CancelFunction)
    requires Run(events, states) && i <= |events| && Pending(states[i], f)
    ensures DueBefore(events, states, i, f)
  {
    hide Pending, CallsFor, Next, Enabled;
    if i == 0 {
      NothingPending(f);
    } else {
      PendingIsDue(states[i - 1], events[i - 1], f);
      if Pending(states[i - 1], f) {
        CalledWhenDue(events, states, i - 1, f);
      }
    }
  }

  lemma NothingPending(f: CancelFunction)
    ensures !Pending(Initial, f)
  {
  }

  // Before shutdown a function is called only if it replaced that of a lifetime
  // that was already unregistered.
  lemma NothingCancelledEarly(events: seq<Event>, states: seq<System>, i: nat, f: CancelFunction)
    requires Run(events, states) && i <= |events| && !states[i].stopped && f in states[i].called
    ensures exists h: nat, call, l :: h < i && events[h] == Replace(call, l, f)
              && exists g: nat :: g < h && events[g] == Unregister(l)
  {
    hide Next, Enabled, CallsFor;
    CalledWhenDue(events, states, i, f);
    var h: nat :| h < i && CallsFor(states[h], events[h], f);
    NotStoppedBefore(events, states, h, i);
    EarlyCause(events, states, h, f);
  }

  lemma {:induction false} NotStoppedBefore(events: seq<Event>, states: seq<System>, h: nat, i: nat)
    requires Run(events, states) && h <= i <= |events| && !states[i].stopped
    ensures !states[h].stopped
  {
    if h < i {
      assert states[i] == Next(states[i - 1], events[i - 1]);
      NotStoppedBefore(events, states, h, i - 1);
    }
  }

  lemma EarlyCause(events: seq<Event>, states: seq<System>, h: nat, f: CancelFunction)
    requires Run(events, states) && h < |events| && !states[h].stopped && CallsFor(states[h], events[h], f)
    ensures exists call, l :: events[h] == Replace(call, l, f) && exists g: nat :: g < h && events[g] == Unregister(l)
  {
    EveryState(events, states, h);
    assert Enabled(states[h], events[h]);
    var call, l := events[h].call, events[h].lifetime;
    ActiveExactly(events, states, h, l);
    hide Run, Inv, Left, Enabled, Next, OfSweep;
    var g: nat :| g < h && Deactivates(states[g], events[g], l);
    NeverSweptBefore(events, states, g, h);
    assert events[g] == Unregister(l);
    assert events[h] == Replace(call, l, f);
  }

  lemma NeverSweptBefore(events: seq<Event>, states: seq<System>, g: nat, h: nat)
    requires Run(events, states) && g < h <= |events| && !states[h].stopped
    ensures !states[g].stopped && !events[g].Take?
  {
    NotStoppedBefore(events, states, g, h);
    EveryState(events, states, g);
    assert Enabled(states[g], events[g]);
  }

  // The steps that cancelAll has left.
  function Left(s: System): nat {
    match s.sweep
    case Sweeping(todo) => 2 * |todo| + 1
    case Calling(_, rest, _) => 2 * |rest| + 2
    case _ => 0
  }

  predicate OfSweep(e: Event) {
    e.Take? || e.CallTaken? || e.EndSweep?
  }

  lemma SweepGoesOn(s: System)
    requires Inv(s) && Left(s) > 0
    ensures exists e :: OfSweep(e) && Enabled(s, e)
  {
    hide LifetimeInv;
    if s.sweep.Calling? {
      assert Enabled(s, CallTaken);
    } else if s.sweep.todo == {} {
      assert Enabled(s, EndSweep);
    } else {
      var l :| l in s.sweep.todo;
      assert Enabled(s, Take(l));
    }
  }

  lemma SweepShrinks(s: System, e: Event)
    requires Inv(s) && Left(s) > 0 && Enabled(s, e)
    ensures Left(Next(s, e)) == if OfSweep(e) then Left(s) - 1 else Left(s)
  {
    hide LifetimeInv;
    if e.Take? {
      assert |s.sweep.todo - {e.lifetime}| == |s.sweep.todo| - 1;
    }
  }

  // A cancelAll that runs can always go on, each of its steps brings it nearer to
  // its end, and nothing else sets it back.
  lemma SweepEnds(events: seq<Event>, states: seq<System>, i: nat)
    requires Run(events, states) && i <= |events| && Left(states[i]) > 0
    ensures exists e :: OfSweep(e) && Enabled(states[i], e)
    ensures forall e :: Enabled(states[i], e) ==>
              Left(Next(states[i], e)) == if OfSweep(e) then Left(states[i]) - 1 else Left(states[i])
  {
    EveryState(events, states, i);
    hide Run, Inv, Left, Enabled, Next, OfSweep;
    SweepGoesOn(states[i]);
    forall e | Enabled(states[i], e)
      ensures Left(Next(states[i], e)) == if OfSweep(e) then Left(states[i]) - 1 else Left(states[i])
    {
      SweepShrinks(states[i], e);
    }
  }
}
