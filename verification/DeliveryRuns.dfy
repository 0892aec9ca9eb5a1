// One reliable delivery (Framework/queueclient/worker.go): the handler loop, the
// goroutine that extends the broker lease and the settlement callback as a state
// machine over all their interleavings, with one clock.
//
// Goroutines that can proceed do so before the clock moves, and handlers and
// callbacks return by their deadlines; everything else may happen in any order.

module DeliveryRuns {
  import opened DeliveryBudget

  // How one attempt of the handler ended. A nil returned after the deadline or
  // after cancellation counts as Failed.
  datatype Ending = Succeeded | FailedOnce | FailedForGood

  datatype Settlement = Acknowledge | DeadLetter

  datatype Plan = Settle(settlement: Settlement) | GiveUp | FallThrough

  datatype Result = Acknowledged | DeadLettered | Cancelled | LeaseExtensionFailed | SettlementFailed | Nothing

  datatype Main =
    | Attempting(since: int)
    | Backing(since: int, delay: int)
    | Joining(plan: Plan)
    | Settling(settling: Settlement, since: int)
    | Returned(result: Result)

  datatype Extension = Off | Waiting(since: int) | Extending(since: int) | Ended(ok: bool) | Reported(ok: bool)

  datatype State = State(
    now: int,
    parentDone: bool,             // the context of the worker
    deliveryDone: bool,           // the context of this delivery
    stopped: bool,                // the stop channel is closed
    main: Main,
    extension: Extension,
    endings: seq<Ending>,
    extensions: nat,                 // ExtendLease calls started
    renewals: nat,                // ExtendLease calls that returned with success
    renewedAt: int,               // the last such return, or the reception
    callStart: int,               // the start of that call, or the reception
    settlements: seq<Settlement>) // settlement callbacks started

  datatype Event =
    | Tick(time: int)
    | CancelParent
    | AttemptEnds(ending: Ending, jitter: int)
    | BackoffEnds
    | BackoffCancelled
    | TimerFires
    | ExtensionStops
    | ExtensionCancelled
    | ExtendReturns(success: bool)
    | ExtendTimesOut
    | ExtensionReports
    | Join
    | SettlementReturns(fine: bool)
    | SettlementTimesOut
    | SettlementCancelled

  datatype Bounds = Bounds(retry: RetryConfig, process: int) {
    predicate Valid() {
      retry.Valid() && process > 0
    }
  }

  function Received(b: Bounds): State {
    State(0, false, false, false, Attempting(0), if b.retry.Extends() then Waiting(0) else Off, [], 0, 0, 0, 0, [])
  }

  predicate Within(now: int, since: int, limit: int) {
    now <= since + limit
  }

  // The clock may move to `time`: nobody can proceed at once, and no timer or
  // deadline is passed.
  predicate MayTick(b: Bounds, s: State, time: int) {
    && (match s.main
        case Attempting(since) => Within(time, since, b.process)
        case Backing(since, delay) => !s.deliveryDone && Within(time, since, delay)
        case Joining(_) => s.extension.Extending?
        case Settling(_, since) => Within(time, since, b.retry.settlementTimeout as int)
        case Returned(_) => false)
    && (match s.extension
        case Waiting(since) => !s.stopped && !s.deliveryDone && Within(time, since, b.retry.extensionInterval as int)
        case Extending(since) => !s.deliveryDone && Within(time, since, b.retry.extensionTimeout as int)
        case Ended(_) => false
        case _ => true)
  }

  predicate MaySettle(s: State) {
    s.main.Joining? && (s.extension.Off? || s.extension.Reported?)
  }

  predicate Enabled(b: Bounds, s: State, e: Event) {
    match e
    case Tick(time) => s.now < time && MayTick(b, s, time)
    case CancelParent => true
    case AttemptEnds(ending, jitter) =>
      && s.main.Attempting?
      && (ending.Succeeded? ==> !s.deliveryDone && s.now < s.main.since + b.process)
      && 0 <= jitter <= Window(Backoff(b.retry, |s.endings| + 1), b.retry.maxBackoff as int)
    case BackoffEnds => s.main.Backing? && s.now == s.main.since + s.main.delay
    case BackoffCancelled => s.main.Backing? && s.deliveryDone
    case TimerFires => s.extension.Waiting? && s.now == s.extension.since + b.retry.extensionInterval as int
    case ExtensionStops => s.extension.Waiting? && s.stopped
    case ExtensionCancelled => (s.extension.Waiting? || s.extension.Extending?) && s.deliveryDone
    case ExtendReturns(_) => s.extension.Extending?
    case ExtendTimesOut => s.extension.Extending? && s.now == s.extension.since + b.retry.extensionTimeout as int
    case ExtensionReports => s.extension.Ended?
    case Join => MaySettle(s)
    case SettlementReturns(_) => s.main.Settling?
    case SettlementTimesOut => s.main.Settling? && s.now == s.main.since + b.retry.settlementTimeout as int
    case SettlementCancelled => s.main.Settling? && s.parentDone
  }

  // What the plan loop does with the ending of an attempt.
  function AfterAttempt(b: Bounds, s: State, ending: Ending, jitter: int): State {
    var t := s.(endings := s.endings + [ending]);
    var attempt := |t.endings|;
    if ending.Succeeded? then Finish(t, Settle(Acknowledge))
    else if s.deliveryDone then Finish(t, GiveUp)
    else if attempt == b.retry.maxAttempts || ending.FailedForGood? then Finish(t, Settle(DeadLetter))
    else t.(main := Backing(s.now, Backoff(b.retry, attempt) + jitter))
  }

  // The plan is made; processDelivery closes the stop channel and waits for the
  // goroutine.
  function Finish(s: State, plan: Plan): State {
    s.(main := Joining(plan), stopped := true)
  }

  function AfterJoin(s: State): State
    requires s.main.Joining?
  {
    if s.extension.Reported? && s.parentDone then s.(main := Returned(Cancelled))
    else if s.extension.Reported? && !s.extension.ok then s.(main := Returned(LeaseExtensionFailed))
    else
      match s.main.plan
      case GiveUp => s.(main := Returned(Cancelled))
      case FallThrough => s.(main := Returned(Nothing))
      case Settle(settlement) =>
        if s.parentDone then s.(main := Returned(Cancelled))
        else s.(main := Settling(settlement, s.now), settlements := s.settlements + [settlement])
  }

  // The callback result counts only within its own deadline and that of the
  // worker.
  function AfterSettlement(b: Bounds, s: State, fine: bool): State
    requires s.main.Settling?
  {
    if s.parentDone then s.(main := Returned(Cancelled))
    else if s.now >= s.main.since + b.retry.settlementTimeout as int || !fine then s.(main := Returned(SettlementFailed))
    else s.(main := Returned(if s.main.settling.Acknowledge? then Acknowledged else DeadLettered))
  }

  function AfterExtend(b: Bounds, s: State, success: bool): State
    requires s.extension.Extending?
  {
    if success && !s.deliveryDone && s.now < s.extension.since + b.retry.extensionTimeout as int then
      s.(extension := Waiting(s.now), renewals := s.renewals + 1, renewedAt := s.now, callStart := s.extension.since)
    else s.(extension := Ended(false))
  }

  function Next(b: Bounds, s: State, e: Event): State
    requires Enabled(b, s, e)
  {
    match e
    case Tick(time) => s.(now := time)
    case CancelParent => s.(parentDone := true, deliveryDone := true)
    case AttemptEnds(ending, jitter) => AfterAttempt(b, s, ending, jitter)
    case BackoffEnds =>
      if |s.endings| < b.retry.maxAttempts then s.(main := Attempting(s.now)) else Finish(s, FallThrough)
    case BackoffCancelled => Finish(s, GiveUp)
    case TimerFires => s.(extension := Extending(s.now), extensions := s.extensions + 1)
    case ExtensionStops => s.(extension := Ended(true))
    case ExtensionCancelled => s.(extension := Ended(false))
    case ExtendReturns(success) => AfterExtend(b, s, success)
    case ExtendTimesOut => s.(extension := Ended(false))
    case ExtensionReports =>
      s.(extension := Reported(s.extension.ok), deliveryDone := s.deliveryDone || !s.extension.ok)
    case Join => AfterJoin(s)
    case SettlementReturns(fine) => AfterSettlement(b, s, fine)
    case SettlementTimesOut => s.(main := Returned(if s.parentDone then Cancelled else SettlementFailed))
    case SettlementCancelled => s.(main := Returned(Cancelled))
  }

  // states[0] is the reception, and some enabled event leads from each state to
  // the next.
  ghost predicate Run(b: Bounds, states: seq<State>) {
    && |states| > 0 && states[0] == Received(b)
    && (forall i :: 0 <= i < |states| - 1 ==> Steps(b, states[i], states[i + 1]))
  }

  ghost predicate Steps(b: Bounds, s: State, t: State) {
    exists e :: Enabled(b, s, e) && t == Next(b, s, e)
  }

  predicate AllFailedOnce(endings: seq<Ending>) {
    forall i :: 0 <= i < |endings| ==> endings[i] == FailedOnce
  }

  // The endings that lead to each settlement.
  predicate Justified(b: Bounds, endings: seq<Ending>, settlement: Settlement) {
    && 1 <= |endings| <= b.retry.maxAttempts && AllFailedOnce(endings[..|endings| - 1])
    && match settlement
       case Acknowledge => endings[|endings| - 1].Succeeded?
       case DeadLetter =>
         || endings[|endings| - 1].FailedForGood?
         || (endings[|endings| - 1].FailedOnce? && |endings| == b.retry.maxAttempts)
  }

  // What every reachable state satisfies about the handler loop.
  predicate LoopInv(b: Bounds, s: State) {
    match s.main
    case Attempting(_) => |s.endings| < b.retry.maxAttempts && AllFailedOnce(s.endings) && s.settlements == [] && !s.stopped
    case Backing(_, _) =>
      1 <= |s.endings| < b.retry.maxAttempts && AllFailedOnce(s.endings) && s.settlements == [] && !s.stopped
    case Joining(plan) =>
      && s.settlements == [] && !plan.FallThrough?
      && (plan.Settle? ==> Justified(b, s.endings, plan.settlement))
    case Settling(settlement, _) => s.settlements == [settlement] && Justified(b, s.endings, settlement)
    case Returned(result) =>
      && |s.settlements| <= 1 && !result.Nothing?
      && (|s.settlements| == 1 ==> Justified(b, s.endings, s.settlements[0]))
      && (result.Acknowledged? ==> s.settlements == [Acknowledge])
      && (result.DeadLettered? ==> s.settlements == [DeadLetter])
  }

  // And about the goroutine that extends the lease.
  predicate ExtensionInv(b: Bounds, s: State) {
    && (s.extension.Off? <==> !b.retry.Extends())
    && (match s.extension
        case Off => s.extensions == s.renewals == 0
        case Waiting(_) => s.extensions == s.renewals
        case Extending(_) => s.extensions == s.renewals + 1
        case Ended(ok) => ok ==> s.extensions == s.renewals
        case Reported(ok) => ok ==> s.extensions == s.renewals)
    && (s.settlements != [] ==> s.extension.Off? || s.extension == Reported(true))
  }

  lemma AttemptKeepsLoop(b: Bounds, s: State, ending: Ending, jitter: int)
    requires b.Valid() && LoopInv(b, s) && s.main.Attempting?
    ensures LoopInv(b, AfterAttempt(b, s, ending, jitter))
  {
    assert (s.endings + [ending])[..|s.endings|] == s.endings;
  }

  lemma StepKeepsLoop(b: Bounds, s: State, e: Event)
    requires b.Valid() && LoopInv(b, s) && Enabled(b, s, e)
    ensures LoopInv(b, Next(b, s, e))
  {
    hide Justified, AllFailedOnce, AfterAttempt, Window, Backoff, MayTick;
    if e.AttemptEnds? {
      AttemptKeepsLoop(b, s, e.ending, e.jitter);
    }
  }

  lemma StepKeepsExtension(b: Bounds, s: State, e: Event)
    requires b.Valid() && LoopInv(b, s) && ExtensionInv(b, s) && Enabled(b, s, e)
    ensures ExtensionInv(b, Next(b, s, e))
  {
    hide Justified, AllFailedOnce, Window, Backoff, MayTick;
  }

  lemma {:induction false} EveryState(b: Bounds, states: seq<State>, i: nat)
    requires b.Valid() && Run(b, states) && i < |states|
    ensures LoopInv(b, states[i]) && ExtensionInv(b, states[i])
  {
    if i > 0 {
      EveryState(b, states, i - 1);
      assert Steps(b, states[i - 1], states[i]);
      hide LoopInv, ExtensionInv, Enabled, Next;
      var e :| Enabled(b, states[i - 1], e) && states[i] == Next(b, states[i - 1], e);
      StepKeepsLoop(b, states[i - 1], e);
      StepKeepsExtension(b, states[i - 1], e);
    }
  }

  // In every interleaving: settlement starts only when every ExtendLease call
  // that was started has returned with success, and none starts after it; at
  // most one settlement callback starts; an acknowledgement needs the last
  // attempt to have succeeded, and a dead letter needs a permanent failure or
  // failures on every allowed attempt; and the plan loop never falls through.
  lemma SettlementIsSafe(b: Bounds, states: seq<State>, i: nat)
    requires b.Valid() && Run(b, states) && i < |states|
    ensures
      var s := states[i];
      && |s.settlements| <= 1
      && (s.settlements != [] ==> s.extensions == s.renewals && !s.extension.Extending? && !s.extension.Waiting?)
      && (forall k :: k in s.settlements ==> Justified(b, s.endings, k))
      && s.main != Joining(FallThrough) && s.main != Returned(Nothing)
      && (s.main == Returned(Acknowledged) ==> s.settlements == [Acknowledge])
      && (s.main == Returned(DeadLettered) ==> s.settlements == [DeadLetter])
  {
    EveryState(b, states, i);
  }

  predicate ExtensionFailed(s: State) {
    s.extension == Ended(false) || s.extension == Reported(false)
  }

  predicate LastSucceeded(endings: seq<Ending>) {
    endings != [] && endings[|endings| - 1].Succeeded?
  }

  // The last ending that leaves nothing to try.
  predicate GaveOut(b: Bounds, endings: seq<Ending>) {
    && endings != []
    && var last := endings[|endings| - 1];
       last.FailedForGood? || (last.FailedOnce? && |endings| == b.retry.maxAttempts)
  }

  // The settlement that the attempts call for.
  function Due(endings: seq<Ending>): Settlement {
    if LastSucceeded(endings) then Acknowledge else DeadLetter
  }

  // How the plan and the result follow from the endings.
  predicate OutcomeInv(b: Bounds, s: State) {
    && (s.parentDone ==> s.deliveryDone)
    && (s.deliveryDone ==> s.parentDone || s.extension == Reported(false))
    && match s.main
       case Attempting(_) => true
       case Backing(_, delay) =>
         && |s.endings| >= 1 && !LastSucceeded(s.endings)
         && Backoff(b.retry, |s.endings|) <= delay <= LongestBackoff(b.retry, |s.endings|)
       case Joining(plan) =>
         && (plan == Settle(Acknowledge) <==> LastSucceeded(s.endings))
         && (plan == Settle(DeadLetter) ==> GaveOut(b, s.endings))
         && (plan == GiveUp ==> s.deliveryDone)
       case Settling(settlement, _) => settlement == Due(s.endings) && (settlement.DeadLetter? ==> GaveOut(b, s.endings))
       case Returned(result) =>
         && (result.Cancelled? ==> s.parentDone)
         && (result.LeaseExtensionFailed? ==> s.extension == Reported(false))
         && (result.Acknowledged? ==> LastSucceeded(s.endings))
         && (result.DeadLettered? ==> GaveOut(b, s.endings))
         && (result.SettlementFailed? ==> s.settlements == [Due(s.endings)])
         && (s.settlements != [] ==> s.settlements == [Due(s.endings)])
  }

  lemma AttemptKeepsOutcome(b: Bounds, s: State, ending: Ending, jitter: int)
    requires b.Valid() && LoopInv(b, s) && OutcomeInv(b, s) && Enabled(b, s, AttemptEnds(ending, jitter))
    ensures OutcomeInv(b, AfterAttempt(b, s, ending, jitter))
  {
    hide AllFailedOnce, Justified, Backoff, Window;
  }

  predicate EndsPhase(e: Event) {
    e.AttemptEnds? || e.BackoffEnds? || e.BackoffCancelled?
  }

  predicate MovesMain(e: Event) {
    EndsPhase(e) || e.Join? || e.SettlementReturns? || e.SettlementTimesOut? || e.SettlementCancelled?
  }

  lemma MainKeepsOutcome(b: Bounds, s: State, e: Event)
    requires b.Valid() && LoopInv(b, s) && OutcomeInv(b, s) && Enabled(b, s, e) && MovesMain(e)
    ensures OutcomeInv(b, Next(b, s, e))
  {
    hide AllFailedOnce, Justified, Backoff, LongestBackoff, Window, MayTick, AfterAttempt;
    if e.AttemptEnds? {
      AttemptKeepsOutcome(b, s, e.ending, e.jitter);
    }
  }

  lemma OtherKeepsOutcome(b: Bounds, s: State, e: Event)
    requires b.Valid() && OutcomeInv(b, s) && Enabled(b, s, e) && !MovesMain(e)
    ensures OutcomeInv(b, Next(b, s, e))
  {
    hide Backoff, LongestBackoff, MayTick, LastSucceeded, GaveOut, Due;
  }

  lemma StepKeepsOutcome(b: Bounds, s: State, e: Event)
    requires b.Valid() && LoopInv(b, s) && OutcomeInv(b, s) && Enabled(b, s, e)
    ensures OutcomeInv(b, Next(b, s, e))
  {
    hide LoopInv, OutcomeInv, Next, Enabled;
    if MovesMain(e) {
      MainKeepsOutcome(b, s, e);
    } else {
      OtherKeepsOutcome(b, s, e);
    }
  }

  lemma {:induction false} EveryOutcome(b: Bounds, states: seq<State>, i: nat)
    requires b.Valid() && Run(b, states) && i < |states|
    ensures OutcomeInv(b, states[i])
  {
    if i > 0 {
      EveryOutcome(b, states, i - 1);
      EveryState(b, states, i - 1);
      assert Steps(b, states[i - 1], states[i]);
      hide LoopInv, ExtensionInv, OutcomeInv, Enabled, Next;
      var e :| Enabled(b, states[i - 1], e) && states[i] == Next(b, states[i - 1], e);
      StepKeepsOutcome(b, states[i - 1], e);
    }
  }

  // In every run: once the plan is made, it is to acknowledge if and only if the
  // last attempt succeeded; while the delivery is not cancelled, it is to
  // dead-letter if and only if nothing is left to try, and never to give up. The
  // delivery is cancelled by the worker or a failed extension only. Unless one of
  // these happened, a finished delivery has started exactly the settlement that
  // the attempts call for, and its result is that of the settlement.
  lemma OutcomeFollowsEndings(b: Bounds, states: seq<State>, i: nat)
    requires b.Valid() && Run(b, states) && i < |states|
    ensures
      var s := states[i];
      && (s.deliveryDone ==> s.parentDone || s.extension == Reported(false))
      && (s.main.Joining? ==>
            && (s.main.plan == Settle(Acknowledge) <==> LastSucceeded(s.endings))
            && (!s.deliveryDone ==> (s.main.plan == Settle(DeadLetter) <==> GaveOut(b, s.endings)) && s.main.plan != GiveUp))
      && (s.main.Returned? && !s.parentDone && !ExtensionFailed(s) ==>
            && s.settlements == [Due(s.endings)] && (LastSucceeded(s.endings) || GaveOut(b, s.endings))
            && s.main.result in {SettlementFailed, if LastSucceeded(s.endings) then Acknowledged else DeadLettered})
      && (s.main == Returned(Cancelled) ==> s.parentDone)
      && (s.main == Returned(LeaseExtensionFailed) ==> s.extension == Reported(false))
  {
    EveryOutcome(b, states, i);
    EveryState(b, states, i);
    hide AllFailedOnce;
  }

  // What an ending leads to while the delivery is not cancelled: another attempt
  // after a backoff, or the plan.
  lemma EndingDecides(b: Bounds, states: seq<State>, i: nat, ending: Ending, jitter: int)
    requires b.Valid() && Run(b, states) && i < |states| && Enabled(b, states[i], AttemptEnds(ending, jitter))
    ensures
      var s, t := states[i], Next(b, states[i], AttemptEnds(ending, jitter));
      && t.endings == s.endings + [ending]
      && (ending.Succeeded? ==> t.main == Joining(Settle(Acknowledge)))
      && (!s.deliveryDone && ending.FailedForGood? ==> t.main == Joining(Settle(DeadLetter)))
      && (!s.deliveryDone && ending.FailedOnce? ==>
            if |t.endings| == b.retry.maxAttempts then t.main == Joining(Settle(DeadLetter))
            else t.main.Backing? && t.main.since == s.now
                 && Backoff(b.retry, |t.endings|) <= t.main.delay <= LongestBackoff(b.retry, |t.endings|))
  {
    EveryState(b, states, i);
    hide AllFailedOnce, Justified, Backoff, Window;
  }

  // Unless the worker is cancelled or an extension failed, joining starts exactly
  // the planned settlement, and its callback decides the result by its deadline.
  lemma SettlementDecides(b: Bounds, states: seq<State>, i: nat)
    requires b.Valid() && Run(b, states) && i < |states| && !states[i].parentDone && !ExtensionFailed(states[i])
    ensures
      var s := states[i];
      && (MaySettle(s) ==>
            && Enabled(b, s, Join)
            && Next(b, s, Join) == s.(main := Settling(Due(s.endings), s.now), settlements := [Due(s.endings)]))
      && (s.main.Settling? && s.now < s.main.since + b.retry.settlementTimeout as int ==>
            && Enabled(b, s, SettlementReturns(true)) && Enabled(b, s, SettlementReturns(false))
            && Next(b, s, SettlementReturns(true)).main == Returned(if LastSucceeded(s.endings) then Acknowledged else DeadLettered)
            && Next(b, s, SettlementReturns(false)).main == Returned(SettlementFailed))
  {
    EveryOutcome(b, states, i);
    EveryState(b, states, i);
    hide AllFailedOnce, Justified;
  }

  // Where the clock can be while the attempts go on.
  predicate PlanTime(b: Bounds, s: State)
    requires b.Valid()
  {
    match s.main
    case Attempting(since) =>
      && |s.endings| < b.retry.maxAttempts
      && since <= WithBackoffs(b.retry, b.process, |s.endings|) && s.now <= since + b.process
    case Backing(since, delay) =>
      && 1 <= |s.endings| < b.retry.maxAttempts
      && since <= WithBackoffs(b.retry, b.process, |s.endings| - 1) + b.process
      && delay <= LongestBackoff(b.retry, |s.endings|) && s.now <= since + delay
    case _ => true
  }

  // Without lease extension: where it can be afterwards.
  predicate StaticTime(b: Bounds, s: State)
    requires b.Valid()
  {
    var budget, settle := AttemptsBudget(b.retry, b.process), b.retry.settlementTimeout as int;
    && PlanTime(b, s)
    && match s.main
       case Joining(_) => s.now <= budget
       case Settling(_, since) => since <= budget && s.now <= since + settle
       case Returned(_) => s.now <= budget + settle
       case _ => true
  }

  // A plan that is made is made within the budget.
  lemma AttemptTakesTime(b: Bounds, s: State, ending: Ending, jitter: int)
    requires b.Valid() && LoopInv(b, s) && PlanTime(b, s) && Enabled(b, s, AttemptEnds(ending, jitter))
    ensures PlanTime(b, AfterAttempt(b, s, ending, jitter)) && s.now <= AttemptsBudget(b.retry, b.process)
  {
    BudgetGrows(b.retry, b.process, |s.endings|, b.retry.maxAttempts - 1);
    hide WithBackoffs, Backoff, Window, AllFailedOnce;
  }

  lemma BackoffTakesTime(b: Bounds, s: State, e: Event)
    requires b.Valid() && LoopInv(b, s) && PlanTime(b, s) && Enabled(b, s, e)
    requires e.BackoffEnds? || e.BackoffCancelled?
    ensures PlanTime(b, Next(b, s, e)) && s.now <= AttemptsBudget(b.retry, b.process)
  {
    BudgetGrows(b.retry, b.process, |s.endings| - 1, b.retry.maxAttempts - 1);
    hide Backoff, Window, AllFailedOnce;
  }

  lemma StepTakesTime(b: Bounds, s: State, e: Event)
    requires b.Valid() && LoopInv(b, s) && StaticTime(b, s) && s.extension.Off? && Enabled(b, s, e)
    ensures StaticTime(b, Next(b, s, e)) && Next(b, s, e).extension.Off?
  {
    if e.AttemptEnds? {
      AttemptTakesTime(b, s, e.ending, e.jitter);
    } else if e.BackoffEnds? || e.BackoffCancelled? {
      BackoffTakesTime(b, s, e);
    } else {
      hide AttemptsBudget, WithBackoffs, LongestBackoff, LoopInv;
    }
  }

  lemma {:induction false} EveryStaticState(b: Bounds, states: seq<State>, i: nat)
    requires b.Valid() && !b.retry.Extends() && Run(b, states) && i < |states|
    ensures StaticTime(b, states[i]) && states[i].extension.Off?
  {
    if i > 0 {
      EveryStaticState(b, states, i - 1);
      EveryState(b, states, i - 1);
      assert Steps(b, states[i - 1], states[i]);
      hide LoopInv, ExtensionInv, StaticTime, Enabled, Next;
      var e :| Enabled(b, states[i - 1], e) && states[i] == Next(b, states[i - 1], e);
      StepTakesTime(b, states[i - 1], e);
    } else {
      BudgetGrows(b.retry, b.process, 0, b.retry.maxAttempts - 1);
    }
  }

  // Soundness of the static lease: no interleaving is still at work, settlement
  // included, when the lease has only its safety margin left.
  lemma StaticLeaseIsSound(b: Bounds, states: seq<State>, i: nat, margin: int)
    requires b.Valid() && !b.retry.Extends() && Run(b, states) && i < |states|
    ensures states[i].now <= ExactLease(b.retry, b.process, margin) - margin
  {
    EveryStaticState(b, states, i);
    PlanFits(b, states[i]);
    hide AttemptsBudget, WithBackoffs, LongestBackoff;
  }

  // The budget covers every attempt that is allowed, and the backoff after it
  // when another attempt follows.
  lemma BudgetCovers(b: Bounds, done: nat)
    requires b.Valid() && done < b.retry.maxAttempts
    ensures WithBackoffs(b.retry, b.process, done) + b.process <= AttemptsBudget(b.retry, b.process)
    ensures done + 1 < b.retry.maxAttempts ==>
      WithBackoffs(b.retry, b.process, done) + b.process + LongestBackoff(b.retry, done + 1) <= AttemptsBudget(b.retry, b.process)
  {
    BudgetGrows(b.retry, b.process, done, b.retry.maxAttempts - 1);
  }

  // With lease extension: how far the clock can be from the last renewal, until
  // an extension fails.
  predicate LeaseTime(b: Bounds, s: State)
    requires b.Valid()
  {
    var interval, timeout := b.retry.extensionInterval as int, b.retry.extensionTimeout as int;
    && 0 <= s.callStart <= s.renewedAt <= s.callStart + timeout - 1 && s.renewedAt <= s.now
    && (s.stopped <==> !s.main.Attempting? && !s.main.Backing?)
    && (s.main.Settling? || s.main.Returned? ==> s.extension.Reported?)
    && match s.extension
       case Waiting(since) => since == s.renewedAt && s.now <= since + interval
       case Extending(since) => 0 <= since <= s.renewedAt + interval && since <= s.now <= since + timeout
       case Ended(ok) => ok ==> s.stopped && s.now <= s.renewedAt + interval
       case Reported(ok) => ok ==> s.stopped && SettledInTime(b, s)
       case Off => false
  }

  predicate SettledInTime(b: Bounds, s: State) {
    var interval, settle := b.retry.extensionInterval as int, b.retry.settlementTimeout as int;
    match s.main
    case Settling(_, since) => since <= s.renewedAt + interval && s.now <= since + settle
    case Returned(_) => s.now <= s.renewedAt + interval + settle
    case _ => s.now <= s.renewedAt + interval
  }

  lemma StepKeepsLease(b: Bounds, s: State, e: Event)
    requires b.Valid() && LeaseTime(b, s) && Enabled(b, s, e)
    ensures LeaseTime(b, Next(b, s, e))
  {
    hide Window, Backoff;
  }

  lemma {:induction false} EveryLeasedState(b: Bounds, states: seq<State>, i: nat)
    requires b.Valid() && b.retry.Extends() && Run(b, states) && i < |states|
    ensures LeaseTime(b, states[i])
  {
    if i > 0 {
      EveryLeasedState(b, states, i - 1);
      assert Steps(b, states[i - 1], states[i]);
      hide LeaseTime, Enabled, Next;
      var e :| Enabled(b, states[i - 1], e) && states[i] == Next(b, states[i - 1], e);
      StepKeepsLease(b, states[i - 1], e);
    }
  }

  // In extension mode the lease never lapses, counted from the successful return
  // of each ExtendLease call, until a call fails; and then nothing is settled.
  lemma ExtendedLeaseIsSound(b: Bounds, states: seq<State>, i: nat, margin: int)
    requires b.Valid() && b.retry.Extends() && Run(b, states) && i < |states|
    ensures
      var s := states[i];
      if ExtensionFailed(s) then s.settlements == []
      else s.now - s.renewedAt <= ExactLease(b.retry, b.process, margin) - margin
  {
    EveryLeasedState(b, states, i);
    EveryState(b, states, i);
  }

  ghost predicate Reachable(b: Bounds, s: State) {
    exists states :: Run(b, states) && states[|states| - 1] == s
  }

  lemma StartIsReachable(b: Bounds)
    ensures Reachable(b, Received(b))
  {
    assert Run(b, [Received(b)]);
  }

  lemma Reach(b: Bounds, s: State, e: Event)
    requires Reachable(b, s) && Enabled(b, s, e)
    ensures Reachable(b, Next(b, s, e))
  {
    hide Enabled, Next;
    var states :| Run(b, states) && states[|states| - 1] == s;
    var t := Next(b, s, e);
    var longer := states + [t];
    assert Steps(b, s, t);
    forall i | 0 <= i < |longer| - 1 ensures Steps(b, longer[i], longer[i + 1]) {
      if i < |states| - 1 {
        assert Steps(b, states[i], states[i + 1]);
      }
    }
    assert Run(b, longer);
  }

  // The start of attempt k + 1 when everything before it took as long as it may.
  function Slowest(b: Bounds, k: nat): State {
    var time := WithBackoffs(b.retry, b.process, k);
    State(time, false, false, false, Attempting(time), Off, seq(k, i => FailedOnce), 0, 0, 0, 0, [])
  }

  lemma {:induction false} SlowestIsReachable(b: Bounds, k: nat)
    requires b.Valid() && !b.retry.Extends() && k < b.retry.maxAttempts
    ensures Reachable(b, Slowest(b, k))
  {
    if k == 0 {
      assert seq(0, i => FailedOnce) == [];
      StartIsReachable(b);
    } else {
      SlowestIsReachable(b, k - 1);
      SlowestFails(b, k - 1);
    }
  }

  lemma SlowestFails(b: Bounds, k: nat)
    requires b.Valid() && !b.retry.Extends() && k + 1 < b.retry.maxAttempts && Reachable(b, Slowest(b, k))
    ensures Reachable(b, Slowest(b, k + 1))
  {
    hide Reachable, Backoff, WithBackoffs;
    var s := Slowest(b, k);
    var jitter := Window(Backoff(b.retry, k + 1), b.retry.maxBackoff as int);
    BackoffIsPositive(b.retry, k + 1);
    Reach(b, s, Tick(s.now + b.process));
    var ended := s.(now := s.now + b.process);
    assert seq(k, i => FailedOnce) + [FailedOnce] == seq(k + 1, i => FailedOnce);
    Reach(b, ended, AttemptEnds(FailedOnce, jitter));
    var backing := AfterAttempt(b, ended, FailedOnce, jitter);
    var time := ended.now + LongestBackoff(b.retry, k + 1);
    Reach(b, backing, Tick(time));
    Reach(b, backing.(now := time), BackoffEnds);
    NextBackoff(b, k);
  }

  lemma NextBackoff(b: Bounds, k: nat)
    ensures WithBackoffs(b.retry, b.process, k + 1) ==
            WithBackoffs(b.retry, b.process, k) + b.process + LongestBackoff(b.retry, k + 1)
  {
  }

  // A success on any allowed attempt can be acknowledged, and a delivery whose
  // attempts all failed can be dead-lettered.
  lemma EveryAttemptCanSettle(b: Bounds, n: nat)
    requires b.Valid() && !b.retry.Extends() && 1 <= n <= b.retry.maxAttempts
    ensures exists s :: Reachable(b, s) && |s.endings| == n && s.main == Returned(Acknowledged) && LastSucceeded(s.endings)
    ensures n == b.retry.maxAttempts ==>
              exists s :: Reachable(b, s) && |s.endings| == n && s.main == Returned(DeadLettered) && !LastSucceeded(s.endings)
  {
    SlowestIsReachable(b, n - 1);
    BackoffIsPositive(b.retry, n);
    SettlesAtOnce(b, Slowest(b, n - 1), Succeeded);
    if n == b.retry.maxAttempts {
      SettlesAtOnce(b, Slowest(b, n - 1), FailedOnce);
    }
  }

  // The same with lease extension, on the first attempt.
  lemma FirstAttemptCanSettle(b: Bounds)
    requires b.Valid() && b.retry.Extends()
    ensures exists s :: Reachable(b, s) && s.main == Returned(Acknowledged) && s.endings == [Succeeded]
    ensures exists s :: Reachable(b, s) && s.main == Returned(DeadLettered) && s.endings == [FailedForGood]
  {
    StartIsReachable(b);
    BackoffIsPositive(b.retry, 1);
    SettlesAtOnce(b, Received(b), Succeeded);
    SettlesAtOnce(b, Received(b), FailedForGood);
  }

  // The attempt ends at once, the goroutine stops, and the callback succeeds.
  lemma SettlesAtOnce(b: Bounds, s: State, ending: Ending)
    requires b.Valid() && Reachable(b, s) && s.main == Attempting(s.now) && !s.deliveryDone && !s.parentDone
    requires (s.extension.Off? || s.extension.Waiting?) && Window(Backoff(b.retry, |s.endings| + 1), b.retry.maxBackoff as int) >= 0
    requires ending.Succeeded? || ending.FailedForGood? || |s.endings| + 1 == b.retry.maxAttempts
    ensures exists t :: && Reachable(b, t) && t.endings == s.endings + [ending]
                        && t.main == Returned(if ending.Succeeded? then Acknowledged else DeadLettered)
  {
    hide Reachable, Backoff, Window;
    Reach(b, s, AttemptEnds(ending, 0));
    var joining := AfterAttempt(b, s, ending, 0);
    if s.extension.Waiting? {
      Reach(b, joining, ExtensionStops);
      var ended := joining.(extension := Ended(true));
      Reach(b, ended, ExtensionReports);
    }
    var reported := if s.extension.Waiting? then joining.(extension := Reported(true)) else joining;
    Reach(b, reported, Join);
    var settling := AfterJoin(reported);
    Reach(b, settling, SettlementReturns(true));
    var returned := AfterSettlement(b, settling, true);
    assert Reachable(b, returned);
  }

  // Tightness of the static lease: some run is still settling when the lease has
  // exactly its safety margin left.
  lemma StaticLeaseIsTight(b: Bounds, margin: int)
    requires b.Valid() && !b.retry.Extends()
    ensures exists s :: Reachable(b, s) && s.main.Settling? && s.now == ExactLease(b.retry, b.process, margin) - margin
  {
    var k := b.retry.maxAttempts - 1;
    var s := Slowest(b, k);
    SlowestIsReachable(b, k);
    hide Reachable, Backoff, WithBackoffs;
    Reach(b, s, Tick(s.now + b.process));
    var ended := s.(now := s.now + b.process);
    BackoffIsPositive(b.retry, k + 1);
    Reach(b, ended, AttemptEnds(FailedOnce, 0));
    var joining := AfterAttempt(b, ended, FailedOnce, 0);
    Reach(b, joining, Join);
    var settling := AfterJoin(joining);
    Reach(b, settling, Tick(settling.now + b.retry.settlementTimeout as int));
    assert Reachable(b, settling.(now := settling.now + b.retry.settlementTimeout as int));
  }

  // Counted from the start of the last successful call, the lease is overrun by
  // less than the timeout.
  lemma StartCountedGap(b: Bounds, states: seq<State>, i: nat, margin: int)
    requires b.Valid() && b.retry.Extends() && Run(b, states) && i < |states| && !ExtensionFailed(states[i])
    ensures states[i].now - states[i].callStart
            <= ExactLease(b.retry, b.process, margin) - margin + b.retry.extensionTimeout as int - 1
  {
    EveryLeasedState(b, states, i);
    ExtendedLeaseIsSound(b, states, i, margin);
  }

  // The first call returns with success `late` after its start, and nothing has
  // happened to the attempt when the next call is due.
  function Renewed(b: Bounds, late: int): State {
    var interval := b.retry.extensionInterval as int;
    Received(b).(now := 2 * interval + late, extension := Waiting(interval + late), extensions := 1, renewals := 1,
                 renewedAt := interval + late, callStart := interval)
  }

  lemma RenewedIsReachable(b: Bounds, late: int)
    requires b.Valid() && b.retry.Extends() && 0 <= late < b.retry.extensionTimeout as int
    requires 2 * b.retry.extensionInterval as int + late <= b.process
    ensures Reachable(b, Renewed(b, late))
  {
    StartIsReachable(b);
    hide Reachable, Window, Backoff;
    var interval := b.retry.extensionInterval as int;
    var s := Received(b);
    Reach(b, s, Tick(interval));
    var fired := s.(now := interval);
    Reach(b, fired, TimerFires);
    var extending := Next(b, fired, TimerFires);
    if late > 0 {
      Reach(b, extending, Tick(interval + late));
    }
    var returning := extending.(now := interval + late);
    Reach(b, returning, ExtendReturns(true));
    var renewed := Next(b, returning, ExtendReturns(true));
    Reach(b, renewed, Tick(2 * interval + late));
  }

  // Some faultless run overruns the lease, counted from the start, by that much:
  // it settles for the whole timeout, or the next call takes the whole of its own.
  lemma LateRenewalOverruns(b: Bounds, late: int, margin: int)
    requires b.Valid() && b.retry.Extends() && 0 <= late < b.retry.extensionTimeout as int
    requires 2 * b.retry.extensionInterval as int + late <= b.process
    ensures exists s :: && Reachable(b, s) && !ExtensionFailed(s)
                        && s.now - s.callStart == ExactLease(b.retry, b.process, margin) - margin + late
  {
    RenewedIsReachable(b, late);
    BackoffIsPositive(b.retry, 1);
    hide Reachable, Backoff;
    var s := Renewed(b, late);
    Reach(b, s, AttemptEnds(FailedForGood, 0));
    var joining := AfterAttempt(b, s, FailedForGood, 0);
    if b.retry.settlementTimeout >= b.retry.extensionTimeout {
      Reach(b, joining, ExtensionStops);
      var ended := joining.(extension := Ended(true));
      Reach(b, ended, ExtensionReports);
      var reported := ended.(extension := Reported(true));
      Reach(b, reported, Join);
      var settling := AfterJoin(reported);
      var time := s.now + b.retry.settlementTimeout as int;
      Reach(b, settling, Tick(time));
      assert Reachable(b, settling.(now := time));
    } else {
      Reach(b, joining, TimerFires);
      var extending := Next(b, joining, TimerFires);
      var time := s.now + b.retry.extensionTimeout as int;
      Reach(b, extending, Tick(time));
      assert Reachable(b, extending.(now := time));
    }
  }

  // The lease is long enough in every run when a renewal counts from the start
  // of its call.
  ghost predicate SufficesFromStart(b: Bounds, margin: int)
    requires b.Valid()
  {
    forall states: seq<State>, i: int :: Run(b, states) && 0 <= i < |states| && !ExtensionFailed(states[i]) ==>
      states[i].now - states[i].callStart <= ExactLease(b.retry, b.process, margin)
  }

  lemma LargeMarginSuffices(b: Bounds, margin: int)
    requires b.Valid() && b.retry.Extends() && margin >= b.retry.extensionTimeout as int - 1
    ensures SufficesFromStart(b, margin)
  {
    forall states: seq<State>, i: int | Run(b, states) && 0 <= i < |states| && !ExtensionFailed(states[i])
      ensures states[i].now - states[i].callStart <= ExactLease(b.retry, b.process, margin)
    {
      StartCountedGap(b, states, i, margin);
    }
  }

  lemma SmallMarginFails(b: Bounds, margin: int)
    requires b.Valid() && b.retry.Extends() && 0 < margin < b.retry.extensionTimeout as int - 1
    requires b.process > 2 * b.retry.extensionInterval as int + margin
    ensures !SufficesFromStart(b, margin)
  {
    LateRenewalOverruns(b, margin + 1, margin);
    var s :| && Reachable(b, s) && !ExtensionFailed(s)
             && s.now - s.callStart == ExactLease(b.retry, b.process, margin) + 1;
    var states :| Run(b, states) && states[|states| - 1] == s;
    assert !ExtensionFailed(states[|states| - 1]);
  }

  // When the attempts cannot last until the second call, what the clock can be
  // since the first.
  predicate EarlyTime(b: Bounds, s: State)
    requires b.Valid()
  {
    var budget, interval := AttemptsBudget(b.retry, b.process), b.retry.extensionInterval as int;
    && PlanTime(b, s)
    && (s.callStart >= interval || s.callStart == s.renewedAt) && s.renewedAt >= 0
    && match s.extension
       case Waiting(_) => s.stopped ==> Planned(b, s, s.now)
       case Extending(since) => interval <= since <= budget
       case Ended(ok) => ok ==> Planned(b, s, s.now)
       case Reported(ok) => ok ==> EarlySettled(b, s)
       case Off => false
  }

  // The plan was made within the budget, or a call was still running then.
  predicate Planned(b: Bounds, s: State, time: int)
    requires b.Valid()
  {
    time <= AttemptsBudget(b.retry, b.process) || time <= s.callStart + b.retry.extensionTimeout as int - 1
  }

  predicate EarlySettled(b: Bounds, s: State)
    requires b.Valid()
  {
    match s.main
    case Settling(_, since) => Planned(b, s, since)
    case Returned(_) => Planned(b, s, s.now - b.retry.settlementTimeout as int)
    case _ => Planned(b, s, s.now)
  }

  lemma PhaseKeepsEarly(b: Bounds, s: State, e: Event)
    requires b.Valid() && LoopInv(b, s) && LeaseTime(b, s) && EarlyTime(b, s) && Enabled(b, s, e) && EndsPhase(e)
    ensures EarlyTime(b, Next(b, s, e))
  {
    hide AttemptsBudget, PlanTime, LoopInv, Window, Backoff, MayTick;
    if e.AttemptEnds? {
      AttemptTakesTime(b, s, e.ending, e.jitter);
    } else {
      BackoffTakesTime(b, s, e);
    }
  }

  lemma OtherKeepsEarly(b: Bounds, s: State, e: Event)
    requires b.Valid() && LoopInv(b, s) && LeaseTime(b, s) && EarlyTime(b, s) && Enabled(b, s, e) && !EndsPhase(e)
    ensures EarlyTime(b, Next(b, s, e))
  {
    hide AttemptsBudget, WithBackoffs, LongestBackoff, LoopInv, Window, Backoff, AfterAttempt;
    PlanFits(b, s);
  }

  lemma StepKeepsEarly(b: Bounds, s: State, e: Event)
    requires b.Valid() && LoopInv(b, s) && LeaseTime(b, s) && EarlyTime(b, s) && Enabled(b, s, e)
    ensures EarlyTime(b, Next(b, s, e))
  {
    hide LoopInv, LeaseTime, EarlyTime, Enabled, Next;
    if EndsPhase(e) {
      PhaseKeepsEarly(b, s, e);
    } else {
      OtherKeepsEarly(b, s, e);
    }
  }

  lemma {:induction false} EveryEarlyState(b: Bounds, states: seq<State>, i: nat)
    requires b.Valid() && b.retry.Extends() && Run(b, states) && i < |states|
    ensures EarlyTime(b, states[i])
  {
    if i > 0 {
      EveryEarlyState(b, states, i - 1);
      EveryState(b, states, i - 1);
      EveryLeasedState(b, states, i - 1);
      assert Steps(b, states[i - 1], states[i]);
      hide LoopInv, ExtensionInv, LeaseTime, EarlyTime, Enabled, Next;
      var e :| Enabled(b, states[i - 1], e) && states[i] == Next(b, states[i - 1], e);
      StepKeepsEarly(b, states[i - 1], e);
    } else {
      BudgetGrows(b.retry, b.process, 0, b.retry.maxAttempts - 1);
    }
  }

  lemma SmallBudgetSuffices(b: Bounds, margin: int)
    requires b.Valid() && b.retry.Extends() && margin > 0
    requires AttemptsBudget(b.retry, b.process) <= 2 * b.retry.extensionInterval as int + margin
    ensures SufficesFromStart(b, margin)
  {
    hide Run, LeaseTime, EarlyTime;
    forall states: seq<State>, i: int | Run(b, states) && 0 <= i < |states| && !ExtensionFailed(states[i])
      ensures states[i].now - states[i].callStart <= ExactLease(b.retry, b.process, margin)
    {
      EveryLeasedState(b, states, i);
      EveryState(b, states, i);
      EveryEarlyState(b, states, i);
      EarlyGap(b, states[i], margin);
    }
  }

  lemma EarlyGap(b: Bounds, s: State, margin: int)
    requires b.Valid() && b.retry.Extends() && margin > 0 && !ExtensionFailed(s)
    requires LoopInv(b, s) && LeaseTime(b, s) && EarlyTime(b, s)
    requires AttemptsBudget(b.retry, b.process) <= 2 * b.retry.extensionInterval as int + margin
    ensures s.now - s.callStart <= ExactLease(b.retry, b.process, margin)
  {
    PlanFits(b, s);
    hide AttemptsBudget, WithBackoffs, LongestBackoff, LoopInv, PlanTime;
  }

  // While the attempts go on the clock is within the budget.
  lemma PlanFits(b: Bounds, s: State)
    requires b.Valid() && PlanTime(b, s)
    ensures s.main.Attempting? || s.main.Backing? ==> s.now <= AttemptsBudget(b.retry, b.process)
  {
    hide AttemptsBudget;
    if s.main.Attempting? {
      BudgetCovers(b, |s.endings|);
    } else if s.main.Backing? {
      BudgetCovers(b, |s.endings| - 1);
    }
  }

  // Exactly when counting from the start would do, for handlers that can outlast
  // the second call by the margin or cannot reach it.
  lemma StartCountedLeaseExactly(b: Bounds, margin: int)
    requires b.Valid() && b.retry.Extends() && margin > 0
    requires
      var second := 2 * b.retry.extensionInterval as int + margin;
      second < b.process || AttemptsBudget(b.retry, b.process) <= second
    ensures SufficesFromStart(b, margin) <==>
            || margin >= b.retry.extensionTimeout as int - 1
            || AttemptsBudget(b.retry, b.process) <= 2 * b.retry.extensionInterval as int + margin
  {
    hide SufficesFromStart, AttemptsBudget;
    if margin >= b.retry.extensionTimeout as int - 1 {
      LargeMarginSuffices(b, margin);
    } else if AttemptsBudget(b.retry, b.process) <= 2 * b.retry.extensionInterval as int + margin {
      SmallBudgetSuffices(b, margin);
    } else {
      SmallMarginFails(b, margin);
    }
  }

  // Counted from the start of its calls, the lease of a retry configuration
  // suffices for every handler timeout if and only if the margin covers a whole
  // call. The lease itself does not depend on the handler timeout.
  lemma CountingFromStartNeedsMargin(retry: RetryConfig, margin: int)
    requires retry.Valid() && retry.Extends() && margin > 0
    ensures (forall process :: process > 0 ==> SufficesFromStart(Bounds(retry, process), margin)) <==>
            margin >= retry.extensionTimeout as int - 1
  {
    hide SufficesFromStart;
    if margin >= retry.extensionTimeout as int - 1 {
      forall process | process > 0 ensures SufficesFromStart(Bounds(retry, process), margin) {
        LargeMarginSuffices(Bounds(retry, process), margin);
      }
    } else {
      var process := 2 * retry.extensionInterval as int + margin + 1;
      SmallMarginFails(Bounds(retry, process), margin);
      assert !SufficesFromStart(Bounds(retry, process), margin);
    }
  }
}
