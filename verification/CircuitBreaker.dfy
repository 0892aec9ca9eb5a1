// The outbound HTTP circuit breaker (Framework/httpclient/circuit_breaker.go):
// its state under any number of overlapping requests.

module CircuitBreaker {
  import opened Common

  datatype Config = Config(threshold: int, openTimeout: int) {
    predicate Valid() {
      1 <= threshold <= 100 && 0 < openTimeout <= 300_000_000_000
    }
  }

  datatype State = State(failures: int, openedAt: Option<int>, probeInFlight: bool, generation: nat) {
    predicate Closed() {
      openedAt.None?
    }
  }

  datatype Permit = Permit(generation: nat, probe: bool)

  // The result of the transport: an error or no response, or a status code.
  datatype Response = Broken | Status(code: int)

  datatype Result = Result(failure: bool, relevant: bool)

  datatype Observation = Quiet | Opened | Rejected | ProbeStarted | ProbeSucceeded | ProbeFailed | ProbeCanceled

  const Initial := State(0, None, false, 0)

  function Classify(contextDone: bool, response: Response): Result {
    if contextDone then Result(false, false)
    else if response.Broken? then Result(true, true)
    else Result(response.code in {408, 425, 429, 500, 502, 503, 504}, true)
  }

  function Allow(c: Config, s: State, now: int): (State, Option<Permit>) {
    if s.Closed() then (s, Some(Permit(s.generation, false)))
    else if now < s.openedAt.value + c.openTimeout || s.probeInFlight then (s, None)
    else (s.(probeInFlight := true), Some(Permit(s.generation, true)))
  }

  function Record(c: Config, s: State, now: int, p: Permit, r: Result): State {
    if p.generation != s.generation then s
    else if p.probe then
      if !r.relevant then s.(probeInFlight := false)
      else if r.failure then State(c.threshold, Some(now), false, s.generation + 1)
      else State(0, None, false, s.generation + 1)
    else if !r.relevant then s
    else if !r.failure then s.(failures := 0)
    else if s.failures + 1 < c.threshold then s.(failures := s.failures + 1)
    else s.(failures := c.threshold, openedAt := Some(now), generation := s.generation + 1)
  }

  class Breaker {
    const config: Config
    var failures: int
    var openedAt: Option<int>
    var probeInFlight: bool
    var generation: nat

    function View(): State
      reads this
    {
      State(failures, openedAt, probeInFlight, generation)
    }

    constructor (config: Config)
      ensures this.config == config && View() == Initial
    {
      this.config := config;
      failures, openedAt, probeInFlight, generation := 0, None, false, 0;
    }

    method allow(now: int) returns (permit: Option<Permit>, observation: Observation)
      modifies this
      ensures (View(), permit) == Allow(config, old(View()), now)
      ensures observation == if permit.None? then Rejected else if permit.value.probe then ProbeStarted else Quiet
    {
      var granted := Permit(generation, false);
      if openedAt.None? {
        return Some(granted), Quiet;
      }
      if now < openedAt.value + config.openTimeout || probeInFlight {
        return None, Rejected;
      }
      probeInFlight := true;
      return Some(granted.(probe := true)), ProbeStarted;
    }

    // doneLater is what the context says when the observation is made.
    method record(now: int, permit: Permit, contextDone: bool, doneLater: bool, response: Response)
      returns (observation: Observation)
      modifies this
      ensures View() == Record(config, old(View()), now, permit, Classify(contextDone, response))
      ensures observation.Opened? || observation.ProbeFailed? <==>
              openedAt.Some? && generation == old(generation) + 1
      ensures observation.ProbeSucceeded? <==> openedAt.None? && generation == old(generation) + 1
    {
      var result := Classify(contextDone, response);
      if permit.generation != generation {
        return Quiet;
      }
      if permit.probe {
        probeInFlight := false;
        if !result.relevant {
          return if doneLater then ProbeCanceled else Quiet;
        }
        generation := generation + 1;
        if result.failure {
          failures := config.threshold;
          openedAt := Some(now);
          return ProbeFailed;
        }
        failures := 0;
        openedAt := None;
        return ProbeSucceeded;
      }
      if !result.relevant {
        return Quiet;
      }
      if !result.failure {
        failures := 0;
        return Quiet;
      }
      failures := failures + 1;
      if failures < config.threshold {
        return Quiet;
      }
      failures := config.threshold;
      openedAt := Some(now);
      generation := generation + 1;
      return Opened;
    }
  }
}

// Runs of overlapping requests, each of which is recorded at most once.

module CircuitBreakerRuns {
  import opened Common
  import opened CircuitBreaker

  type RequestId(==, !new)

  // What was recorded, in order: the generation of the permit and the result.
  datatype Entry = Entry(generation: nat, result: Result)

  datatype System = System(breaker: State, open: map<RequestId, Permit>, log: seq<Entry>)

  datatype Event =
    | Request(now: int, id: RequestId)
    | Finish(now: int, id: RequestId, contextDone: bool, response: Response)

  function ResultOf(e: Event): Result
    requires e.Finish?
  {
    Classify(e.contextDone, e.response)
  }

  predicate Enabled(s: System, e: Event) {
    match e
    case Request(_, id) => id !in s.open
    case Finish(_, id, _, _) => id in s.open
  }

  function Next(c: Config, s: System, e: Event): System
    requires Enabled(s, e)
  {
    match e
    case Request(now, id) =>
      var (b, permit) := Allow(c, s.breaker, now);
      s.(breaker := b, open := if permit.Some? then s.open[id := permit.value] else s.open)
    case Finish(now, id, _, _) =>
      System(Record(c, s.breaker, now, s.open[id], ResultOf(e)), s.open - {id},
             s.log + [Entry(s.open[id].generation, ResultOf(e))])
  }

  ghost predicate Run(c: Config, events: seq<Event>, states: seq<System>) {
    && c.Valid() && |states| == |events| + 1 && states[0] == System(Initial, map[], [])
    && (forall i :: 0 <= i < |events| ==> Enabled(states[i], events[i]) && states[i + 1] == Next(c, states[i], events[i]))
    && (forall i, j :: 0 <= i <= j < |events| ==> events[i].now <= events[j].now)
  }

  // The length of the run of failures that ends the log, among the relevant
  // results of one generation.
  function TrailingFailures(log: seq<Entry>, generation: nat): nat {
    if log == [] then 0
    else
      var last, rest := log[|log| - 1], log[..|log| - 1];
      if last.generation != generation || !last.result.relevant then TrailingFailures(rest, generation)
      else if last.result.failure then TrailingFailures(rest, generation) + 1
      else 0
  }

  predicate IsProbe(s: System, id: RequestId) {
    id in s.open && s.open[id].probe && s.open[id].generation == s.breaker.generation
  }

  // Exactly one unrecorded probe of the current generation while one is in
  // flight, and none otherwise.
  ghost predicate OneProbe(s: System) {
    && (s.breaker.probeInFlight <==> exists id :: IsProbe(s, id))
    && (forall id, other :: IsProbe(s, id) && IsProbe(s, other) ==> id == other)
    && (s.breaker.probeInFlight ==> !s.breaker.Closed())
  }

  // Permits come from the past, and a current one without a probe means closed.
  ghost predicate PermitsHonest(s: System) {
    forall id :: id in s.open ==>
      && s.open[id].generation <= s.breaker.generation
      && (!s.open[id].probe && s.open[id].generation == s.breaker.generation ==> s.breaker.Closed())
  }

  // While closed, failures counts the trailing failures of this generation and
  // is below the threshold.
  ghost predicate CountExact(c: Config, s: System) {
    && (forall i :: 0 <= i < |s.log| ==> s.log[i].generation <= s.breaker.generation)
    && (if s.breaker.Closed()
        then s.breaker.failures == TrailingFailures(s.log, s.breaker.generation) < c.threshold
        else s.breaker.failures == c.threshold)
  }

  ghost predicate Inv(c: Config, s: System) {
    OneProbe(s) && PermitsHonest(s) && CountExact(c, s)
  }

  lemma {:induction false} NoneYet(log: seq<Entry>, generation: nat)
    requires forall i :: 0 <= i < |log| ==> log[i].generation < generation
    ensures TrailingFailures(log, generation) == 0
  {
    if log != [] {
      NoneYet(log[..|log| - 1], generation);
    }
  }

  lemma OneMore(log: seq<Entry>, e: Entry, generation: nat)
    ensures TrailingFailures(log + [e], generation) ==
            if e.generation != generation || !e.result.relevant then TrailingFailures(log, generation)
            else if e.result.failure then TrailingFailures(log, generation) + 1 else 0
  {
    assert (log + [e])[..|log|] == log;
  }

  lemma RequestKeepsInv(c: Config, s: System, e: Event)
    requires Inv(c, s) && Enabled(s, e) && e.Request?
    ensures Inv(c, Next(c, s, e))
  {
    hide CountExact;
    var t := Next(c, s, e);
    assert CountExact(c, t) by { SameCount(c, s, t); }
    if t.breaker.probeInFlight && !s.breaker.probeInFlight {
      assert IsProbe(t, e.id);
    }
    assert forall id :: id != e.id ==> IsProbe(t, id) == IsProbe(s, id);
    assert !IsProbe(s, e.id);
  }

  lemma SameCount(c: Config, s: System, t: System)
    requires CountExact(c, s) && t.log == s.log && t.breaker == s.breaker.(probeInFlight := t.breaker.probeInFlight)
    ensures CountExact(c, t)
  {
  }

  lemma FinishKeepsProbe(c: Config, s: System, e: Event)
    requires OneProbe(s) && PermitsHonest(s) && Enabled(s, e) && e.Finish?
    ensures OneProbe(Next(c, s, e)) && PermitsHonest(Next(c, s, e))
  {
    var t := Next(c, s, e);
    assert forall id :: id in t.open ==> id in s.open && t.open[id] == s.open[id];
    if t.breaker.generation == s.breaker.generation {
      assert forall id :: id != e.id ==> IsProbe(t, id) == IsProbe(s, id);
      if s.breaker.probeInFlight && !IsProbe(s, e.id) {
        var id :| IsProbe(s, id);
        assert IsProbe(t, id);
      }
    }
  }

  lemma FinishKeepsCount(c: Config, s: System, e: Event)
    requires c.Valid() && OneProbe(s) && PermitsHonest(s) && CountExact(c, s) && Enabled(s, e) && e.Finish?
    ensures CountExact(c, Next(c, s, e))
  {
    var t := Next(c, s, e);
    OneMore(s.log, Entry(s.open[e.id].generation, ResultOf(e)), s.breaker.generation);
    assert s.open[e.id].probe && s.open[e.id].generation == s.breaker.generation ==> IsProbe(s, e.id);
    if t.breaker.generation > s.breaker.generation {
      NoneYet(t.log, t.breaker.generation);
    }
  }

  lemma StepKeepsInv(c: Config, s: System, e: Event)
    requires c.Valid() && Inv(c, s) && Enabled(s, e)
    ensures Inv(c, Next(c, s, e))
  {
    if e.Request? {
      RequestKeepsInv(c, s, e);
    } else {
      FinishKeepsProbe(c, s, e);
      FinishKeepsCount(c, s, e);
    }
  }

  // For any number of overlapping requests.
  lemma {:induction false} EveryState(c: Config, events: seq<Event>, states: seq<System>, i: nat)
    requires Run(c, events, states) && i <= |events|
    ensures Inv(c, states[i])
  {
    if i > 0 {
      EveryState(c, events, states, i - 1);
      hide Inv, Next;
      StepKeepsInv(c, states[i - 1], events[i - 1]);
    }
  }

  // A result recorded for an earlier generation changes nothing.
  lemma StaleChangesNothing(c: Config, events: seq<Event>, states: seq<System>, i: nat)
    requires Run(c, events, states) && i < |events| && events[i].Finish?
    requires states[i].open[events[i].id].generation != states[i].breaker.generation
    ensures states[i + 1].breaker == states[i].breaker
    ensures states[i].open[events[i].id].generation < states[i].breaker.generation
  {
    EveryState(c, events, states, i);
  }

  // Once the breaker has opened at some time, every request before that time
  // plus the timeout is rejected, whatever is recorded meanwhile.
  lemma {:induction false} OpenStaysOpen(c: Config, events: seq<Event>, states: seq<System>, i: nat, j: nat, at: int)
    requires Run(c, events, states) && i <= j <= |events|
    requires i > 0 && states[i].breaker.openedAt == Some(at) && states[i - 1].breaker.openedAt != Some(at)
    requires forall k :: i <= k < j ==> events[k].now < at + c.openTimeout
    ensures states[j].breaker == states[i].breaker && !states[j].breaker.probeInFlight
    ensures forall k :: i <= k < j && events[k].Request? ==> Allow(c, states[k].breaker, events[k].now).1 == None
  {
    if i == j {
      EveryState(c, events, states, i - 1);
    } else {
      OpenStaysOpen(c, events, states, i, j - 1, at);
      EveryState(c, events, states, j - 1);
      var s, e := states[j - 1], events[j - 1];
      if e.Finish? {
        assert !IsProbe(s, e.id);
      }
    }
  }
}
