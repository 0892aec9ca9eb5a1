// What the circuit breaker promises of every run, told from the log of requests
// and results alone: when it is open, and whom it admits.

module CircuitBreakerLaw {
  import opened Common
  import opened CircuitBreaker
  import opened CircuitBreakerRuns

  datatype Entry =
    | Asked(now: int, id: RequestId, admitted: bool)
    | Answered(now: int, id: RequestId, contextDone: bool, response: Response)

  // The log of a run. A request was admitted when it is open afterwards.
  function Log(events: seq<Event>, states: seq<System>): (log: seq<Entry>)
    requires |states| == |events| + 1
    ensures |log| == |events|
  {
    seq(|events|, i requires 0 <= i < |events| =>
      match events[i]
      case Request(now, id) => Asked(now, id, id in states[i + 1].open)
      case Finish(now, id, contextDone, response) => Answered(now, id, contextDone, response))
  }

  predicate Concerns(e: Entry, id: RequestId) {
    e.id == id && (e.Asked? ==> e.admitted)
  }

  // Where the request was admitted last, or -1.
  function AdmittedAt(log: seq<Entry>, id: RequestId): int {
    if log == [] then -1
    else if log[|log| - 1] == Asked(log[|log| - 1].now, id, true) then |log| - 1
    else AdmittedAt(log[..|log| - 1], id)
  }

  // Admitted and without a result so far.
  predicate Pending(log: seq<Entry>, id: RequestId) {
    if log == [] then false
    else if Concerns(log[|log| - 1], id) then log[|log| - 1].Asked?
    else Pending(log[..|log| - 1], id)
  }

  // An error, no response, or a status that counts against the downstream.
  predicate Bad(r: Response) {
    || r.Broken?
    || r.code == 408 || r.code == 425 || r.code == 429
    || r.code == 500 || r.code == 502 || r.code == 503 || r.code == 504
  }

  // A result tells something when its request was not cancelled and was admitted
  // since the breaker opened or closed last.
  predicate Tells(log: seq<Entry>, start: nat)
    requires log != []
  {
    var e := log[|log| - 1];
    e.Answered? && !e.contextDone && AdmittedAt(log[..|log| - 1], e.id) >= start
  }

  // How many of the telling results at the end of the log are bad in a row.
  function BadInARow(log: seq<Entry>, start: nat): nat {
    if log == [] then 0
    else if !Tells(log, start) then BadInARow(log[..|log| - 1], start)
    else if Bad(log[|log| - 1].response) then BadInARow(log[..|log| - 1], start) + 1
    else 0
  }

  // Open since a time, or closed; and where in the log that began.
  datatype Phase = Phase(since: Option<int>, start: nat)

  function PhaseOf(threshold: int, log: seq<Entry>): Phase {
    if log == [] then Phase(None, 0)
    else
      var e, p := log[|log| - 1], PhaseOf(threshold, log[..|log| - 1]);
      if !Tells(log, p.start) then p
      else if p.since.Some? then Phase(if Bad(e.response) then Some(e.now) else None, |log|)
      else if BadInARow(log, p.start) >= threshold then Phase(Some(e.now), |log|)
      else p
  }

  // A probe is out: a pending request of the open phase.
  ghost predicate ProbeOut(log: seq<Entry>, start: nat) {
    exists id :: Pending(log, id) && AdmittedAt(log, id) >= start
  }

  ghost predicate Admits(c: Config, log: seq<Entry>, now: int) {
    var p := PhaseOf(c.threshold, log);
    p.since.None? || (now >= p.since.value + c.openTimeout && !ProbeOut(log, p.start))
  }

  predicate Current(s: System, id: RequestId) {
    id in s.open && s.open[id].generation == s.breaker.generation
  }

  // The breaker is what the log says.
  ghost predicate Linked(c: Config, log: seq<Entry>, s: System) {
    var p := PhaseOf(c.threshold, log);
    && s.breaker.openedAt == p.since && p.start <= |log|
    && (forall id :: id in s.open <==> Pending(log, id))
    && (forall id :: id in s.open ==> AdmittedAt(log, id) < |log|)
    && (forall id :: id in s.open ==> (Current(s, id) <==> AdmittedAt(log, id) >= p.start))
    && (p.since.None? ==> s.breaker.failures == BadInARow(log, p.start))
    && (s.breaker.probeInFlight && log != [] && p.since.Some? ==>
          log[|log| - 1].now >= p.since.value + c.openTimeout)
  }

  lemma AdmittedBefore(log: seq<Entry>, id: RequestId)
    ensures -1 <= AdmittedAt(log, id) < |log|
  {
  }

  lemma {:induction false} NoneTellYet(log: seq<Entry>, start: nat)
    requires start >= |log|
    ensures BadInARow(log, start) == 0
  {
    if log != [] {
      AdmittedBefore(log[..|log| - 1], log[|log| - 1].id);
      NoneTellYet(log[..|log| - 1], start);
    }
  }

  lemma PrefixOf(log: seq<Entry>, e: Entry)
    ensures (log + [e])[..|log|] == log && (log + [e])[|log|] == e
  {
  }

  // The probe of an open phase is the only pending request of that phase.
  lemma ProbeIsOut(c: Config, log: seq<Entry>, s: System)
    requires Inv(c, s) && Linked(c, log, s)
    ensures
      var p := PhaseOf(c.threshold, log);
      p.since.Some? ==> (s.breaker.probeInFlight <==> ProbeOut(log, p.start))
  {
    var p := PhaseOf(c.threshold, log);
    hide PhaseOf, AdmittedAt, Pending;
    if p.since.Some? {
      assert forall id :: Current(s, id) ==> IsProbe(s, id);
      assert forall id :: IsProbe(s, id) ==> Pending(log, id) && AdmittedAt(log, id) >= p.start;
      assert forall id :: Pending(log, id) && AdmittedAt(log, id) >= p.start ==> IsProbe(s, id);
    }
  }

  lemma RequestIsLinked(c: Config, log: seq<Entry>, s: System, e: Event)
    requires c.Valid() && Inv(c, s) && Linked(c, log, s) && Enabled(s, e) && e.Request?
    requires log != [] ==> log[|log| - 1].now <= e.now
    ensures
      var admitted := e.id in Next(c, s, e).open;
      && (admitted <==> Admits(c, log, e.now))
      && (admitted ==> (Next(c, s, e).open[e.id].probe <==> PhaseOf(c.threshold, log).since.Some?))
      && Linked(c, log + [Asked(e.now, e.id, admitted)], Next(c, s, e))
  {
    var t := Next(c, s, e);
    var entry := Asked(e.now, e.id, e.id in t.open);
    PrefixOf(log, entry);
    ProbeIsOut(c, log, s);
    assert !Pending(log, e.id);
    var p := PhaseOf(c.threshold, log);
    assert PhaseOf(c.threshold, log + [entry]) == p;
    assert BadInARow(log + [entry], p.start) == BadInARow(log, p.start);
    forall id | id != e.id
      ensures Pending(log + [entry], id) == Pending(log, id) && AdmittedAt(log + [entry], id) == AdmittedAt(log, id)
    {
    }
    hide PhaseOf, BadInARow;
  }

  lemma ResultAsBad(e: Event)
    requires e.Finish?
    ensures ResultOf(e).relevant <==> !e.contextDone
    ensures ResultOf(e).relevant ==> (ResultOf(e).failure <==> Bad(e.response))
  {
  }

  // What one result does to the phase and to the row of bad results.
  lemma ResultMoves(c: Config, log: seq<Entry>, s: System, e: Event)
    requires c.Valid() && Inv(c, s) && Linked(c, log, s) && Enabled(s, e) && e.Finish?
    ensures
      var p, entry := PhaseOf(c.threshold, log), Answered(e.now, e.id, e.contextDone, e.response);
      var q := PhaseOf(c.threshold, log + [entry]);
      var b := Next(c, s, e).breaker;
      && q.since == b.openedAt
      && (if b.generation == s.breaker.generation then q == p else q.start == |log| + 1)
      && (q.since.None? ==> b.failures == BadInARow(log + [entry], q.start))
  {
    var entry := Answered(e.now, e.id, e.contextDone, e.response);
    PrefixOf(log, entry);
    var p := PhaseOf(c.threshold, log);
    ResultAsBad(e);
    assert Tells(log + [entry], p.start) <==> !e.contextDone && Current(s, e.id);
    assert Current(s, e.id) && s.open[e.id].probe ==> IsProbe(s, e.id);
    NoneTellYet(log + [entry], |log| + 1);
    hide Classify, Bad, AdmittedAt, Pending, CountExact;
    assert CountExact(c, s) ==> (p.since.None? ==> s.breaker.failures < c.threshold) by { CountBelow(c, s); }
  }

  lemma CountBelow(c: Config, s: System)
    requires CountExact(c, s)
    ensures s.breaker.Closed() ==> s.breaker.failures < c.threshold
  {
    hide TrailingFailures;
  }

  lemma ResultIsLinked(c: Config, log: seq<Entry>, s: System, e: Event)
    requires c.Valid() && Inv(c, s) && Linked(c, log, s) && Enabled(s, e) && e.Finish?
    requires log != [] ==> log[|log| - 1].now <= e.now
    ensures Linked(c, log + [Answered(e.now, e.id, e.contextDone, e.response)], Next(c, s, e))
  {
    var t := Next(c, s, e);
    var longer := log + [Answered(e.now, e.id, e.contextDone, e.response)];
    PrefixOf(log, longer[|log|]);
    ResultMoves(c, log, s, e);
    forall id ensures AdmittedAt(longer, id) == AdmittedAt(log, id) < |log| {
      AdmittedBefore(log, id);
    }
    forall id | id != e.id ensures Pending(longer, id) == Pending(log, id) {
    }
    assert !Pending(longer, e.id);
    assert forall id :: id in t.open <==> id in s.open && id != e.id;
    assert forall id :: id in t.open ==> t.open[id] == s.open[id] && s.open[id].generation <= s.breaker.generation;
    assert t.breaker.probeInFlight ==> t.breaker.generation == s.breaker.generation && s.breaker.probeInFlight;
    hide PhaseOf, BadInARow, AdmittedAt, Pending;
  }

  lemma {:induction false} EveryStateLinked(c: Config, events: seq<Event>, states: seq<System>, i: nat)
    requires Run(c, events, states) && i <= |events|
    ensures Linked(c, Log(events, states)[..i], states[i])
  {
    if i > 0 {
      EveryStateLinked(c, events, states, i - 1);
      EveryState(c, events, states, i - 1);
      var log, e := Log(events, states), events[i - 1];
      assert log[..i] == log[..i - 1] + [log[i - 1]];
      hide Linked, Inv, Next;
      if e.Request? {
        RequestIsLinked(c, log[..i - 1], states[i - 1], e);
      } else {
        ResultIsLinked(c, log[..i - 1], states[i - 1], e);
      }
    }
  }

  // In every run the breaker is open exactly since the log says, and a request
  // is admitted if and only if the breaker is closed, or its timeout is over and
  // no probe is out. In the second case the request is a probe.
  lemma AdmissionIsExact(c: Config, events: seq<Event>, states: seq<System>, i: nat)
    requires Run(c, events, states) && i < |events|
    ensures states[i].breaker.openedAt == PhaseOf(c.threshold, Log(events, states)[..i]).since
    ensures events[i].Request? ==>
              var log := Log(events, states)[..i];
              && (events[i].id in states[i + 1].open <==> Admits(c, log, events[i].now))
              && (events[i].id in states[i + 1].open ==>
                    (states[i + 1].open[events[i].id].probe <==> PhaseOf(c.threshold, log).since.Some?))
  {
    EveryStateLinked(c, events, states, i);
    EveryState(c, events, states, i);
    var log := Log(events, states)[..i];
    assert log != [] ==> log[|log| - 1].now == events[i - 1].now;
    if events[i].Request? {
      RequestIsLinked(c, log, states[i], events[i]);
    }
  }

  // What follows the result of a probe: a good one closes the breaker and the
  // next request is admitted at once; a bad one opens it anew at its own time; a
  // cancelled one leaves the next request to be the probe.
  lemma ProbeDecides(c: Config, events: seq<Event>, states: seq<System>, i: nat)
    requires Run(c, events, states) && i + 1 < |events| && events[i].Finish? && events[i + 1].Request?
    requires
      var log := Log(events, states)[..i];
      var p := PhaseOf(c.threshold, log);
      p.since.Some? && AdmittedAt(log, events[i].id) >= p.start
    ensures
      var e, next := events[i], events[i + 1];
      var admitted := next.id in states[i + 2].open;
      if e.contextDone then
        admitted && states[i + 2].open[next.id].probe && states[i + 1].breaker.openedAt == states[i].breaker.openedAt
      else if Bad(e.response) then
        states[i + 1].breaker.openedAt == Some(e.now) && (admitted <==> next.now >= e.now + c.openTimeout)
      else admitted && !states[i + 2].open[next.id].probe && states[i + 1].breaker.openedAt == None
  {
    hide PhaseOf, Pending, AdmittedAt, BadInARow, Linked, Inv, ProbeOut;
    var log, longer := Log(events, states)[..i], Log(events, states)[..i + 1];
    assert longer == log + [Log(events, states)[i]];
    EveryStateLinked(c, events, states, i);
    EveryState(c, events, states, i);
    EveryStateLinked(c, events, states, i + 1);
    EveryState(c, events, states, i + 1);
    AdmissionIsExact(c, events, states, i + 1);
    ProbeIsOut(c, longer, states[i + 1]);
    ProbeRecorded(c, log, states[i], events[i]);
    ResultMoves(c, log, states[i], events[i]);
    assert log != [] ==> log[|log| - 1].now <= events[i].now;
  }

  lemma ProbeRecorded(c: Config, log: seq<Entry>, s: System, e: Event)
    requires c.Valid() && Inv(c, s) && Linked(c, log, s) && Enabled(s, e) && e.Finish?
    requires PhaseOf(c.threshold, log).since.Some? && AdmittedAt(log, e.id) >= PhaseOf(c.threshold, log).start
    ensures
      var since, b := PhaseOf(c.threshold, log).since, Next(c, s, e).breaker;
      && !b.probeInFlight
      && (e.contextDone ==> b.openedAt == since && log != [] && log[|log| - 1].now >= since.value + c.openTimeout)
      && (!e.contextDone ==> b.openedAt == if Bad(e.response) then Some(e.now) else None)
  {
    assert Current(s, e.id) && IsProbe(s, e.id);
    ResultAsBad(e);
    AdmittedBefore(log, e.id);
    hide PhaseOf, Pending, AdmittedAt, BadInARow, Classify, Bad;
  }
}
