// What a readiness call may answer, in every run: draining, cancelled or the
// report of a finished run of the checks, each only with its cause.

module HealthLaw {
  import opened Common
  import opened HealthCache

  // One step of a call: what it finds decides where it goes.
  lemma CallFollows(s: System, e: Event)
    requires Enabled(s, e)
    ensures e.LoadDraining? ==>
              e.reader in Next(s, e).readers
              && Next(s, e).readers[e.reader].reading == if s.draining then Returned(Draining) else Entering
    ensures e.LockCache? ==>
              e.reader in Next(s, e).readers
              && Next(s, e).readers[e.reader].reading == if s.draining then Returned(Draining) else Open
    ensures e.UseCache? ==>
              e.reader in Next(s, e).readers
              && var reading := Next(s, e).readers[e.reader].reading;
                 if Unexpired(s) then reading == Returned(Computed(s.cached.value.result))
                 else reading.WaitingFor? && Next(s, e).refresh == Some(reading.channel)
  {
    hide DrainNext, RefreshNext, RegisterNext, AfterUseCache;
    if e.UseCache? {
      UseCacheEffect(s, e.reader, e.made);
    }
  }

  // A report is handed out by the step that found its cause.
  ghost predicate Explained(s: System, e: Event, id: CallId, report: Report) {
    match report
    case Draining => s.draining && (e == LoadDraining(id) || e == LockCache(id))
    case Canceled => e == Cancel(id)
    case Computed(checks) => e.UseCache? && e.reader == id && Unexpired(s) && checks == s.cached.value.result
  }

  // The report a call has, after a step, it had before or was handed by the step.
  ghost predicate ExplainedStep(s: System, t: System, e: Event, id: CallId)
    requires id in s.readers
  {
    && id in t.readers
    && (t.readers[id].reading.Returned? ==>
          t.readers[id].reading == s.readers[id].reading || Explained(s, e, id, t.readers[id].reading.report))
    && (s.readers[id].reading.Returned? ==> t.readers[id].reading == s.readers[id].reading)
  }

  lemma UseCacheExplains(s: System, e: Event, id: CallId)
    requires Enabled(s, e) && e.UseCache? && id in s.readers
    ensures ExplainedStep(s, AfterUseCache(s, e.reader, e.made), e, id)
  {
    hide AfterUseCache, Enabled;
    UseCacheEffect(s, e.reader, e.made);
  }

  lemma ReaderExplains(s: System, e: Event, id: CallId)
    requires Enabled(s, e) && id in s.readers
    ensures ExplainedStep(s, ReaderNext(s, e), e, id)
  {
    hide AfterUseCache;
    if e.UseCache? {
      UseCacheExplains(s, e, id);
    }
  }

  lemma StepExplains(s: System, e: Event, id: CallId)
    requires Enabled(s, e) && id in s.readers
    ensures ExplainedStep(s, Next(s, e), e, id)
  {
    ReaderExplains(s, e, id);
    hide ReaderNext, RefreshNext, RegisterNext, Explained;
  }

  // In every run a call returns the draining report only if draining was on
  // between its start and its return, the cancelled report only after its own
  // cancellation, and otherwise exactly the unexpired cached report that it
  // found.
  lemma {:induction false} ReportIsExplained(ttl: int, events: seq<Event>, states: seq<System>, i: nat, j: nat, id: CallId)
    requires Run(ttl, events, states) && i < j <= |events| && events[i] == Call(id)
    ensures id in states[j].readers
    ensures states[j].readers[id].reading.Returned? ==>
              exists k :: i < k < j && Explained(states[k], events[k], id, states[j].readers[id].reading.report)
  {
    hide Next, Enabled, Explained;
    CallRecords(states[i], id);
    if i + 1 < j {
      ReportIsExplained(ttl, events, states, i, j - 1, id);
      StepExplains(states[j - 1], events[j - 1], id);
    }
  }

  // A Register or SetDraining call that has made a new revision and has not yet
  // invalidated the cache.
  ghost predicate InvalidationDue(s: System) {
    || (exists name :: name in s.registrations && s.registrations[name].Bumped?)
    || (exists id :: id in s.drains && s.drains[id])
  }

  predicate Storable(r: Refresh) {
    r.Storing?
  }

  // The cache, and a report about to be stored, is for the current revision,
  // unless an invalidation is due.
  ghost predicate RevisionsCurrent(s: System) {
    && (s.cached.Some? ==> CurrentOrDue(s, s.cached.value.revision))
    && (forall ch :: ch in s.refreshes && Storable(s.refreshes[ch]) ==> CurrentOrDue(s, s.refreshes[ch].revision))
  }

  ghost predicate CurrentOrDue(s: System, revision: nat) {
    revision == s.revision || (revision < s.revision && InvalidationDue(s))
  }

  lemma StillDue(s: System, t: System)
    requires t.revision == s.revision && t.registrations == s.registrations && t.drains == s.drains
    ensures forall revision :: CurrentOrDue(t, revision) == CurrentOrDue(s, revision)
  {
  }

  lemma RegisterKeepsCurrent(s: System, e: Event)
    requires LockExact(s) && RevisionsCurrent(s) && Enabled(s, e)
    ensures RevisionsCurrent(RegisterNext(s, e))
  {
    hide Known;
    var t := RegisterNext(s, e);
    if e.RegisterBump? {
      assert t.registrations[e.bumped].Bumped?;
    } else if e.RegisterAdd? {
      assert forall name :: name in s.registrations && s.registrations[name].Bumped? ==> t.registrations[name].Bumped?;
    }
  }

  lemma DrainKeepsCurrent(s: System, e: Event)
    requires LockExact(s) && RevisionsCurrent(s) && Enabled(s, e)
    ensures RevisionsCurrent(DrainNext(s, e))
  {
    var t := DrainNext(s, e);
    if e.DrainBump? {
      assert t.drains[e.drain];
    } else if e.DrainStore? {
      assert forall id :: id in s.drains && s.drains[id] ==> id in t.drains && t.drains[id];
    }
  }

  lemma ReaderKeepsCurrent(s: System, e: Event)
    requires RevisionsCurrent(s) && Enabled(s, e)
    ensures RevisionsCurrent(ReaderNext(s, e))
  {
    hide AfterUseCache;
    StillDue(s, ReaderNext(s, e));
    if e.UseCache? {
      UseCacheEffect(s, e.reader, e.made);
    }
    hide CurrentOrDue;
  }

  lemma RefreshKeepsCurrent(s: System, e: Event)
    requires RevisionsCurrent(s) && Enabled(s, e)
    ensures RevisionsCurrent(RefreshNext(s, e))
  {
    StillDue(s, RefreshNext(s, e));
    assert CurrentOrDue(s, s.revision);
    hide CurrentOrDue;
  }

  lemma StepKeepsCurrent(s: System, e: Event)
    requires LockExact(s) && RevisionsCurrent(s) && Enabled(s, e)
    ensures RevisionsCurrent(Next(s, e))
  {
    hide RegisterNext, DrainNext, ReaderNext, RefreshNext, LockExact;
    RegisterKeepsCurrent(s, e);
    DrainKeepsCurrent(s, e);
    ReaderKeepsCurrent(s, e);
    RefreshKeepsCurrent(s, e);
    if e.Tick? {
      StillDue(s, Next(s, e));
    }
    hide CurrentOrDue;
  }

  // The checks of result were those registered at a snapshot taken at that
  // revision or later, and then they ran.
  ghost predicate Ran(events: seq<Event>, states: seq<System>, k: nat, result: map<Name, bool>, revision: nat)
    requires k <= |events| && |states| == |events| + 1
  {
    exists a, b, ch :: 0 <= a < b < k && RanAt(events, states, a, b, ch, result, revision)
  }

  ghost predicate RanAt(events: seq<Event>, states: seq<System>, a: nat, b: nat, ch: Channel, result: map<Name, bool>, revision: nat)
    requires a < b < |events| && |states| == |events| + 1
  {
    && events[a] == Snapshot(ch) && events[b] == RunChecks(ch, result)
    && states[a].checks == result.Keys && revision <= states[a].revision
  }

  // The same, with no revision made between the snapshot and the decision to
  // store.
  ghost predicate RanExactly(events: seq<Event>, states: seq<System>, k: nat, result: map<Name, bool>, revision: nat)
    requires k <= |events| && |states| == |events| + 1
  {
    exists a, b, ch ::
      0 <= a < b < k && RanAt(events, states, a, b, ch, result, revision) && states[a].revision == revision
  }

  ghost predicate Took(events: seq<Event>, states: seq<System>, k: nat, ch: Channel, names: set<Name>, revision: nat)
    requires k <= |events| && |states| == |events| + 1
  {
    exists a :: 0 <= a < k && events[a] == Snapshot(ch) && states[a].checks == names && revision <= states[a].revision
  }

  ghost predicate Sourced(events: seq<Event>, states: seq<System>, k: nat, ch: Channel, r: Refresh)
    requires k <= |events| && |states| == |events| + 1
  {
    match r
    case Snapshotted(revision, names) => Took(events, states, k, ch, names, revision)
    case Finished(revision, result) => Ran(events, states, k, result, revision)
    case Locked(revision, result) => Ran(events, states, k, result, revision)
    case Storing(revision, result) => RanExactly(events, states, k, result, revision)
    case _ => true
  }

  ghost predicate AllSourced(events: seq<Event>, states: seq<System>, k: nat)
    requires k <= |events| && |states| == |events| + 1
  {
    && (forall ch :: ch in states[k].refreshes ==> Sourced(events, states, k, ch, states[k].refreshes[ch]))
    && (states[k].cached.Some? ==>
          RanExactly(events, states, k, states[k].cached.value.result, states[k].cached.value.revision))
  }

  lemma StaysSourced(events: seq<Event>, states: seq<System>, k: nat, ch: Channel, r: Refresh)
    requires k < |events| && |states| == |events| + 1 && Sourced(events, states, k, ch, r)
    ensures Sourced(events, states, k + 1, ch, r)
  {
  }

  lemma StaysRan(events: seq<Event>, states: seq<System>, k: nat, result: map<Name, bool>, revision: nat)
    requires k < |events| && |states| == |events| + 1 && RanExactly(events, states, k, result, revision)
    ensures RanExactly(events, states, k + 1, result, revision)
  {
  }

  lemma {:induction false} RevisionGrows(ttl: int, events: seq<Event>, states: seq<System>, a: nat, k: nat)
    requires Run(ttl, events, states) && a <= k <= |events|
    ensures states[a].revision <= states[k].revision
  {
    hide Next, Enabled;
    if a < k {
      RevisionGrows(ttl, events, states, a, k - 1);
      StepRevision(states[k - 1], events[k - 1]);
    }
  }

  lemma StepRevision(s: System, e: Event)
    requires Enabled(s, e)
    ensures s.revision <= Next(s, e).revision
  {
    hide ReaderNext, RefreshNext;
  }

  // The revision is still the one loaded at the start, so it was at the snapshot.
  lemma LoadedIsExact(ttl: int, events: seq<Event>, states: seq<System>, k: nat, result: map<Name, bool>, revision: nat)
    requires Run(ttl, events, states) && k <= |events| && states[k].revision == revision
    requires Ran(events, states, k, result, revision)
    ensures RanExactly(events, states, k, result, revision)
  {
    var a, b, ch :| 0 <= a < b < k && RanAt(events, states, a, b, ch, result, revision);
    RevisionGrows(ttl, events, states, a, k);
  }

  // What a step does to one refresh.
  predicate ChannelMoves(s: System, e: Event, t: System, ch: Channel)
    requires ch in t.refreshes
  {
    var r := t.refreshes[ch];
    if ch in s.refreshes then
      var before := s.refreshes[ch];
      || r == before || r.Started? || r.Closing?
      || (e == Snapshot(ch) && r.Snapshotted? && r.names == s.checks && r.revision <= s.revision)
      || (e.RunChecks? && e.channel == ch && before == Snapshotted(r.revision, e.result.Keys)
          && r == Finished(before.revision, e.result))
      || (before.Finished? && r == Locked(before.revision, before.result))
      || (before.Locked? && before.revision == s.revision && r == Storing(before.revision, before.result))
    else r.Started?
  }

  // And to the cache.
  predicate CacheMoves(s: System, e: Event, t: System) {
    || t.cached == s.cached || t.cached == None
    || (e.StoreCache? && e.channel in s.refreshes && s.refreshes[e.channel].Storing?
        && t.cached == Some(Cached(s.refreshes[e.channel].result, s.now + s.ttl, s.refreshes[e.channel].revision)))
  }

  predicate OfRefresh(e: Event) {
    e.Snapshot? || e.RunChecks? || e.LockRefresh? || e.LoadRevision? || e.StoreCache? || e.Close?
  }

  lemma OfRefreshMoves(s: System, e: Event)
    requires Enabled(s, e) && RefreshesCover(s) && OfRefresh(e)
    ensures forall ch :: ch in RefreshNext(s, e).refreshes ==> ChannelMoves(s, e, RefreshNext(s, e), ch)
    ensures CacheMoves(s, e, RefreshNext(s, e))
  {
    hide Made, Known;
  }

  lemma OfReaderMoves(s: System, e: Event)
    requires Enabled(s, e)
    ensures forall ch :: ch in ReaderNext(s, e).refreshes ==> ChannelMoves(s, e, ReaderNext(s, e), ch)
  {
    hide AfterUseCache;
    if e.UseCache? {
      UseCacheEffect(s, e.reader, e.made);
    }
  }

  lemma RefreshMoves(s: System, e: Event)
    requires Enabled(s, e) && RefreshesCover(s)
    ensures forall ch :: ch in Next(s, e).refreshes ==> ChannelMoves(s, e, Next(s, e), ch)
    ensures CacheMoves(s, e, Next(s, e))
  {
    hide Enabled, RefreshesCover, RefreshNext, ReaderNext;
    if OfRefresh(e) {
      OfRefreshMoves(s, e);
    } else {
      OfReaderMoves(s, e);
    }
  }

  lemma {:induction false} EveryCacheSourced(ttl: int, events: seq<Event>, states: seq<System>, k: nat)
    requires Run(ttl, events, states) && k <= |events|
    ensures AllSourced(events, states, k)
  {
    if k > 0 {
      EveryCacheSourced(ttl, events, states, k - 1);
      EveryState(ttl, events, states, k - 1);
      SourceStep(ttl, events, states, k - 1);
    }
  }

  lemma SourceStep(ttl: int, events: seq<Event>, states: seq<System>, k: nat)
    requires Run(ttl, events, states) && k < |events| && Inv(states[k]) && AllSourced(events, states, k)
    ensures AllSourced(events, states, k + 1)
  {
    hide Next, Enabled, LockExact, OneRefresh, Revisions, CacheFresh, DrainKept;
    var s, t, e := states[k], states[k + 1], events[k];
    RefreshMoves(s, e);
    hide RefreshesCover;
    forall ch | ch in t.refreshes ensures Sourced(events, states, k + 1, ch, t.refreshes[ch]) {
      if ch in s.refreshes {
        StaysSourced(events, states, k, ch, s.refreshes[ch]);
      }
      if ch in s.refreshes && s.refreshes[ch].Locked? && t.refreshes[ch].Storing? {
        LoadedIsExact(ttl, events, states, k, s.refreshes[ch].result, s.revision);
        StaysRan(events, states, k, s.refreshes[ch].result, s.revision);
      }
      if e.RunChecks? && e.channel == ch && ch in s.refreshes && s.refreshes[ch].Snapshotted? && t.refreshes[ch].Finished? {
        TookThenRan(events, states, k, ch, s.refreshes[ch].revision, e.result);
      }
    }
    if s.cached.Some? {
      StaysRan(events, states, k, s.cached.value.result, s.cached.value.revision);
    }
  }

  lemma TookThenRan(events: seq<Event>, states: seq<System>, k: nat, ch: Channel, revision: nat, result: map<Name, bool>)
    requires k < |events| && |states| == |events| + 1 && events[k] == RunChecks(ch, result)
    requires Took(events, states, k, ch, result.Keys, revision)
    ensures Ran(events, states, k + 1, result, revision)
  {
    var a :| 0 <= a < k && events[a] == Snapshot(ch) && states[a].checks == result.Keys && revision <= states[a].revision;
    assert RanAt(events, states, a, k, ch, result, revision);
  }

  lemma {:induction false} EveryRevisionCurrent(ttl: int, events: seq<Event>, states: seq<System>, k: nat)
    requires Run(ttl, events, states) && k <= |events|
    ensures RevisionsCurrent(states[k])
  {
    if k > 0 {
      EveryRevisionCurrent(ttl, events, states, k - 1);
      EveryState(ttl, events, states, k - 1);
      hide Next, Enabled, RevisionsCurrent, LockExact;
      StepKeepsCurrent(states[k - 1], events[k - 1]);
    }
  }

  // In every run the cached report is the result of a finished run of exactly the
  // checks that were registered at the revision it is for, and that revision is
  // the current one unless a Register or SetDraining call has yet to invalidate
  // the cache.
  lemma CacheIsCurrentRun(ttl: int, events: seq<Event>, states: seq<System>, k: nat)
    requires Run(ttl, events, states) && k <= |events| && states[k].cached.Some?
    ensures
      var c := states[k].cached.value;
      && RanExactly(events, states, k, c.result, c.revision)
      && (c.revision == states[k].revision || InvalidationDue(states[k]))
  {
    EveryCacheSourced(ttl, events, states, k);
    EveryRevisionCurrent(ttl, events, states, k);
  }

  // So a call that returns ready was handed the unexpired result of such a run,
  // in which every check passed.
  lemma ReadyIsEarned(ttl: int, events: seq<Event>, states: seq<System>, i: nat, j: nat, id: CallId)
    requires Run(ttl, events, states) && i < j <= |events| && events[i] == Call(id)
    requires id in states[j].readers && states[j].readers[id].reading.Returned?
    ensures states[j].readers[id].reading.report.Ready() <==>
              exists k :: i < k < j && Passed(events, states, k, id, states[j].readers[id].reading.report)
  {
    ReportIsExplained(ttl, events, states, i, j, id);
    var report := states[j].readers[id].reading.report;
    var k :| i < k < j && Explained(states[k], events[k], id, report);
    if report.Computed? {
      CacheIsCurrentRun(ttl, events, states, k);
      hide RanExactly;
      assert report.Ready() ==> Passed(events, states, k, id, report);
    }
  }

  ghost predicate Passed(events: seq<Event>, states: seq<System>, k: nat, id: CallId, report: Report)
    requires k < |events| && |states| == |events| + 1
  {
    && report.Computed? && events[k].UseCache? && events[k].reader == id && Unexpired(states[k])
    && report.checks == states[k].cached.value.result
    && RanExactly(events, states, k, report.checks, states[k].cached.value.revision)
    && (forall name :: name in report.checks ==> report.checks[name])
  }

  // Some events lead from s to t.
  ghost predicate Leads(s: System, t: System) {
    exists states: seq<System> :: && |states| > 0 && states[0] == s && states[|states| - 1] == t
                                  && forall i :: 0 <= i < |states| - 1 ==> Steps(states[i], states[i + 1])
  }

  ghost predicate Steps(s: System, t: System) {
    exists e :: Enabled(s, e) && t == Next(s, e)
  }

  lemma LeadsToItself(s: System)
    ensures Leads(s, s)
  {
    assert [s][|[s]| - 1] == s;
  }

  lemma LeadsOn(s: System, t: System, e: Event, u: System)
    requires Leads(s, t) && Enabled(t, e) && u == Next(t, e)
    ensures Leads(s, u)
  {
    hide Next, Enabled;
    var states: seq<System> :| && |states| > 0 && states[0] == s && states[|states| - 1] == t
                               && forall i :: 0 <= i < |states| - 1 ==> Steps(states[i], states[i + 1]);
    assert Steps(t, u);
    var longer := states + [u];
    assert longer[|longer| - 1] == u && longer[0] == s;
    forall i | 0 <= i < |longer| - 1 ensures Steps(longer[i], longer[i + 1]) {
      if i < |states| - 1 {
        assert Steps(states[i], states[i + 1]);
      }
    }
  }

  // Nothing is going on: no refresh, nobody in the cache, no unexpired report,
  // not draining.
  predicate Quiet(s: System) {
    s.cacheMu.NoOne? && s.refresh.None? && s.refreshes == map[] && !s.draining && s.ttl > 0 && !Unexpired(s)
  }

  // A call where it has come to, with nothing else changed.
  function At(s: System, id: CallId, reading: Reading): System {
    s.(readers := s.readers[id := Reader(Known(s), false, reading)])
  }

  function Waiting(s: System, id: CallId, ch: Channel, r: Refresh): System {
    At(s, id, WaitingFor(ch)).(refresh := Some(ch), refreshes := map[ch := r], closings := s.closings[ch := 0])
  }

  function Holding(s: System, id: CallId, ch: Channel, r: Refresh): System {
    Waiting(s, id, ch, r).(cacheMu := ByRefresh(ch))
  }

  function Stored(s: System, ch: Channel, result: map<Name, bool>): System {
    s.(cached := Some(Cached(result, s.now + s.ttl, s.revision)), closings := s.closings[ch := 1])
  }

  predicate Lone(s: System, id: CallId, ch: Channel) {
    Quiet(s) && id !in s.readers && ch !in s.closings
  }

  lemma CallStep(s: System, id: CallId, ch: Channel)
    requires Lone(s, id, ch)
    ensures Enabled(s, Call(id)) && Next(s, Call(id)) == At(s, id, Top)
  {
  }

  lemma LoadStep(s: System, id: CallId)
    requires !s.draining
    ensures Enabled(At(s, id, Top), LoadDraining(id))
    ensures Next(At(s, id, Top), LoadDraining(id)) == At(s, id, Entering)
  {
    hide Known;
  }

  lemma LockStep(s: System, id: CallId)
    requires !s.draining && s.cacheMu.NoOne?
    ensures Enabled(At(s, id, Entering), LockCache(id))
    ensures Next(At(s, id, Entering), LockCache(id)) == At(s, id, Open).(cacheMu := ByReader(id))
  {
    hide Known;
  }

  lemma RefreshStep(s: System, id: CallId, ch: Channel)
    requires Lone(s, id, ch)
    ensures
      var t := At(s, id, Open).(cacheMu := ByReader(id));
      Enabled(t, UseCache(id, ch)) && Next(t, UseCache(id, ch)) == Waiting(s, id, ch, Started(s.revision))
  {
    hide Known;
  }

  lemma CallWaits(s: System, id: CallId, ch: Channel)
    requires Lone(s, id, ch)
    ensures Leads(s, Waiting(s, id, ch, Started(s.revision)))
  {
    hide Leads, Next, Enabled, At, Waiting;
    LeadsToItself(s);
    CallStep(s, id, ch);
    LeadsOn(s, s, Call(id), At(s, id, Top));
    LoadStep(s, id);
    LeadsOn(s, At(s, id, Top), LoadDraining(id), At(s, id, Entering));
    LockStep(s, id);
    var open := At(s, id, Open).(cacheMu := ByReader(id));
    LeadsOn(s, At(s, id, Entering), LockCache(id), open);
    RefreshStep(s, id, ch);
    LeadsOn(s, open, UseCache(id, ch), Waiting(s, id, ch, Started(s.revision)));
  }

  // The steps of the refresh.
  lemma SnapshotStep(s: System, id: CallId, ch: Channel)
    ensures
      var a := Waiting(s, id, ch, Started(s.revision));
      Enabled(a, Snapshot(ch)) && Next(a, Snapshot(ch)) == Waiting(s, id, ch, Snapshotted(s.revision, s.checks))
  {
    hide Known;
    assert map[ch := Started(s.revision)][ch := Snapshotted(s.revision, s.checks)] == map[ch := Snapshotted(s.revision, s.checks)];
  }

  lemma RunStep(s: System, id: CallId, ch: Channel, result: map<Name, bool>)
    requires result.Keys == s.checks
    ensures
      var a := Waiting(s, id, ch, Snapshotted(s.revision, s.checks));
      && Enabled(a, RunChecks(ch, result))
      && Next(a, RunChecks(ch, result)) == Waiting(s, id, ch, Finished(s.revision, result))
  {
    hide Known;
    assert map[ch := Snapshotted(s.revision, s.checks)][ch := Finished(s.revision, result)] == map[ch := Finished(s.revision, result)];
  }

  lemma LockRefreshStep(s: System, id: CallId, ch: Channel, result: map<Name, bool>)
    requires !s.draining && s.cacheMu.NoOne?
    ensures
      var a := Waiting(s, id, ch, Finished(s.revision, result));
      Enabled(a, LockRefresh(ch)) && Next(a, LockRefresh(ch)) == Holding(s, id, ch, Locked(s.revision, result))
  {
    hide Known;
    assert map[ch := Finished(s.revision, result)][ch := Locked(s.revision, result)] == map[ch := Locked(s.revision, result)];
  }

  lemma RevisionStep(s: System, id: CallId, ch: Channel, result: map<Name, bool>)
    ensures
      var a := Holding(s, id, ch, Locked(s.revision, result));
      Enabled(a, LoadRevision(ch)) && Next(a, LoadRevision(ch)) == Holding(s, id, ch, Storing(s.revision, result))
  {
    hide Known;
    assert map[ch := Locked(s.revision, result)][ch := Storing(s.revision, result)] == map[ch := Storing(s.revision, result)];
  }

  lemma StoreStep(s: System, id: CallId, ch: Channel, result: map<Name, bool>)
    ensures
      var a := Holding(s, id, ch, Storing(s.revision, result));
      && Enabled(a, StoreCache(ch))
      && Next(a, StoreCache(ch)) == Holding(s, id, ch, Closing).(cached := Some(Cached(result, s.now + s.ttl, s.revision)))
  {
    hide Known;
    assert map[ch := Storing(s.revision, result)][ch := Closing] == map[ch := Closing];
  }

  lemma CloseStep(s: System, id: CallId, ch: Channel, result: map<Name, bool>)
    requires s.cacheMu.NoOne? && s.refresh.None? && s.refreshes == map[]
    ensures
      var a := Holding(s, id, ch, Closing).(cached := Some(Cached(result, s.now + s.ttl, s.revision)));
      Enabled(a, Close(ch)) && Next(a, Close(ch)) == At(Stored(s, ch, result), id, WaitingFor(ch))
  {
    SameKnown(s, Stored(s, ch, result));
    hide Known;
    assert s.closings[ch := 0][ch := 1] == s.closings[ch := 1];
    assert map[ch := Closing] - {ch} == map[];
  }

  lemma SameKnown(s: System, t: System)
    requires s.registrations == t.registrations
    ensures Known(s) == Known(t)
  {
  }

  lemma RefreshFinishes(s: System, id: CallId, ch: Channel, result: map<Name, bool>)
    requires Quiet(s) && result.Keys == s.checks && Leads(s, Waiting(s, id, ch, Started(s.revision)))
    ensures Leads(s, At(Stored(s, ch, result), id, WaitingFor(ch)))
  {
    hide Leads, Next, Enabled, At, Waiting, Holding, Stored;
    SnapshotStep(s, id, ch);
    RunStep(s, id, ch, result);
    LockRefreshStep(s, id, ch, result);
    RevisionStep(s, id, ch, result);
    StoreStep(s, id, ch, result);
    CloseStep(s, id, ch, result);
    var a, b := Waiting(s, id, ch, Snapshotted(s.revision, s.checks)), Waiting(s, id, ch, Finished(s.revision, result));
    LeadsOn(s, Waiting(s, id, ch, Started(s.revision)), Snapshot(ch), a);
    LeadsOn(s, a, RunChecks(ch, result), b);
    var c, d := Holding(s, id, ch, Locked(s.revision, result)), Holding(s, id, ch, Storing(s.revision, result));
    LeadsOn(s, b, LockRefresh(ch), c);
    LeadsOn(s, c, LoadRevision(ch), d);
    var e := Holding(s, id, ch, Closing).(cached := Some(Cached(result, s.now + s.ttl, s.revision)));
    LeadsOn(s, d, StoreCache(ch), e);
    LeadsOn(s, e, Close(ch), At(Stored(s, ch, result), id, WaitingFor(ch)));
  }

  lemma WakeStep(s: System, id: CallId, ch: Channel)
    requires ch in s.closings && s.closings[ch] > 0
    ensures Enabled(At(s, id, WaitingFor(ch)), Wake(id)) && Next(At(s, id, WaitingFor(ch)), Wake(id)) == At(s, id, Top)
  {
    hide Known;
  }

  lemma HitStep(s: System, id: CallId, ch: Channel)
    requires Unexpired(s) && s.cacheMu.NoOne? && ch !in s.closings
    ensures
      var t := At(s, id, Open).(cacheMu := ByReader(id));
      && Enabled(t, UseCache(id, ch))
      && Next(t, UseCache(id, ch)) == At(s, id, Returned(Computed(s.cached.value.result)))
  {
    hide Known;
  }

  // While nothing else goes on, a call refreshes the cache and returns the report
  // of its checks, whatever they find.
  lemma LoneCallIsAnswered(s: System, id: CallId, ch: Channel, other: Channel, result: map<Name, bool>)
    requires Lone(s, id, ch) && other !in s.closings && other != ch && result.Keys == s.checks
    ensures Leads(s, At(Stored(s, ch, result), id, Returned(Computed(result))))
  {
    hide Leads, Next, Enabled, At, Waiting;
    CallWaits(s, id, ch);
    RefreshFinishes(s, id, ch, result);
    var t := Stored(s, ch, result);
    WakeStep(t, id, ch);
    LeadsOn(s, At(t, id, WaitingFor(ch)), Wake(id), At(t, id, Top));
    LoadStep(t, id);
    LeadsOn(s, At(t, id, Top), LoadDraining(id), At(t, id, Entering));
    LockStep(t, id);
    var open := At(t, id, Open).(cacheMu := ByReader(id));
    LeadsOn(s, At(t, id, Entering), LockCache(id), open);
    HitStep(t, id, other);
    LeadsOn(s, open, UseCache(id, other), At(t, id, Returned(Computed(result))));
  }
}
