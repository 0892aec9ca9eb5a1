// The readiness cache (Framework/health/checker.go): registrations, draining,
// readiness calls and background refreshes as a state machine over all their
// interleavings. Each step is one access to an atomic variable or the part of a
// critical section up to the next one.

module HealthCache {
  import opened Common

  type Name(==, !new)
  type CallId(==, !new)
  type Channel(==, !new)

  // A report computed by the checks, by name, or one of the fixed reports.
  datatype Report = Computed(checks: map<Name, bool>) | Draining | Canceled {
    predicate Ready() {
      Computed? && forall name :: name in checks ==> checks[name]
    }
  }

  // What Register has done so far; the number is the revision it made.
  datatype Registration = Added | Bumped(made: nat) | Registered(made: nat)

  datatype Reading = Top | Entering | Open | WaitingFor(channel: Channel) | Returned(report: Report)

  // A readiness call: the checks registered when it began, and whether draining
  // was on then and has not been turned off since.
  datatype Reader = Reader(known: set<Name>, drained: bool, reading: Reading)

  datatype Refresh =
    | Started(revision: nat)
    | Snapshotted(revision: nat, names: set<Name>)
    | Finished(revision: nat, result: map<Name, bool>)
    | Locked(revision: nat, result: map<Name, bool>)   // not draining; before the revision check
    | Storing(revision: nat, result: map<Name, bool>)  // the revision was still the same
    | Closing

  // The cached report, when it expires, and the revision it was stored for.
  datatype Cached = Cached(result: map<Name, bool>, till: int, revision: nat)

  datatype Holder = NoOne | ByReader(call: CallId) | ByRefresh(refreshing: Channel)

  datatype System = System(
    now: int,
    ttl: int,                               // how long a report is cached
    draining: bool,
    revision: nat,
    checks: set<Name>,
    cached: Option<Cached>,
    refresh: Option<Channel>,
    cacheMu: Holder,
    registrations: map<Name, Registration>,
    drains: map<CallId, bool>,              // SetDraining calls; has the revision been bumped?
    readers: map<CallId, Reader>,
    refreshes: map<Channel, Refresh>,
    closings: map<Channel, nat>)            // how often each channel made was closed

  function Initial(ttl: int): System {
    System(0, ttl, false, 0, {}, None, None, NoOne, map[], map[], map[], map[], map[])
  }

  datatype Event =
    | Tick(time: int)
    | RegisterAdd(name: Name)
    | RegisterBump(bumped: Name)
    | RegisterInvalidate(finished: Name)
    | DrainStore(drain: CallId, draining: bool)
    | DrainBump(drain: CallId)
    | DrainInvalidate(drain: CallId)
    | Call(reader: CallId)
    | LoadDraining(reader: CallId)
    | LockCache(reader: CallId)
    | UseCache(reader: CallId, made: Channel)
    | Wake(reader: CallId)
    | Cancel(reader: CallId)
    | Snapshot(channel: Channel)
    | RunChecks(channel: Channel, result: map<Name, bool>)
    | LockRefresh(channel: Channel)
    | LoadRevision(channel: Channel)
    | StoreCache(channel: Channel)
    | Close(channel: Channel)

  predicate Enabled(s: System, e: Event) {
    match e
    case Tick(time) => time > s.now
    case RegisterAdd(name) => name !in s.checks && name !in s.registrations
    case RegisterBump(name) => name in s.registrations && s.registrations[name].Added?
    case RegisterInvalidate(name) => name in s.registrations && s.registrations[name].Bumped? && s.cacheMu.NoOne?
    case DrainStore(id, _) => id !in s.drains
    case DrainBump(id) => id in s.drains && !s.drains[id]
    case DrainInvalidate(id) => id in s.drains && s.drains[id] && s.cacheMu.NoOne?
    case Call(id) => id !in s.readers
    case LoadDraining(id) => id in s.readers && s.readers[id].reading.Top?
    case LockCache(id) => id in s.readers && s.readers[id].reading.Entering? && s.cacheMu.NoOne?
    case UseCache(id, made) => id in s.readers && s.readers[id].reading.Open? && made !in s.closings
    case Wake(id) =>
      && id in s.readers && s.readers[id].reading.WaitingFor?
      && s.readers[id].reading.channel in s.closings && s.closings[s.readers[id].reading.channel] > 0
    case Cancel(id) => id in s.readers && s.readers[id].reading.WaitingFor?
    case Snapshot(ch) => ch in s.refreshes && s.refreshes[ch].Started?
    case RunChecks(ch, result) => ch in s.refreshes && s.refreshes[ch].Snapshotted? && result.Keys == s.refreshes[ch].names
    case LockRefresh(ch) => ch in s.refreshes && s.refreshes[ch].Finished? && s.cacheMu.NoOne?
    case LoadRevision(ch) => ch in s.refreshes && s.refreshes[ch].Locked?
    case StoreCache(ch) => ch in s.refreshes && s.refreshes[ch].Storing?
    case Close(ch) => ch in s.refreshes && s.refreshes[ch].Closing? && ch in s.closings
  }

  function Known(s: System): set<Name> {
    set name | name in s.registrations && s.registrations[name].Registered?
  }

  function Read(s: System, id: CallId, reading: Reading): System
    requires id in s.readers
  {
    s.(readers := s.readers[id := s.readers[id].(reading := reading)])
  }

  function Put(s: System, ch: Channel, r: Refresh): System {
    s.(refreshes := s.refreshes[ch := r])
  }

  // A store of false is what ends the promise made to the calls so far.
  function Undrain(readers: map<CallId, Reader>): map<CallId, Reader> {
    map id | id in readers :: readers[id].(drained := false)
  }

  predicate Unexpired(s: System) {
    s.cached.Some? && s.now < s.cached.value.till
  }

  function AfterUseCache(s: System, id: CallId, made: Channel): (t: System)
    requires id in s.readers
    ensures t == s.(readers := t.readers, cacheMu := NoOne, refresh := t.refresh, refreshes := t.refreshes, closings := t.closings)
  {
    var free := s.(cacheMu := NoOne);
    if Unexpired(s) then Read(free, id, Returned(Computed(s.cached.value.result)))
    else if s.refresh.Some? then Read(free, id, WaitingFor(s.refresh.value))
    else
      Put(Read(free, id, WaitingFor(made)), made, Started(s.revision))
        .(refresh := Some(made), closings := s.closings[made := 0])
  }

  function AfterClose(s: System, ch: Channel): System
    requires ch in s.closings
  {
    var free := s.(cacheMu := NoOne, refreshes := s.refreshes - {ch});
    if s.refresh == Some(ch) then free.(refresh := None, closings := s.closings[ch := s.closings[ch] + 1]) else free
  }

  function RegisterNext(s: System, e: Event): (t: System)
    requires Enabled(s, e)
    ensures t == s.(checks := t.checks, revision := t.revision, registrations := t.registrations, cached := t.cached)
  {
    match e
    case RegisterAdd(name) => s.(checks := s.checks + {name}, registrations := s.registrations[name := Added])
    case RegisterBump(name) =>
      s.(revision := s.revision + 1, registrations := s.registrations[name := Bumped(s.revision + 1)])
    case RegisterInvalidate(name) =>
      s.(cached := None, registrations := s.registrations[name := Registered(s.registrations[name].made)])
    case _ => s
  }

  function DrainNext(s: System, e: Event): (t: System)
    requires Enabled(s, e)
    ensures t == s.(draining := t.draining, revision := t.revision, cached := t.cached, drains := t.drains, readers := t.readers)
  {
    match e
    case DrainStore(id, b) =>
      s.(draining := b, drains := s.drains[id := false], readers := if b then s.readers else Undrain(s.readers))
    case DrainBump(id) => s.(revision := s.revision + 1, drains := s.drains[id := true])
    case DrainInvalidate(id) => s.(cached := None, drains := s.drains - {id})
    case _ => s
  }

  function ReaderNext(s: System, e: Event): (t: System)
    requires Enabled(s, e)
    ensures t == s.(readers := t.readers, cacheMu := t.cacheMu, refresh := t.refresh, refreshes := t.refreshes, closings := t.closings)
  {
    match e
    case Call(id) => s.(readers := s.readers[id := Reader(Known(s), s.draining, Top)])
    case LoadDraining(id) => Read(s, id, if s.draining then Returned(Draining) else Entering)
    case LockCache(id) => if s.draining then Read(s, id, Returned(Draining)) else Read(s, id, Open).(cacheMu := ByReader(id))
    case UseCache(id, made) => AfterUseCache(s, id, made)
    case Wake(id) => Read(s, id, Top)
    case Cancel(id) => Read(s, id, Returned(Canceled))
    case _ => s
  }

  function RefreshNext(s: System, e: Event): (t: System)
    requires Enabled(s, e)
    ensures t == s.(cached := t.cached, cacheMu := t.cacheMu, refresh := t.refresh, refreshes := t.refreshes, closings := t.closings)
  {
    match e
    case Snapshot(ch) => Put(s, ch, Snapshotted(s.refreshes[ch].revision, s.checks))
    case RunChecks(ch, result) => Put(s, ch, Finished(s.refreshes[ch].revision, result))
    case LockRefresh(ch) =>
      Put(s, ch, if s.draining then Closing else Locked(s.refreshes[ch].revision, s.refreshes[ch].result)).(cacheMu := ByRefresh(ch))
    case LoadRevision(ch) =>
      Put(s, ch, if s.revision == s.refreshes[ch].revision then Storing(s.revision, s.refreshes[ch].result) else Closing)
    case StoreCache(ch) => Put(s, ch, Closing).(cached := Some(Cached(s.refreshes[ch].result, s.now + s.ttl, s.refreshes[ch].revision)))
    case Close(ch) => AfterClose(s, ch)
    case _ => s
  }

  function Next(s: System, e: Event): System
    requires Enabled(s, e)
  {
    if e.Tick? then s.(now := e.time)
    else if e.RegisterAdd? || e.RegisterBump? || e.RegisterInvalidate? then RegisterNext(s, e)
    else if e.DrainStore? || e.DrainBump? || e.DrainInvalidate? then DrainNext(s, e)
    else if e.Snapshot? || e.RunChecks? || e.LockRefresh? || e.LoadRevision? || e.StoreCache? || e.Close? then RefreshNext(s, e)
    else ReaderNext(s, e)
  }

  // ttl is positive: the constructor replaces any other value by a default.
  ghost predicate Run(ttl: int, events: seq<Event>, states: seq<System>) {
    && ttl > 0 && |states| == |events| + 1 && states[0] == Initial(ttl)
    && (forall i :: 0 <= i < |events| ==> Enabled(states[i], events[i]) && states[i + 1] == Next(states[i], events[i]))
  }

  predicate HoldsLock(r: Refresh) {
    r.Locked? || r.Storing? || r.Closing?
  }

  // The mutex: whoever is inside the critical section holds it.
  ghost predicate LockExact(s: System) {
    && (forall id :: id in s.readers && s.readers[id].reading.Open? ==> s.cacheMu == ByReader(id))
    && (forall ch :: ch in s.refreshes && HoldsLock(s.refreshes[ch]) ==> s.cacheMu == ByRefresh(ch))
  }

  // One refresh at most, and its channel is the one waited for and still open;
  // no channel was closed twice.
  ghost predicate OneRefresh(s: System) {
    && (forall ch :: ch in s.refreshes <==> s.refresh == Some(ch))
    && (forall ch :: ch in s.closings ==> s.closings[ch] == if s.refresh == Some(ch) then 0 else 1)
    && (s.refresh.Some? ==> s.refresh.value in s.closings)
  }

  predicate Made(s: System, name: Name, revision: nat) {
    name in s.registrations && !s.registrations[name].Added? && s.registrations[name].made <= revision
  }

  ghost predicate Revisions(s: System) {
    && s.registrations.Keys == s.checks
    && (forall name :: name in s.registrations && !s.registrations[name].Added? ==> s.registrations[name].made <= s.revision)
  }

  // A refresh that began at a revision has every check that revision counts.
  ghost predicate Covers(s: System, r: Refresh) {
    match r
    case Started(revision) => revision <= s.revision
    case Snapshotted(revision, names) => revision <= s.revision && forall name :: Made(s, name, revision) ==> name in names
    case Finished(revision, result) => revision <= s.revision && forall name :: Made(s, name, revision) ==> name in result
    case Locked(revision, result) => revision <= s.revision && forall name :: Made(s, name, revision) ==> name in result
    case Storing(_, result) => Known(s) <= result.Keys
    case Closing => true
  }

  ghost predicate RefreshesCover(s: System) {
    forall ch :: ch in s.refreshes ==> Covers(s, s.refreshes[ch])
  }

  // The cache and every report handed out contain the registered checks.
  ghost predicate CacheFresh(s: System) {
    && (s.cached.Some? ==> Known(s) <= s.cached.value.result.Keys)
    && (forall id :: id in s.readers ==>
          && s.readers[id].known <= Known(s)
          && (s.readers[id].reading.Returned? && s.readers[id].reading.report.Computed? ==>
                s.readers[id].known <= s.readers[id].reading.report.checks.Keys))
  }

  ghost predicate DrainKept(s: System) {
    forall id :: id in s.readers && s.readers[id].drained ==>
      s.draining && (s.readers[id].reading.Top? || s.readers[id].reading == Returned(Draining))
  }

  ghost predicate Inv(s: System) {
    LockExact(s) && OneRefresh(s) && Revisions(s) && RefreshesCover(s) && CacheFresh(s) && DrainKept(s)
  }

  lemma DrainKeepsLock(s: System, e: Event)
    requires LockExact(s) && Enabled(s, e)
    ensures LockExact(DrainNext(s, e))
  {
  }

  // A hit, a wait for the running refresh, or a new refresh.
  lemma UseCacheEffect(s: System, id: CallId, made: Channel)
    requires Enabled(s, UseCache(id, made))
    ensures
      var t := AfterUseCache(s, id, made);
      && id in s.readers && s.readers[id].reading.Open? && made !in s.closings
      && id in t.readers && t.readers == s.readers[id := s.readers[id].(reading := t.readers[id].reading)]
      && (if Unexpired(s) then t.readers[id].reading == Returned(Computed(s.cached.value.result))
          else t.readers[id].reading.WaitingFor? && t.refresh == Some(t.readers[id].reading.channel))
      && ((t.refresh == s.refresh && t.refreshes == s.refreshes && t.closings == s.closings)
          || (s.refresh.None? && t.refresh == Some(made) && t.refreshes == s.refreshes[made := Started(s.revision)]
              && t.closings == s.closings[made := 0]))
  {
  }

  lemma UseCacheKeepsLock(s: System, id: CallId, made: Channel)
    requires LockExact(s) && Enabled(s, UseCache(id, made))
    ensures LockExact(AfterUseCache(s, id, made))
  {
    hide AfterUseCache, Enabled;
    UseCacheEffect(s, id, made);
  }

  lemma ReaderKeepsLock(s: System, e: Event)
    requires LockExact(s) && Enabled(s, e)
    ensures LockExact(ReaderNext(s, e))
  {
    hide AfterUseCache;
    if e.UseCache? {
      UseCacheKeepsLock(s, e.reader, e.made);
    }
  }

  lemma RefreshKeepsLock(s: System, e: Event)
    requires LockExact(s) && Enabled(s, e)
    ensures LockExact(RefreshNext(s, e))
  {
  }

  lemma StepKeepsLock(s: System, e: Event)
    requires LockExact(s) && Enabled(s, e)
    ensures LockExact(Next(s, e))
  {
    hide Enabled, RegisterNext, DrainNext, ReaderNext, RefreshNext;
    DrainKeepsLock(s, e);
    ReaderKeepsLock(s, e);
    RefreshKeepsLock(s, e);
  }

  lemma UseCacheKeepsOneRefresh(s: System, id: CallId, made: Channel)
    requires LockExact(s) && OneRefresh(s) && Enabled(s, UseCache(id, made))
    ensures OneRefresh(AfterUseCache(s, id, made))
  {
    hide AfterUseCache, Enabled;
    UseCacheEffect(s, id, made);
  }

  lemma ReaderKeepsOneRefresh(s: System, e: Event)
    requires LockExact(s) && OneRefresh(s) && Enabled(s, e)
    ensures OneRefresh(ReaderNext(s, e))
  {
    hide AfterUseCache;
    if e.UseCache? {
      UseCacheKeepsOneRefresh(s, e.reader, e.made);
    }
  }

  lemma RefreshKeepsOneRefresh(s: System, e: Event)
    requires LockExact(s) && OneRefresh(s) && Enabled(s, e)
    ensures OneRefresh(RefreshNext(s, e))
  {
  }

  lemma StepKeepsOneRefresh(s: System, e: Event)
    requires LockExact(s) && OneRefresh(s) && Enabled(s, e)
    ensures OneRefresh(Next(s, e))
  {
    hide Enabled, RegisterNext, DrainNext, ReaderNext, RefreshNext;
    ReaderKeepsOneRefresh(s, e);
    RefreshKeepsOneRefresh(s, e);
  }

  lemma RegisterKeepsRevisions(s: System, e: Event)
    requires Revisions(s) && Enabled(s, e)
    ensures Revisions(RegisterNext(s, e))
  {
  }

  lemma DrainKeepsRevisions(s: System, e: Event)
    requires Revisions(s) && Enabled(s, e)
    ensures Revisions(DrainNext(s, e))
  {
  }

  lemma StepKeepsRevisions(s: System, e: Event)
    requires Revisions(s) && Enabled(s, e)
    ensures Revisions(Next(s, e))
  {
    hide Enabled, RegisterNext, DrainNext, ReaderNext, RefreshNext;
    RegisterKeepsRevisions(s, e);
    DrainKeepsRevisions(s, e);
  }

  lemma RegisterKeepsCovers(s: System, e: Event)
    requires LockExact(s) && Revisions(s) && RefreshesCover(s) && Enabled(s, e)
    ensures RefreshesCover(RegisterNext(s, e))
  {
  }

  lemma DrainKeepsCovers(s: System, e: Event)
    requires LockExact(s) && Revisions(s) && RefreshesCover(s) && Enabled(s, e)
    ensures RefreshesCover(DrainNext(s, e))
  {
  }

  lemma UseCacheKeepsCovers(s: System, id: CallId, made: Channel)
    requires LockExact(s) && Revisions(s) && RefreshesCover(s) && Enabled(s, UseCache(id, made))
    ensures RefreshesCover(AfterUseCache(s, id, made))
  {
    hide AfterUseCache, Enabled;
    UseCacheEffect(s, id, made);
  }

  lemma ReaderKeepsCovers(s: System, e: Event)
    requires LockExact(s) && Revisions(s) && RefreshesCover(s) && Enabled(s, e)
    ensures RefreshesCover(ReaderNext(s, e))
  {
    hide AfterUseCache;
    if e.UseCache? {
      UseCacheKeepsCovers(s, e.reader, e.made);
    }
  }

  lemma RefreshKeepsCovers(s: System, e: Event)
    requires LockExact(s) && Revisions(s) && RefreshesCover(s) && Enabled(s, e)
    ensures RefreshesCover(RefreshNext(s, e))
  {
  }

  lemma StepKeepsCovers(s: System, e: Event)
    requires LockExact(s) && Revisions(s) && RefreshesCover(s) && Enabled(s, e)
    ensures RefreshesCover(Next(s, e))
  {
    hide Enabled, RegisterNext, DrainNext, ReaderNext, RefreshNext;
    RegisterKeepsCovers(s, e);
    DrainKeepsCovers(s, e);
    ReaderKeepsCovers(s, e);
    RefreshKeepsCovers(s, e);
  }

  lemma RegisterKeepsCache(s: System, e: Event)
    requires RefreshesCover(s) && CacheFresh(s) && Enabled(s, e)
    ensures CacheFresh(RegisterNext(s, e))
  {
  }

  lemma DrainKeepsCache(s: System, e: Event)
    requires RefreshesCover(s) && CacheFresh(s) && Enabled(s, e)
    ensures CacheFresh(DrainNext(s, e))
  {
  }

  lemma UseCacheKeepsCache(s: System, id: CallId, made: Channel)
    requires RefreshesCover(s) && CacheFresh(s) && Enabled(s, UseCache(id, made))
    ensures CacheFresh(AfterUseCache(s, id, made))
  {
    hide AfterUseCache, Enabled;
    UseCacheEffect(s, id, made);
  }

  lemma ReaderKeepsCache(s: System, e: Event)
    requires RefreshesCover(s) && CacheFresh(s) && Enabled(s, e)
    ensures CacheFresh(ReaderNext(s, e))
  {
    hide AfterUseCache;
    if e.UseCache? {
      UseCacheKeepsCache(s, e.reader, e.made);
    }
  }

  lemma RefreshKeepsCache(s: System, e: Event)
    requires RefreshesCover(s) && CacheFresh(s) && Enabled(s, e)
    ensures CacheFresh(RefreshNext(s, e))
  {
  }

  lemma StepKeepsCache(s: System, e: Event)
    requires RefreshesCover(s) && CacheFresh(s) && Enabled(s, e)
    ensures CacheFresh(Next(s, e))
  {
    hide Enabled, RegisterNext, DrainNext, ReaderNext, RefreshNext;
    RegisterKeepsCache(s, e);
    DrainKeepsCache(s, e);
    ReaderKeepsCache(s, e);
    RefreshKeepsCache(s, e);
  }

  lemma DrainKeepsDrain(s: System, e: Event)
    requires DrainKept(s) && Enabled(s, e)
    ensures DrainKept(DrainNext(s, e))
  {
  }

  lemma UseCacheKeepsDrain(s: System, id: CallId, made: Channel)
    requires DrainKept(s) && Enabled(s, UseCache(id, made))
    ensures DrainKept(AfterUseCache(s, id, made))
  {
    hide AfterUseCache, Enabled;
    UseCacheEffect(s, id, made);
  }

  lemma ReaderKeepsDrain(s: System, e: Event)
    requires DrainKept(s) && Enabled(s, e)
    ensures DrainKept(ReaderNext(s, e))
  {
    hide AfterUseCache;
    if e.UseCache? {
      UseCacheKeepsDrain(s, e.reader, e.made);
    }
  }

  lemma StepKeepsDrain(s: System, e: Event)
    requires DrainKept(s) && Enabled(s, e)
    ensures DrainKept(Next(s, e))
  {
    hide Enabled, RegisterNext, DrainNext, ReaderNext, RefreshNext;
    DrainKeepsDrain(s, e);
    ReaderKeepsDrain(s, e);
  }

  lemma StepKeepsInv(s: System, e: Event)
    requires Inv(s) && Enabled(s, e)
    ensures Inv(Next(s, e))
  {
    hide Next, Enabled, LockExact, OneRefresh, Revisions, RefreshesCover, CacheFresh, DrainKept;
    StepKeepsLock(s, e);
    StepKeepsOneRefresh(s, e);
    StepKeepsRevisions(s, e);
    StepKeepsCovers(s, e);
    StepKeepsCache(s, e);
    StepKeepsDrain(s, e);
  }

  lemma {:induction false} EveryState(ttl: int, events: seq<Event>, states: seq<System>, i: nat)
    requires Run(ttl, events, states) && i <= |events|
    ensures Inv(states[i])
  {
    if i > 0 {
      EveryState(ttl, events, states, i - 1);
      hide Next, Enabled, Inv;
      StepKeepsInv(states[i - 1], events[i - 1]);
    }
  }

  lemma {:induction false} KnownSinceCall(ttl: int, events: seq<Event>, states: seq<System>, i: nat, j: nat, id: CallId)
    requires Run(ttl, events, states) && i < j <= |events| && events[i] == Call(id)
    ensures id in states[j].readers && states[j].readers[id].known == Known(states[i])
  {
    hide Next, Enabled;
    if i + 1 < j {
      KnownSinceCall(ttl, events, states, i, j - 1, id);
      KeepsPromise(states[j - 1], events[j - 1], id);
    } else {
      CallRecords(states[i], id);
    }
  }

  lemma CallRecords(s: System, id: CallId)
    requires Enabled(s, Call(id))
    ensures id in Next(s, Call(id)).readers && Next(s, Call(id)).readers[id] == Reader(Known(s), s.draining, Top)
    ensures Next(s, Call(id)).draining == s.draining
  {
  }

  // A step leaves what a call has been promised, but for a store of false.
  ghost predicate SamePromise(s: System, t: System, e: Event, id: CallId)
    requires id in s.readers
  {
    && id in t.readers && t.readers[id].known == s.readers[id].known
    && (t.readers[id].drained == s.readers[id].drained || (e.DrainStore? && !e.draining))
  }

  lemma ReaderKeepsPromise(s: System, e: Event, id: CallId)
    requires Enabled(s, e) && id in s.readers
    ensures SamePromise(s, ReaderNext(s, e), e, id)
  {
    hide AfterUseCache;
    if e.UseCache? {
      UseCacheEffect(s, e.reader, e.made);
    }
  }

  lemma DrainKeepsPromise(s: System, e: Event, id: CallId)
    requires Enabled(s, e) && id in s.readers
    ensures SamePromise(s, DrainNext(s, e), e, id)
    ensures s.draining && (e.DrainStore? ==> e.draining) ==> DrainNext(s, e).draining
  {
  }

  lemma KeepsPromise(s: System, e: Event, id: CallId)
    requires Enabled(s, e) && id in s.readers
    ensures SamePromise(s, Next(s, e), e, id)
    ensures s.draining && (e.DrainStore? ==> e.draining) ==> Next(s, e).draining
  {
    hide Enabled, RegisterNext, DrainNext, ReaderNext, RefreshNext;
    ReaderKeepsPromise(s, e, id);
    DrainKeepsPromise(s, e, id);
  }

  // After Register has returned, no later call returns a report that was
  // computed without the check.
  lemma NoStaleReport(ttl: int, events: seq<Event>, states: seq<System>, i: nat, j: nat, id: CallId, name: Name)
    requires Run(ttl, events, states) && i < j <= |events| && events[i] == Call(id)
    requires name in states[i].registrations && states[i].registrations[name].Registered?
    requires id in states[j].readers && states[j].readers[id].reading.Returned?
    ensures
      var report := states[j].readers[id].reading.report;
      report.Computed? ==> name in report.checks
  {
    hide Next, Enabled;
    EveryState(ttl, events, states, j);
    KnownSinceCall(ttl, events, states, i, j, id);
  }

  // While draining stays on, no call that began under it returns ready.
  lemma {:induction false} NotReadyWhileDraining(ttl: int, events: seq<Event>, states: seq<System>, i: nat, j: nat, id: CallId)
    requires Run(ttl, events, states) && i < j <= |events| && events[i] == Call(id) && states[i].draining
    requires forall k :: i <= k < j && events[k].DrainStore? ==> events[k].draining
    ensures id in states[j].readers && states[j].readers[id].drained && states[j].draining
    ensures states[j].readers[id].reading.Returned? ==> !states[j].readers[id].reading.report.Ready()
  {
    hide Next, Enabled;
    if i + 1 < j {
      NotReadyWhileDraining(ttl, events, states, i, j - 1, id);
      KeepsPromise(states[j - 1], events[j - 1], id);
    } else {
      CallRecords(states[i], id);
    }
    EveryState(ttl, events, states, j);
  }

  // At most one refresh runs at a time, it runs on the channel the callers wait
  // for, and no channel is closed more than once; one that is not waited for any
  // more has been closed exactly once.
  lemma RefreshesAreSingle(ttl: int, events: seq<Event>, states: seq<System>, i: nat, ch: Channel, other: Channel)
    requires Run(ttl, events, states) && i <= |events|
    ensures ch in states[i].refreshes && other in states[i].refreshes ==> ch == other
    ensures ch in states[i].closings ==> states[i].closings[ch] == if ch in states[i].refreshes then 0 else 1
  {
    EveryState(ttl, events, states, i);
    hide LockExact, Revisions, RefreshesCover, CacheFresh, DrainKept;
  }
}
