// Runs of browser-session calls on Redis in which renames are caught between
// their read and their compare-and-swap. Every run acts like one of the
// in-memory manager in which each rename happens at once, at its swap.

module BrowserRuns {
  import opened Common
  import opened Hashing
  import opened RedisKeys
  import opened BrowserTypes
  import opened BrowserSimulation
  import M = BrowserMemory
  import R = BrowserScripts

  type CallId(==, !new)

  // A caller that has read and has yet to swap.
  datatype Attempt = Attempt(subject: Text, id: Digest, pending: R.Pending)

  datatype System = System(store: R.Store, attempts: map<CallId, Attempt>)

  const Initial := System(R.Empty, map[])

  datatype Action =
    | Call(request: Request, picked: set<R.Member>)
    | Begin(call: CallId, subject: Text, id: Digest, device: DeviceName)
    | Finish(finished: CallId)

  datatype Event = Event(now: int, action: Action)

  // One atomic step of Redis and the answer of the call, if it ends here.
  function Act(c: Config, s: System, now: int, action: Action): (System, Option<Outcome>) {
    match action
    case Call(request, picked) =>
      var (t, out) := R.Step(c, s.store, now, request, picked);
      (s.(store := t), Some(out))
    case Begin(call, subject, id, device) =>
      if device.Unacceptable? then (s, Some(Failed(DeviceNameInvalid)))
      else
        (match R.BeginRename(s.store, now, Sha256(subject), id, device)
         case None => (s, Some(Failed(Invalid)))
         case Some(p) => (s.(attempts := s.attempts[call := Attempt(subject, id, p)]), None))
    case Finish(call) =>
      if call !in s.attempts then (s, None)
      else
        var (t, code) := R.FinishRename(s.store, now, s.attempts[call].pending);
        (System(t, s.attempts - {call}), Some(R.DoneIf(code)))
  }

  function RenameOf(a: Attempt): Request {
    Rename(a.subject, a.id, a.pending.device)
  }

  // The same step on the manager: a rename takes effect when it swaps, if it
  // does.
  function Follow(c: Config, s: System, m: M.Sessions, now: int, action: Action): (M.Sessions, Outcome) {
    match action
    case Call(request, _) => M.Step(c, m, now, request)
    case Begin(_, subject, id, device) => (m, M.RenameStep(m, now, subject, id, device).1)
    case Finish(call) =>
      if Act(c, s, now, action).1 == Some(Done) then M.Step(c, m, now, RenameOf(s.attempts[call])) else (m, Failed(Invalid))
  }

  // Tokens and identifiers of new sessions were never held before.
  ghost predicate NeverHeld(action: Action, ms: seq<M.Sessions>) {
    action.Call? && action.request.Start? ==>
      forall j :: 0 <= j < |ms| ==> Unheld(ms[j], action.request.token, action.request.sessionId)
  }

  ghost predicate Unheld(m: M.Sessions, token: Digest, sessionId: Text) {
    token !in m && forall t :: t in m ==> m[t].sessionId != sessionId
  }

  // ZRANGE hands a listing the entries with the lowest scores.
  ghost predicate RangeServed(c: Config, s: R.Store, now: int, action: Action) {
    action.Call? && action.request.List? && c.maxPerSubject >= 0 ==>
      R.Lowest(R.Unexpired(R.SubjectIndex(s, Sha256(action.request.owner)), now), c.maxPerSubject, action.picked)
  }

  ghost predicate Clocked(run: seq<Event>) {
    && (forall i :: 0 <= i < |run| ==> run[i].now >= 1)
    && (forall i, j :: 0 <= i <= j < |run| ==> run[i].now <= run[j].now)
  }

  // Before event i Redis and the callers are in ss[i], the manager in ms[i].
  ghost predicate Run(c: Config, run: seq<Event>, ss: seq<System>, ms: seq<M.Sessions>) {
    && c.Valid() && Clocked(run)
    && |ss| == |ms| == |run| + 1 && ss[0] == Initial && ms[0] == map[]
    && (forall i :: 0 <= i < |run| ==> Stepped(c, run[i], ss[i], ms[i], ss[i + 1], ms[i + 1]))
    && (forall i :: 0 <= i < |run| ==> NeverHeld(run[i].action, ms[..i + 1]))
  }

  ghost predicate Stepped(c: Config, e: Event, s: System, m: M.Sessions, t: System, n: M.Sessions) {
    && t == Act(c, s, e.now, e.action).0
    && n == Follow(c, s, m, e.now, e.action).0
    && RangeServed(c, s.store, e.now, e.action)
  }

  // A session that is not live may be forgotten by the manager or not, so for
  // one the answers may differ in the error, and in End.
  ghost predicate SameAnswer(live: M.Sessions, action: Action, manager: Outcome, redis: Option<Outcome>) {
    match action
    case Call(Verify(t, _), _) =>
      redis == Some(if t in live then manager else Failed(Invalid)) && (t !in live ==> manager.Failed?)
    case Call(End(t), _) => redis == Some(if t in live then Done else Failed(Invalid)) && (t in live ==> manager == Done)
    case Call(_, _) => redis == Some(manager)
    case Begin(_, _, _, _) => redis == None || redis == Some(manager)
    case Finish(_) => redis == Some(Done) ==> manager == Done
  }

  // What each open attempt knows of its session.
  predicate AttemptSound(a: Attempt, now: int) {
    && PendingSound(a.pending) && a.pending.readAt <= now
    && a.pending.record.subject == Sha256(a.subject) && IdOf(a.pending.record) == a.id
  }

  ghost predicate AttemptsSound(s: System, now: int) {
    forall call :: call in s.attempts ==> AttemptSound(s.attempts[call], now)
  }

  // A call on both.
  lemma CallSimulates(c: Config, s: R.Store, m: M.Sessions, now: int, request: Request, picked: set<R.Member>)
    requires c.Valid() && now >= 1 && Represents(s, M.Live(m, now), now) && Bounded(c, s)
    requires NeverHeld(Call(request, picked), [m]) && RangeServed(c, s, now, Call(request, picked))
    ensures
      var (n, out) := M.Step(c, m, now, request);
      var (t, reply) := R.Step(c, s, now, request, picked);
      Represents(t, M.Live(n, now), now) && SameAnswer(M.Live(m, now), Call(request, picked), out, Some(reply))
  {
    hide Represents, Bounded, M.StartStep, M.VerifyStep, M.ListStep, M.RevokeStep, M.RevokeAllStep, M.RenameStep, M.EndStep;
    hide R.StartOn, R.VerifyOn, R.ListOn, R.DeleteByID, R.RevokeAllOn, R.RenameOn, R.Delete;
    match request
    case Start(claims, token, csrf, sessionId) =>
      assert Unheld([m][0], token, sessionId);
      StartSimulates(c, s, m, now, claims, token, csrf, sessionId);
    case Verify(token, csrf) => VerifySimulates(s, m, now, token, csrf);
    case List(subject) => ListSimulates(c, s, m, now, subject, picked);
    case Revoke(subject, id) => RevokeSimulates(s, m, now, subject, id);
    case RevokeAll(subject) => RevokeAllSimulates(c, s, m, now, subject);
    case Rename(subject, id, device) => RenameSimulates(s, m, now, subject, id, device);
    case End(token) => EndSimulates(s, m, now, token);
  }

  // The swap of a rename, with anything between it and its read.
  lemma FinishSimulates(s: R.Store, m: M.Sessions, now: int, a: Attempt)
    requires now >= 1 && Represents(s, M.Live(m, now), now) && AttemptSound(a, now)
    ensures
      var live := M.Live(m, now);
      var token := a.pending.snap.token;
      var (n, out) := M.RenameStep(m, now, a.subject, a.id, a.pending.device);
      var (t, code) := R.FinishRename(s, now, a.pending);
      if code == 1 then
        && out == Done && Represents(t, M.Live(n, now), now)
        && token in live && live[token].subject == Sha256(a.subject)
        && M.Live(n, now) == live[token := live[token].(device := a.pending.device)]
      else t == s && code == 0
  {
    hide Represents, R.FinishRename, M.Matching, M.Live, M.Renamed;
    var live := M.Live(m, now);
    var token := a.pending.snap.token;
    FinishSwaps(s, live, now, a.pending);
    if token in live && live[token] == a.pending.record {
      MatchedAlone(s, live, now, token, a);
      RenamedIsLive(m, now, {token}, a.pending.device);
      M.RenamedOne(live, token, a.pending.device);
    }
  }

  lemma MatchedAlone(s: R.Store, live: M.Sessions, now: int, token: Digest, a: Attempt)
    requires Represents(s, live, now) && token in live && live[token] == a.pending.record && AttemptSound(a, now)
    ensures M.Matching(live, Sha256(a.subject), a.id) == {token}
  {
    hide Represents;
    IdIsRead(s, live, now, Sha256(a.subject), a.id);
    assert token in M.Matching(live, Sha256(a.subject), a.id);
  }

  // One step on both.
  lemma ActSimulates(c: Config, s: System, m: M.Sessions, now: int, action: Action)
    requires c.Valid() && now >= 1 && Represents(s.store, M.Live(m, now), now) && Bounded(c, s.store)
    requires AttemptsSound(s, now) && NeverHeld(action, [m]) && RangeServed(c, s.store, now, action)
    ensures
      var (t, answer) := Act(c, s, now, action);
      var (n, out) := Follow(c, s, m, now, action);
      && Represents(t.store, M.Live(n, now), now) && AttemptsSound(t, now)
      && SameAnswer(M.Live(m, now), action, out, answer)
  {
    hide Represents, Bounded, M.Step, R.Step, R.FinishRename, R.BeginRename, M.RenameStep, M.Live, PendingSound, NeverHeld, RangeServed;
    match action
    case Call(request, picked) => CallSimulates(c, s.store, m, now, request, picked);
    case Begin(call, subject, id, device) => BeginSimulates(s.store, m, now, subject, id, device);
    case Finish(call) =>
      if call in s.attempts {
        FinishSimulates(s.store, m, now, s.attempts[call]);
        RenameIsStep(c, m, now, s.attempts[call]);
      }
  }

  lemma RenameIsStep(c: Config, m: M.Sessions, now: int, a: Attempt)
    ensures M.Step(c, m, now, RenameOf(a)) == M.RenameStep(m, now, a.subject, a.id, a.pending.device)
  {
  }

  lemma BeginSimulates(s: R.Store, m: M.Sessions, now: int, subject: Text, id: Digest, device: DeviceName)
    requires now >= 1 && Represents(s, M.Live(m, now), now)
    ensures
      var out := M.RenameStep(m, now, subject, id, device).1;
      if device.Unacceptable? then out == Failed(DeviceNameInvalid)
      else
        match R.BeginRename(s, now, Sha256(subject), id, device)
        case None => out == Failed(Invalid)
        case Some(p) => out == Done && AttemptSound(Attempt(subject, id, p), now)
  {
    hide Represents, R.BeginRename, M.Live;
    if !device.Unacceptable? {
      BeginReads(s, M.Live(m, now), now, Sha256(subject), id, device);
    }
  }

  // No index has grown.
  ghost predicate Shrunk(s: R.Store, t: R.Store) {
    && t.global.Keys <= s.global.Keys
    && (forall o :: R.SubjectIndex(t, o).Keys <= R.SubjectIndex(s, o).Keys)
  }

  lemma ShrunkIsBounded(c: Config, s: R.Store, t: R.Store)
    requires Bounded(c, s) && Shrunk(s, t)
    ensures Bounded(c, t)
  {
    hide R.SubjectIndex;
    SubsetSize(t.global.Keys, s.global.Keys);
    forall o ensures |R.SubjectIndex(t, o)| <= c.maxPerSubject {
      SubsetSize(R.SubjectIndex(t, o).Keys, R.SubjectIndex(s, o).Keys);
      assert |R.SubjectIndex(s, o)| <= c.maxPerSubject;
    }
  }

  lemma PruneShrinks(s: R.Store, now: int, owner: Digest)
    ensures Shrunk(s, R.DropExpiredOf(s, now, owner)) && Shrunk(s, R.DropExpired(s, now, owner))
  {
  }

  lemma CreateKeepsBound(c: Config, s: R.Store, now: int, t: Digest, r: Record)
    requires Bounded(c, s)
    ensures Bounded(c, R.Create(s, now, r.expires, c.maxSessions, c.maxPerSubject, R.Json(r), t, r.subject, Sha256(r.sessionId)).0)
  {
    hide Bounded, R.Insert, R.Taken, R.DropExpired, R.SubjectIndex;
    var p := R.DropExpired(s, now, r.subject);
    PruneShrinks(s, now, r.subject);
    ShrunkIsBounded(c, s, p);
    if |p.global| < c.maxSessions && |R.SubjectIndex(p, r.subject)| < c.maxPerSubject {
      InsertKeepsBound(c, p, t, r);
    }
  }

  lemma InsertKeepsBound(c: Config, s: R.Store, t: Digest, r: Record)
    requires Bounded(c, s) && |s.global| < c.maxSessions && |R.SubjectIndex(s, r.subject)| < c.maxPerSubject
    ensures Bounded(c, R.Insert(s, r.expires, R.Json(r), t, r.subject, Sha256(r.sessionId)))
  {
    hide R.SubjectIndex, R.Insert;
    InsertedIndexes(s, t, r);
  }

  lemma RemoveShrinks(s: R.Store, now: int, t: Digest, owner: Digest, id: Digest)
    ensures Shrunk(s, R.Delete(s, now, t).0) && Shrunk(s, R.DeleteByID(s, now, owner, id).0)
  {
  }

  lemma DeleteAllShrinks(s: R.Store, now: int, owner: Digest)
    ensures Shrunk(s, R.RevokeAllOn(s, now, owner).0)
  {
    hide R.EntryId, R.EntryIds;
  }

  lemma FinishShrinks(s: R.Store, now: int, p: R.Pending)
    ensures Shrunk(s, R.FinishRename(s, now, p).0)
  {
    hide R.Look;
  }

  lemma RenameShrinks(s: R.Store, now: int, owner: Digest, id: Digest, device: DeviceName)
    ensures Shrunk(s, R.RenameOn(s, now, owner, id, device).0)
  {
    hide R.BeginRename, R.FinishRename;
    var begun: Option<R.Pending> := R.BeginRename(s, now, owner, id, device);
    if begun.Some? {
      FinishShrinks(s, now, begun.value);
    }
  }

  // Every step keeps both indexes within the limits, so creation is never
  // refused for their size.
  lemma ActKeepsBound(c: Config, s: System, now: int, action: Action)
    requires Bounded(c, s.store)
    ensures Bounded(c, Act(c, s, now, action).0.store)
  {
    match action
    case Call(request, picked) => StepKeepsBound(c, s.store, now, request, picked);
    case Begin(call, subject, id, device) =>
    case Finish(call) =>
      hide Bounded, R.FinishRename, R.RenameOn, Shrunk;
      if call in s.attempts {
        var a := s.attempts[call];
        FinishShrinks(s.store, now, a.pending);
        ShrunkIsBounded(c, s.store, R.FinishRename(s.store, now, a.pending).0);
      }
  }

  lemma StepKeepsBound(c: Config, s: R.Store, now: int, request: Request, picked: set<R.Member>)
    requires Bounded(c, s)
    ensures Bounded(c, R.Step(c, s, now, request, picked).0)
  {
    hide Bounded, Shrunk, R.Create, R.Delete, R.DeleteByID, R.RevokeAllOn, R.RenameOn, R.FinishRename, R.Read, R.Decode;
    hide R.DropExpiredOf, R.Listable, R.ListedInfo, R.SubjectIndex;
    var n := R.Step(c, s, now, request, picked).0;
    match request
    case Start(claims, token, csrf, sessionId) =>
      CreateKeepsBound(c, s, now, token, M.NewRecord(c, now, claims, csrf, sessionId));
    case Verify(token, csrf) =>
      RemoveShrinks(s, now, token, token, token);
      ShrunkIsBounded(c, s, R.Delete(s, now, token).0);
    case List(subject) =>
      PruneShrinks(s, now, Sha256(subject));
      ShrunkIsBounded(c, s, R.DropExpiredOf(s, now, Sha256(subject)));
    case Revoke(subject, id) =>
      RemoveShrinks(s, now, id, Sha256(subject), id);
      ShrunkIsBounded(c, s, n);
    case RevokeAll(subject) =>
      DeleteAllShrinks(s, now, Sha256(subject));
      ShrunkIsBounded(c, s, n);
    case Rename(subject, id, device) =>
      RenameShrinks(s, now, Sha256(subject), id, device);
      ShrunkIsBounded(c, s, n);
    case End(token) =>
      RemoveShrinks(s, now, token, token, token);
      ShrunkIsBounded(c, s, n);
  }

  // What a run says of its event i.
  lemma RunAt(c: Config, run: seq<Event>, ss: seq<System>, ms: seq<M.Sessions>, i: nat)
    requires Run(c, run, ss, ms) && i < |run|
    ensures |ss| == |ms| == |run| + 1 && c.Valid() && run[i].now >= 1
    ensures i > 0 ==> run[i - 1].now <= run[i].now
    ensures i == 0 ==> ss[i] == Initial && ms[i] == map[]
    ensures Stepped(c, run[i], ss[i], ms[i], ss[i + 1], ms[i + 1])
    ensures forall h :: 0 <= h <= i ==> NeverHeld(run[i].action, [ms[h]])
  {
    hide Stepped, NeverHeld;
    assert NeverHeld(run[i].action, ms[..i + 1]);
    forall h | 0 <= h <= i ensures NeverHeld(run[i].action, [ms[h]]) {
      assert ms[..i + 1][h] == ms[h];
      OneUnheld(run[i].action, ms[..i + 1], h);
    }
  }

  lemma OneUnheld(action: Action, ms: seq<M.Sessions>, i: nat)
    requires NeverHeld(action, ms) && i < |ms|
    ensures NeverHeld(action, [ms[i]])
  {
  }

  lemma {:induction false} EveryStoreBounded(c: Config, run: seq<Event>, ss: seq<System>, ms: seq<M.Sessions>, i: nat)
    requires Run(c, run, ss, ms) && i < |run|
    ensures |ss| == |run| + 1 && Bounded(c, ss[i].store)
  {
    hide Run, Act, Follow, RangeServed;
    RunAt(c, run, ss, ms, i);
    if i > 0 {
      EveryStoreBounded(c, run, ss, ms, i - 1);
      RunAt(c, run, ss, ms, i - 1);
      hide Bounded;
      ActKeepsBound(c, ss[i - 1], run[i - 1].now, run[i - 1].action);
    }
  }

  ghost predicate InStep(s: System, m: M.Sessions, now: int) {
    Represents(s.store, M.Live(m, now), now) && AttemptsSound(s, now)
  }

  // Every run with renames caught half-way acts like a run of the manager: the
  // five-object invariant holds before and after every step, and every answer
  // is the manager's.
  lemma {:induction false} RunSimulates(c: Config, run: seq<Event>, ss: seq<System>, ms: seq<M.Sessions>, i: nat)
    requires Run(c, run, ss, ms) && i < |run|
    ensures |ss| == |ms| == |run| + 1
    ensures InStep(ss[i], ms[i], run[i].now)
    ensures InStep(ss[i + 1], ms[i + 1], run[i].now)
    ensures SameAnswer(M.Live(ms[i], run[i].now), run[i].action, Follow(c, ss[i], ms[i], run[i].now, run[i].action).1,
                       Act(c, ss[i], run[i].now, run[i].action).1)
  {
    hide Run, InStep, Act, Follow, SameAnswer, M.Live, NeverHeld, RangeServed, Bounded;
    var now := run[i].now;
    RunAt(c, run, ss, ms, i);
    if i == 0 {
      InitiallyInStep(now);
    } else {
      RunSimulates(c, run, ss, ms, i - 1);
      StaysInStep(ss[i], ms[i], run[i - 1].now, now);
    }
    EveryStoreBounded(c, run, ss, ms, i);
    ActStaysInStep(c, ss[i], ms[i], now, run[i].action);
  }

  lemma InitiallyInStep(now: int)
    ensures InStep(Initial, map[], now)
  {
    assert M.Live(map[], now) == map[];
  }

  lemma StaysInStep(s: System, m: M.Sessions, now: int, later: int)
    requires InStep(s, m, now) && now <= later
    ensures InStep(s, m, later)
  {
    hide Represents, AttemptsSound, M.Live;
    TimePasses(s.store, m, now, later);
    LaterIsSound(s, now, later);
  }

  lemma ActStaysInStep(c: Config, s: System, m: M.Sessions, now: int, action: Action)
    requires c.Valid() && now >= 1 && InStep(s, m, now) && Bounded(c, s.store)
    requires NeverHeld(action, [m]) && RangeServed(c, s.store, now, action)
    ensures InStep(Act(c, s, now, action).0, Follow(c, s, m, now, action).0, now)
    ensures SameAnswer(M.Live(m, now), action, Follow(c, s, m, now, action).1, Act(c, s, now, action).1)
  {
    hide Represents, AttemptsSound, M.Live, Act, Follow, SameAnswer, NeverHeld, RangeServed, Bounded;
    ActSimulates(c, s, m, now, action);
  }

  lemma LaterIsSound(s: System, now: int, later: int)
    requires AttemptsSound(s, now) && now <= later
    ensures AttemptsSound(s, later)
  {
    hide PendingSound;
  }

  // A rename that answers success took effect at its swap: it changed the device
  // name of one session that was live at that instant, and nothing else. One
  // that fails changed nothing.
  lemma RenameIsAtomic(c: Config, run: seq<Event>, ss: seq<System>, ms: seq<M.Sessions>, i: nat)
    requires Run(c, run, ss, ms) && i < |run| && run[i].action.Finish?
    ensures |ss| == |ms| == |run| + 1
    ensures
      var now := run[i].now;
      var live, next := M.Live(ms[i], now), M.Live(ms[i + 1], now);
      if Act(c, ss[i], now, run[i].action).1 == Some(Done) then
        run[i].action.finished in ss[i].attempts &&
        var a := ss[i].attempts[run[i].action.finished];
        && a.pending.snap.token in live && next == live[a.pending.snap.token := live[a.pending.snap.token].(device := a.pending.device)]
        && live[a.pending.snap.token].subject == Sha256(a.subject)
      else ss[i + 1].store == ss[i].store && next == live
  {
    hide Run, Represents, AttemptsSound, Act, Follow, SameAnswer, M.Live, NeverHeld, RangeServed;
    RunAt(c, run, ss, ms, i);
    RunSimulates(c, run, ss, ms, i);
    FinishIsAtomic(c, ss[i], ms[i], run[i].now, run[i].action);
  }

  lemma FinishIsAtomic(c: Config, s: System, m: M.Sessions, now: int, action: Action)
    requires now >= 1 && Represents(s.store, M.Live(m, now), now) && AttemptsSound(s, now) && action.Finish?
    ensures
      var live, next := M.Live(m, now), M.Live(Follow(c, s, m, now, action).0, now);
      if Act(c, s, now, action).1 == Some(Done) then
        action.finished in s.attempts &&
        var a := s.attempts[action.finished];
        && a.pending.snap.token in live && next == live[a.pending.snap.token := live[a.pending.snap.token].(device := a.pending.device)]
        && live[a.pending.snap.token].subject == Sha256(a.subject)
      else Act(c, s, now, action).0.store == s.store && next == live
  {
    hide Represents, R.FinishRename, M.RenameStep, M.Live, PendingSound, M.Step;
    if action.finished in s.attempts {
      var a := s.attempts[action.finished];
      FinishSimulates(s.store, m, now, a);
      RenameIsStep(c, m, now, a);
    }
  }

  // The manager never brings a session back, nor moves its expiry.
  lemma StepAddsNothing(c: Config, m: M.Sessions, now: int, request: Request, t: Digest)
    requires request.Start? ==> t != request.token
    ensures t in M.Step(c, m, now, request).0 ==> t in m && M.Step(c, m, now, request).0[t].expires == m[t].expires
  {
  }

  lemma {:induction false} StaysDead(c: Config, run: seq<Event>, ss: seq<System>, ms: seq<M.Sessions>, h: nat, i: nat, j: nat, t: Digest)
    requires Run(c, run, ss, ms) && h <= i <= j < |run|
    requires |ms| == |run| + 1 && t in ms[h] && t !in M.Live(ms[i], run[i].now)
    ensures t !in M.Live(ms[j], run[j].now)
  {
    hide Run, Act, Follow, RangeServed, NeverHeld;
    if i < j {
      StaysDead(c, run, ss, ms, h, i, j - 1, t);
      RunAt(c, run, ss, ms, j);
      RunAt(c, run, ss, ms, j - 1);
      NotDrawnAgain(run[j - 1].action, ms[h], t);
      FollowAddsNothing(c, ss[j - 1], ms[j - 1], run[j - 1].now, run[j - 1].action, t);
    }
  }

  lemma NotDrawnAgain(action: Action, m: M.Sessions, t: Digest)
    requires NeverHeld(action, [m]) && t in m
    ensures action.Call? && action.request.Start? ==> t != action.request.token
  {
    assert action.Call? && action.request.Start? ==> Unheld([m][0], action.request.token, action.request.sessionId);
  }

  lemma FollowAddsNothing(c: Config, s: System, m: M.Sessions, now: int, action: Action, t: Digest)
    requires action.Call? && action.request.Start? ==> t != action.request.token
    ensures
      var n := Follow(c, s, m, now, action).0;
      t in n ==> t in m && n[t].expires == m[t].expires
  {
    hide M.Step, R.Step, R.FinishRename, R.BeginRename;
    if action.Call? {
      StepAddsNothing(c, m, now, action.request, t);
    } else if action.Finish? && action.finished in s.attempts {
      StepAddsNothing(c, m, now, RenameOf(s.attempts[action.finished]), t);
    }
  }

  // A session that was revoked, ended or expired never reappears: whatever
  // renames are caught half-way, Redis holds no payload of it and verifies it
  // no more.
  lemma RevokedNeverReappears(c: Config, run: seq<Event>, ss: seq<System>, ms: seq<M.Sessions>, h: nat, i: nat, j: nat,
                              t: Digest, csrf: Option<Digest>)
    requires Run(c, run, ss, ms) && h <= i <= j < |run|
    requires |ss| == |ms| == |run| + 1 && t in ms[h] && t !in M.Live(ms[i], run[i].now)
    ensures Get(ss[j].store.payload, t, run[j].now) == None
    ensures R.VerifyOn(ss[j].store, run[j].now, t, csrf) == (ss[j].store, Failed(Invalid))
  {
    hide Run, Represents, AttemptsSound, M.Live, Act, Follow, SameAnswer, R.VerifyOn, M.VerifyStep;
    StaysDead(c, run, ss, ms, h, i, j, t);
    RunSimulates(c, run, ss, ms, j);
    DeadIsAbsent(ss[j].store, M.Live(ms[j], run[j].now), run[j].now, t);
    VerifySimulates(ss[j].store, ms[j], run[j].now, t, csrf);
  }
}
