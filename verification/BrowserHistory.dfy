// What browser sessions promise of every run, told from the calls alone: which
// sessions live, who is verified and when a session can start.

module BrowserHistory {
  import opened Common
  import opened Hashing
  import opened RedisKeys
  import opened BrowserTypes
  import M = BrowserMemory

  // A step of the manager: a call, or nothing.
  datatype Call = Call(now: int, request: Option<Request>)

  function After(c: Config, m: M.Sessions, call: Call): M.Sessions {
    if call.request.Some? then M.Step(c, m, call.now, call.request.value).0 else m
  }

  // The random source never draws what is or was held.
  ghost predicate Unheld(call: Call, m: M.Sessions) {
    call.request.Some? && call.request.value.Start? ==>
      && call.request.value.token !in m
      && forall t :: t in m ==> m[t].sessionId != call.request.value.sessionId
  }

  ghost predicate Trace(c: Config, calls: seq<Call>, ms: seq<M.Sessions>) {
    && c.Valid() && |ms| == |calls| + 1 && ms[0] == map[]
    && (forall i :: 0 <= i < |calls| ==> ms[i + 1] == After(c, ms[i], calls[i]))
    && (forall i, j :: 0 <= j <= i < |calls| ==> Unheld(calls[i], ms[j]))
    && (forall i, j :: 0 <= i <= j < |calls| ==> calls[i].now <= calls[j].now)
  }

  // Which calls were answered with a new session.
  function Answers(c: Config, calls: seq<Call>, ms: seq<M.Sessions>): (started: seq<bool>)
    requires |ms| == |calls| + 1
    ensures |started| == |calls|
  {
    seq(|calls|, i requires 0 <= i < |calls| =>
      calls[i].request.Some? && M.Step(c, ms[i], calls[i].now, calls[i].request.value).1.Started?)
  }

  // The arguments of a Start.
  datatype Origin = Origin(claims: Claims, csrf: Digest, sessionId: Text)

  predicate StartedAt(calls: seq<Call>, started: seq<bool>, h: nat, t: Digest, o: Origin)
    requires h < |calls| == |started|
  {
    calls[h].request == Some(Start(o.claims, t, o.csrf, o.sessionId)) && started[h]
  }

  // The calls that end a session of that origin.
  predicate Removes(request: Request, t: Digest, o: Origin) {
    match request
    case End(token) => token == t
    case Revoke(subject, id) => subject == o.claims.subject && id == Sha256(o.sessionId)
    case RevokeAll(subject) => subject == o.claims.subject
    case _ => false
  }

  function Expiry(c: Config, start: int, o: Origin): int {
    if start + c.ttl < o.claims.expires then start + c.ttl else o.claims.expires
  }

  // At that time, before call i, the session lives: call h started it, no call
  // since has ended it, and its time is not over.
  ghost predicate LivesFrom(c: Config, calls: seq<Call>, started: seq<bool>, i: nat, now: int, h: nat, t: Digest, o: Origin)
    requires i <= |calls| == |started|
  {
    && h < i && StartedAt(calls, started, h, t, o)
    && (forall k :: h < k < i && calls[k].request.Some? ==> !Removes(calls[k].request.value, t, o))
    && now < Expiry(c, calls[h].now, o)
  }

  // The record of a session of that origin; only its device name is free.
  predicate RecordFrom(c: Config, start: int, r: Record, o: Origin) {
    && r == Record(o.sessionId, Sha256(o.claims.subject), o.claims, o.csrf, r.device, start, Expiry(c, start, o))
    && !r.device.Unacceptable?
    && o.claims.details.Complete? && o.claims.issued <= start + CLOCK_LEEWAY && o.claims.issued < o.claims.expires
  }

  lemma StepKeepsRecord(c: Config, m: M.Sessions, now: int, request: Request, t: Digest, start: int, o: Origin)
    requires t in m && RecordFrom(c, start, m[t], o) && now < m[t].expires
    requires !Removes(request, t, o) && (request.Start? ==> request.token != t)
    ensures t in M.Step(c, m, now, request).0 && RecordFrom(c, start, M.Step(c, m, now, request).0[t], o)
  {
  }

  lemma StartMakesRecord(c: Config, m: M.Sessions, now: int, t: Digest, o: Origin)
    requires M.Step(c, m, now, Start(o.claims, t, o.csrf, o.sessionId)).1.Started?
    ensures
      var n := M.Step(c, m, now, Start(o.claims, t, o.csrf, o.sessionId)).0;
      t in n && RecordFrom(c, now, n[t], o)
  {
  }

  // What is live after a call was live before and not removed, or has just been
  // started.
  lemma StepOrigin(c: Config, m: M.Sessions, now: int, request: Request, t: Digest)
    requires t in M.Step(c, m, now, request).0 && now < M.Step(c, m, now, request).0[t].expires
    ensures
      var n := M.Step(c, m, now, request).0;
      || (t in m && n[t] == m[t].(device := n[t].device))
      || (request.Start? && request.token == t && M.Step(c, m, now, request).1.Started?)
  {
  }

  lemma StepRemoves(c: Config, m: M.Sessions, now: int, request: Request, t: Digest, start: int, o: Origin)
    requires t in m && RecordFrom(c, start, m[t], o) && Removes(request, t, o)
    ensures t !in M.Step(c, m, now, request).0
  {
  }

  lemma {:induction false} StartedLives(c: Config, calls: seq<Call>, ms: seq<M.Sessions>, i: nat, now: int, h: nat, t: Digest, o: Origin)
    requires Trace(c, calls, ms) && i <= |calls| && LivesFrom(c, calls, Answers(c, calls, ms), i, now, h, t, o)
    requires forall k :: 0 <= k < i ==> calls[k].now <= now
    ensures t in ms[i] && RecordFrom(c, calls[h].now, ms[i][t], o)
  {
    hide M.Step, RecordFrom, Removes;
    if i == h + 1 {
      StartMakesRecord(c, ms[h], calls[h].now, t, o);
    } else {
      StartedLives(c, calls, ms, i - 1, now, h, t, o);
      assert RecordFrom(c, calls[h].now, ms[i - 1][t], o) ==> ms[i - 1][t].expires == Expiry(c, calls[h].now, o) by {
        RecordExpires(c, calls[h].now, ms[i - 1][t], o);
      }
      if calls[i - 1].request.Some? {
        assert Unheld(calls[i - 1], ms[i - 1]);
        StepKeepsRecord(c, ms[i - 1], calls[i - 1].now, calls[i - 1].request.value, t, calls[h].now, o);
      }
    }
  }

  lemma RecordExpires(c: Config, start: int, r: Record, o: Origin)
    ensures RecordFrom(c, start, r, o) ==> r.expires == Expiry(c, start, o)
  {
  }

  lemma {:induction false} LivingWasStarted(c: Config, calls: seq<Call>, ms: seq<M.Sessions>, i: nat, now: int, t: Digest)
      returns (h: nat, o: Origin)
    requires Trace(c, calls, ms) && i <= |calls| && t in ms[i] && now < ms[i][t].expires
    requires forall k :: 0 <= k < i ==> calls[k].now <= now
    ensures LivesFrom(c, calls, Answers(c, calls, ms), i, now, h, t, o)
    ensures RecordFrom(c, calls[h].now, ms[i][t], o)
  {
    hide M.Step, RecordFrom, Removes;
    var call, m := calls[i - 1], ms[i - 1];
    if call.request.None? {
      h, o := LivingWasStarted(c, calls, ms, i - 1, now, t);
    } else {
      var request := call.request.value;
      StepOrigin(c, m, call.now, request, t);
      if request.Start? && request.token == t && M.Step(c, m, call.now, request).1.Started? {
        h, o := i - 1, Origin(request.claims, request.csrf, request.sessionId);
        StartMakesRecord(c, m, call.now, t, o);
        RecordExpires(c, call.now, ms[i][t], o);
      } else {
        h, o := LivingWasStarted(c, calls, ms, i - 1, now, t);
        if Removes(request, t, o) {
          StepRemoves(c, m, call.now, request, t, calls[h].now, o);
        }
        SameButDevice(c, calls[h].now, m, call.now, request, t, o);
      }
    }
  }

  lemma SameButDevice(c: Config, start: int, m: M.Sessions, now: int, request: Request, t: Digest, o: Origin)
    requires t in m && RecordFrom(c, start, m[t], o) && t in M.Step(c, m, now, request).0
    requires M.Step(c, m, now, request).0[t] == m[t].(device := M.Step(c, m, now, request).0[t].device)
    ensures RecordFrom(c, start, M.Step(c, m, now, request).0[t], o)
  {
  }

  // Some accepted call started the session, with that CSRF secret if it matters.
  ghost predicate StartedWith(c: Config, calls: seq<Call>, started: seq<bool>, i: nat, now: int, t: Digest,
                              claims: Claims, csrf: Option<Digest>)
    requires i <= |calls| == |started|
  {
    exists h: nat, o :: LivesFrom(c, calls, started, i, now, h, t, o) && o.claims == claims && (csrf.Some? ==> csrf.value == o.csrf)
  }

  lemma RecordVerifies(c: Config, start: int, now: int, r: Record, o: Origin, csrf: Option<Digest>)
    requires RecordFrom(c, start, r, o) && start <= now < r.expires
    ensures
      M.Checked(r, now, csrf) == if csrf.Some? && csrf.value != o.csrf then Failed(Invalid) else Verified(o.claims)
  {
  }

  lemma VerifyReads(m: M.Sessions, now: int, t: Digest, csrf: Option<Digest>)
    ensures
      M.VerifyStep(m, now, t, csrf).1 ==
        if t in m && now < m[t].expires then M.Checked(m[t], now, csrf)
        else Failed(if t in m then Expired else Invalid)
  {
  }

  // In every run Verify answers with claims if and only if an accepted Start made
  // the session with these claims and that CSRF secret, none has ended it since,
  // and its time is not over: the configured lifetime, cut by that of the claims.
  lemma VerifiedExactly(c: Config, calls: seq<Call>, ms: seq<M.Sessions>, i: nat, t: Digest, csrf: Option<Digest>, claims: Claims)
    requires Trace(c, calls, ms) && i < |calls| && calls[i].request == Some(Verify(t, csrf))
    ensures M.Step(c, ms[i], calls[i].now, Verify(t, csrf)).1 == Verified(claims) <==>
              StartedWith(c, calls, Answers(c, calls, ms), i, calls[i].now, t, claims, csrf)
  {
    hide M.VerifyStep, M.Checked, RecordFrom, LivesFrom, Unheld, After;
    var now := calls[i].now;
    VerifyReads(ms[i], now, t, csrf);
    if t in ms[i] && now < ms[i][t].expires {
      var h, o := LivingWasStarted(c, calls, ms, i, now, t);
      OriginStarted(c, calls, ms, i, now, h, t, o);
      RecordVerifies(c, calls[h].now, now, ms[i][t], o, csrf);
      forall k: nat, other | LivesFrom(c, calls, Answers(c, calls, ms), i, now, k, t, other) ensures other == o {
        OriginStarted(c, calls, ms, i, now, k, t, other);
        StartedLives(c, calls, ms, i, now, k, t, other);
        SameRecordSameOrigin(c, calls[h].now, calls[k].now, ms[i][t], o, other);
      }
    } else {
      forall k: nat, other ensures !LivesFrom(c, calls, Answers(c, calls, ms), i, now, k, t, other) {
        if LivesFrom(c, calls, Answers(c, calls, ms), i, now, k, t, other) {
          OriginStarted(c, calls, ms, i, now, k, t, other);
          StartedLives(c, calls, ms, i, now, k, t, other);
          RecordExpires(c, calls[k].now, ms[i][t], other);
        }
      }
    }
  }

  lemma OriginStarted(c: Config, calls: seq<Call>, ms: seq<M.Sessions>, i: nat, now: int, h: nat, t: Digest, o: Origin)
    requires Trace(c, calls, ms) && i < |calls| && LivesFrom(c, calls, Answers(c, calls, ms), i, now, h, t, o)
    ensures h < i && calls[h].now <= calls[i].now && now < Expiry(c, calls[h].now, o)
  {
  }

  lemma SameRecordSameOrigin(c: Config, start: int, other: int, r: Record, o: Origin, p: Origin)
    requires RecordFrom(c, start, r, o) && RecordFrom(c, other, r, p)
    ensures o == p
  {
  }

  // The tokens whose sessions live, and those of one subject.
  ghost predicate Live(c: Config, calls: seq<Call>, started: seq<bool>, i: nat, now: int, t: Digest)
    requires i <= |calls| == |started|
  {
    exists h: nat, o :: LivesFrom(c, calls, started, i, now, h, t, o)
  }

  ghost predicate LiveOf(c: Config, calls: seq<Call>, started: seq<bool>, i: nat, now: int, t: Digest, subject: Text)
    requires i <= |calls| == |started|
  {
    exists h: nat, o :: LivesFrom(c, calls, started, i, now, h, t, o) && o.claims.subject == subject
  }

  lemma LiveAreHeld(c: Config, calls: seq<Call>, ms: seq<M.Sessions>, i: nat, now: int, subject: Text)
    requires Trace(c, calls, ms) && i <= |calls| && forall k :: 0 <= k < i ==> calls[k].now <= now
    ensures forall t :: t in M.Live(ms[i], now) <==> Live(c, calls, Answers(c, calls, ms), i, now, t)
    ensures forall t :: t in M.OfSubject(M.Live(ms[i], now), Sha256(subject)) <==>
                        LiveOf(c, calls, Answers(c, calls, ms), i, now, t, subject)
  {
    hide M.Step, LivesFrom, RecordFrom, Unheld, After;
    var started := Answers(c, calls, ms);
    forall t ensures t in M.Live(ms[i], now) ==> Live(c, calls, started, i, now, t)
      ensures t in M.OfSubject(M.Live(ms[i], now), Sha256(subject)) ==> LiveOf(c, calls, started, i, now, t, subject)
    {
      if t in M.Live(ms[i], now) {
        var h, o := LivingWasStarted(c, calls, ms, i, now, t);
        NotOver(c, calls, started, i, now, h, t, o);
        RecordSubject(c, calls[h].now, ms[i][t], o);
      }
    }
    forall t, h: nat, o | LivesFrom(c, calls, started, i, now, h, t, o)
      ensures t in M.Live(ms[i], now) && ms[i][t].subject == Sha256(o.claims.subject)
    {
      NotOver(c, calls, started, i, now, h, t, o);
      StartedLives(c, calls, ms, i, now, h, t, o);
      RecordSubject(c, calls[h].now, ms[i][t], o);
    }
  }

  lemma RecordSubject(c: Config, start: int, r: Record, o: Origin)
    requires RecordFrom(c, start, r, o)
    ensures r.subject == Sha256(o.claims.subject) && r.expires == Expiry(c, start, o)
  {
  }

  lemma NotOver(c: Config, calls: seq<Call>, started: seq<bool>, i: nat, now: int, h: nat, t: Digest, o: Origin)
    requires i <= |calls| == |started| && LivesFrom(c, calls, started, i, now, h, t, o)
    ensures h < i && now < Expiry(c, calls[h].now, o)
  {
  }

  // In every run Start makes a session if and only if the claims are complete,
  // in their lifetime and not issued more than five seconds ahead, and fewer
  // sessions live than are allowed in all and for the subject.
  lemma StartedExactly(c: Config, calls: seq<Call>, ms: seq<M.Sessions>, i: nat, t: Digest, o: Origin,
                       all: set<Digest>, mine: set<Digest>)
    requires Trace(c, calls, ms) && i < |calls| && calls[i].request == Some(Start(o.claims, t, o.csrf, o.sessionId))
    requires forall u :: u in all <==> Live(c, calls, Answers(c, calls, ms), i, calls[i].now, u)
    requires forall u :: u in mine <==> LiveOf(c, calls, Answers(c, calls, ms), i, calls[i].now, u, o.claims.subject)
    ensures
      var now, out := calls[i].now, M.Step(c, ms[i], calls[i].now, calls[i].request.value).1;
      && (out.Started? <==>
            && o.claims.details.Complete? && o.claims.issued < o.claims.expires
            && now < o.claims.expires && o.claims.issued <= now + 5000
            && |all| < c.maxSessions && |mine| < c.maxPerSubject)
      && (out.Started? ==> out == Started(Expiry(c, now, o)))
  {
    LiveAreHeld(c, calls, ms, i, calls[i].now, o.claims.subject);
    hide Live, LiveOf, Answers, After;
    var live := M.Live(ms[i], calls[i].now);
    assert all == live.Keys && |live| == |live.Keys|;
    assert mine == M.OfSubject(live, Sha256(o.claims.subject));
    assert Unheld(calls[i], ms[i]);
    hide M.Live, M.OfSubject;
  }

  // The device name is that of the last rename of the session, if there was one.
  function DeviceName(calls: seq<Call>, h: nat, i: nat, o: Origin): BrowserTypes.DeviceName
    requires h < i <= |calls|
    decreases i
  {
    if i == h + 1 then Unnamed
    else
      match calls[i - 1].request
      case Some(Rename(subject, id, device)) =>
        if subject == o.claims.subject && id == Sha256(o.sessionId) && !device.Unacceptable? then device
        else DeviceName(calls, h, i - 1, o)
      case _ => DeviceName(calls, h, i - 1, o)
  }

  lemma StepNames(c: Config, m: M.Sessions, now: int, request: Request, t: Digest, start: int, o: Origin)
    requires t in m && RecordFrom(c, start, m[t], o) && now < m[t].expires && t in M.Step(c, m, now, request).0
    requires request.Start? ==> request.token != t
    ensures
      var renamed := request.Rename? && request.user == o.claims.subject && request.named == Sha256(o.sessionId)
                     && !request.device.Unacceptable?;
      M.Step(c, m, now, request).0[t].device == if renamed then request.device else m[t].device
  {
  }

  lemma {:induction false} NamedByLastRename(c: Config, calls: seq<Call>, ms: seq<M.Sessions>, i: nat, now: int,
                                             h: nat, t: Digest, o: Origin)
    requires Trace(c, calls, ms) && i <= |calls| && LivesFrom(c, calls, Answers(c, calls, ms), i, now, h, t, o)
    requires forall k :: 0 <= k < i ==> calls[k].now <= now
    ensures t in ms[i] && ms[i][t].device == DeviceName(calls, h, i, o)
  {
    hide M.Step, RecordFrom, Removes;
    StartedLives(c, calls, ms, i, now, h, t, o);
    if i == h + 1 {
      StartIsUnnamed(c, ms[h], calls[h].now, t, o);
    } else {
      NamedByLastRename(c, calls, ms, i - 1, now, h, t, o);
      StartedLives(c, calls, ms, i - 1, now, h, t, o);
      RecordExpires(c, calls[h].now, ms[i - 1][t], o);
      if calls[i - 1].request.Some? {
        assert Unheld(calls[i - 1], ms[i - 1]);
        StepNames(c, ms[i - 1], calls[i - 1].now, calls[i - 1].request.value, t, calls[h].now, o);
      }
    }
  }

  lemma StartIsUnnamed(c: Config, m: M.Sessions, now: int, t: Digest, o: Origin)
    requires M.Step(c, m, now, Start(o.claims, t, o.csrf, o.sessionId)).1.Started?
    ensures
      var n := M.Step(c, m, now, Start(o.claims, t, o.csrf, o.sessionId)).0;
      t in n && n[t].device == Unnamed
  {
  }

  // An item of a listing, told from the calls.
  ghost predicate Listable(c: Config, calls: seq<Call>, started: seq<bool>, i: nat, now: int, subject: Text, item: Info)
    requires i <= |calls| == |started|
  {
    exists h: nat, t, o ::
      && h < i && LivesFrom(c, calls, started, i, now, h, t, o) && o.claims.subject == subject
      && item == Info(o.sessionId, calls[h].now, Expiry(c, calls[h].now, o), DeviceName(calls, h, i, o))
  }

  // In every run a listing holds exactly the living sessions of the subject, with
  // the times of their starts and the names of their last renames.
  lemma ListedExactly(c: Config, calls: seq<Call>, ms: seq<M.Sessions>, i: nat, subject: Text)
    requires Trace(c, calls, ms) && i < |calls| && calls[i].request == Some(List(subject))
    ensures
      var out := M.Step(c, ms[i], calls[i].now, List(subject)).1;
      out.Listed? && forall item :: item in out.items <==>
        Listable(c, calls, Answers(c, calls, ms), i, calls[i].now, subject, item)
  {
    hide LivesFrom, Unheld, After, DeviceName, RecordFrom;
    var now := calls[i].now;
    var started := Answers(c, calls, ms);
    var live := M.Live(ms[i], now);
    LiveAreHeld(c, calls, ms, i, now, subject);
    forall t | t in M.OfSubject(live, Sha256(subject))
      ensures Listable(c, calls, started, i, now, subject, live[t].Public())
    {
      var h: nat, o :| LivesFrom(c, calls, started, i, now, h, t, o) && o.claims.subject == subject;
      LivingIsInfo(c, calls, ms, i, now, h, t, o);
    }
    forall item | Listable(c, calls, started, i, now, subject, item)
      ensures item in M.Infos(live, M.OfSubject(live, Sha256(subject)))
    {
      var h: nat, t, o :|
        && h < i && LivesFrom(c, calls, started, i, now, h, t, o) && o.claims.subject == subject
        && item == Info(o.sessionId, calls[h].now, Expiry(c, calls[h].now, o), DeviceName(calls, h, i, o));
      LivingIsInfo(c, calls, ms, i, now, h, t, o);
      assert LiveOf(c, calls, started, i, now, t, subject);
    }
  }

  lemma LivingIsInfo(c: Config, calls: seq<Call>, ms: seq<M.Sessions>, i: nat, now: int, h: nat, t: Digest, o: Origin)
    requires Trace(c, calls, ms) && i <= |calls| && LivesFrom(c, calls, Answers(c, calls, ms), i, now, h, t, o)
    requires forall k :: 0 <= k < i ==> calls[k].now <= now
    ensures h < i && t in M.Live(ms[i], now)
    ensures ms[i][t].Public() == Info(o.sessionId, calls[h].now, Expiry(c, calls[h].now, o), DeviceName(calls, h, i, o))
  {
    hide M.Step, Removes, DeviceName;
    StartedLives(c, calls, ms, i, now, h, t, o);
    NamedByLastRename(c, calls, ms, i, now, h, t, o);
  }

  // A living session of the subject has this public identifier.
  ghost predicate LiveNamed(c: Config, calls: seq<Call>, started: seq<bool>, i: nat, now: int, subject: Text, id: Digest)
    requires i <= |calls| == |started|
  {
    exists h: nat, t, o ::
      LivesFrom(c, calls, started, i, now, h, t, o) && o.claims.subject == subject && Sha256(o.sessionId) == id
  }

  lemma RecordNames(c: Config, start: int, r: Record, o: Origin)
    requires RecordFrom(c, start, r, o)
    ensures r.subject == Sha256(o.claims.subject) && r.expires == Expiry(c, start, o) && r.sessionId == o.sessionId
  {
  }

  lemma MatchingIsNamed(c: Config, calls: seq<Call>, ms: seq<M.Sessions>, i: nat, now: int, subject: Text, id: Digest)
    requires Trace(c, calls, ms) && i <= |calls| && forall k :: 0 <= k < i ==> calls[k].now <= now
    ensures M.Matching(M.Live(ms[i], now), Sha256(subject), id) != {} <==>
              LiveNamed(c, calls, Answers(c, calls, ms), i, now, subject, id)
  {
    hide M.Step, LivesFrom, RecordFrom, Unheld, After;
    var started := Answers(c, calls, ms);
    var found := M.Matching(M.Live(ms[i], now), Sha256(subject), id);
    if found != {} {
      var t :| t in found;
      var h, o := LivingWasStarted(c, calls, ms, i, now, t);
      NotOver(c, calls, started, i, now, h, t, o);
      RecordNames(c, calls[h].now, ms[i][t], o);
    }
    forall h: nat, t, o | LivesFrom(c, calls, started, i, now, h, t, o) && o.claims.subject == subject && Sha256(o.sessionId) == id
      ensures t in found
    {
      NotOver(c, calls, started, i, now, h, t, o);
      StartedLives(c, calls, ms, i, now, h, t, o);
      RecordNames(c, calls[h].now, ms[i][t], o);
    }
  }

  // In every run a session is revoked or renamed by its public identifier exactly
  // when it lives and belongs to the subject.
  lemma NamedExactly(c: Config, calls: seq<Call>, ms: seq<M.Sessions>, i: nat, subject: Text, id: Digest, device: DeviceName)
    requires Trace(c, calls, ms) && i < |calls|
    requires calls[i].request == Some(Revoke(subject, id)) || calls[i].request == Some(Rename(subject, id, device))
    ensures
      var found := LiveNamed(c, calls, Answers(c, calls, ms), i, calls[i].now, subject, id);
      M.Step(c, ms[i], calls[i].now, calls[i].request.value).1
        == if calls[i].request.value.Rename? && device.Unacceptable? then Failed(DeviceNameInvalid)
           else if found then Done else Failed(Invalid)
  {
    MatchingIsNamed(c, calls, ms, i, calls[i].now, subject, id);
    hide M.Matching, M.Live, LiveNamed, Answers, After, Unheld;
  }

  // Revoking all counts the living sessions of the subject, and ending a living
  // session succeeds.
  lemma EndedExactly(c: Config, calls: seq<Call>, ms: seq<M.Sessions>, i: nat, subject: Text, mine: set<Digest>)
    requires Trace(c, calls, ms) && i < |calls| && calls[i].request.Some?
    requires forall u :: u in mine <==> LiveOf(c, calls, Answers(c, calls, ms), i, calls[i].now, u, subject)
    ensures
      var answer := M.Step(c, ms[i], calls[i].now, calls[i].request.value).1;
      match calls[i].request.value
      case RevokeAll(leaver) => leaver == subject ==> answer == Count(|mine|)
      case End(token) => token in mine ==> answer == Done
      case _ => true
  {
    LiveAreHeld(c, calls, ms, i, calls[i].now, subject);
    hide Live, LiveOf, Answers, After, Unheld;
    var live := M.Live(ms[i], calls[i].now);
    assert mine == M.OfSubject(live, Sha256(subject));
  }
}

// The same for every run on Redis, with renames caught half-way.

module BrowserRedisHistory {
  import opened Common
  import opened Hashing
  import opened RedisKeys
  import opened BrowserTypes
  import opened BrowserHistory
  import M = BrowserMemory
  import Runs = BrowserRuns

  // What the manager that follows a run is asked: a rename where it swaps.
  function CallOf(c: Config, e: Runs.Event, s: Runs.System): Call {
    Call(e.now,
         match e.action
         case Call(request, _) => Some(request)
         case Begin(_, _, _, _) => None
         case Finish(call) =>
           if Runs.Act(c, s, e.now, e.action).1 == Some(Done) && call in s.attempts then Some(Runs.RenameOf(s.attempts[call]))
           else None)
  }

  function CallsOf(c: Config, run: seq<Runs.Event>, ss: seq<Runs.System>): (calls: seq<Call>)
    requires |ss| == |run| + 1
    ensures |calls| == |run|
  {
    seq(|run|, i requires 0 <= i < |run| => CallOf(c, run[i], ss[i]))
  }

  // Which calls Redis answered with a new session.
  function RedisAnswers(c: Config, run: seq<Runs.Event>, ss: seq<Runs.System>): (started: seq<bool>)
    requires |ss| == |run| + 1
    ensures |started| == |run|
  {
    seq(|run|, i requires 0 <= i < |run| =>
      var answer := Runs.Act(c, ss[i], run[i].now, run[i].action).1;
      run[i].action.Call? && answer.Some? && answer.value.Started?)
  }

  lemma FollowIsAfter(c: Config, e: Runs.Event, s: Runs.System, m: M.Sessions)
    ensures Runs.Follow(c, s, m, e.now, e.action).0 == After(c, m, CallOf(c, e, s))
  {
    hide M.Step, Runs.R.Step, Runs.R.FinishRename, Runs.R.BeginRename;
  }

  lemma NeverHeldIsUnheld(c: Config, e: Runs.Event, s: Runs.System, ms: seq<M.Sessions>, j: nat)
    requires Runs.NeverHeld(e.action, ms) && j < |ms|
    ensures Unheld(CallOf(c, e, s), ms[j])
  {
    hide Runs.Act;
    assert e.action.Call? && e.action.request.Start? ==> Runs.Unheld(ms[j], e.action.request.token, e.action.request.sessionId);
  }

  lemma RunIsTrace(c: Config, run: seq<Runs.Event>, ss: seq<Runs.System>, ms: seq<M.Sessions>)
    requires Runs.Run(c, run, ss, ms)
    ensures |ss| == |run| + 1 && Trace(c, CallsOf(c, run, ss), ms)
  {
    hide Runs.Act, Runs.Follow, After, Unheld, CallOf, Runs.NeverHeld, Runs.RangeServed;
    var calls := CallsOf(c, run, ss);
    forall i | 0 <= i < |calls| ensures ms[i + 1] == After(c, ms[i], calls[i]) {
      assert Runs.Stepped(c, run[i], ss[i], ms[i], ss[i + 1], ms[i + 1]);
      FollowIsAfter(c, run[i], ss[i], ms[i]);
    }
    forall i, j | 0 <= j <= i < |calls| ensures Unheld(calls[i], ms[j]) {
      assert Runs.NeverHeld(run[i].action, ms[..i + 1]);
      NeverHeldIsUnheld(c, run[i], ss[i], ms[..i + 1], j);
    }
    forall i ensures 0 <= i < |calls| ==> calls[i].now == run[i].now {
      if 0 <= i < |calls| {
        SameTime(c, run[i], ss[i]);
      }
    }
  }

  lemma SameTime(c: Config, e: Runs.Event, s: Runs.System)
    ensures CallOf(c, e, s).now == e.now
    ensures e.action.Call? ==> CallOf(c, e, s).request == Some(e.action.request)
    ensures !e.action.Call? && CallOf(c, e, s).request.Some? ==> CallOf(c, e, s).request.value.Rename?
  {
    hide Runs.Act;
  }

  lemma RenameStartsNothing(c: Config, m: M.Sessions, now: int, request: Request)
    ensures M.Step(c, m, now, request).1.Started? ==> request.Start?
  {
  }

  // Redis starts a session exactly when the manager does.
  lemma SameStarts(c: Config, run: seq<Runs.Event>, ss: seq<Runs.System>, ms: seq<M.Sessions>)
    requires Runs.Run(c, run, ss, ms)
    ensures |ss| == |ms| == |run| + 1
    ensures Answers(c, CallsOf(c, run, ss), ms) == RedisAnswers(c, run, ss)
  {
    hide Runs.Act, Runs.Follow, M.Step, CallOf, Runs.NeverHeld, Runs.RangeServed, Runs.InStep, Runs.SameAnswer;
    forall i | 0 <= i < |run| ensures Answers(c, CallsOf(c, run, ss), ms)[i] == RedisAnswers(c, run, ss)[i] {
      Runs.RunSimulates(c, run, ss, ms, i);
      SameTime(c, run[i], ss[i]);
      SameStart(c, run[i], ss[i], ms[i]);
    }
  }

  lemma SameStart(c: Config, e: Runs.Event, s: Runs.System, m: M.Sessions)
    requires Runs.SameAnswer(M.Live(m, e.now), e.action, Runs.Follow(c, s, m, e.now, e.action).1, Runs.Act(c, s, e.now, e.action).1)
    ensures
      var call, answer := CallOf(c, e, s), Runs.Act(c, s, e.now, e.action).1;
      (call.request.Some? && M.Step(c, m, e.now, call.request.value).1.Started?)
        <==> (e.action.Call? && answer.Some? && answer.value.Started?)
  {
    hide Runs.Act, M.Step, CallOf;
    SameTime(c, e, s);
    var call := CallOf(c, e, s);
    if call.request.Some? {
      RenameStartsNothing(c, m, e.now, call.request.value);
    }
    if e.action.Call? {
      FollowAnswers(c, s, m, e.now, e.action);
    }
  }

  lemma FollowAnswers(c: Config, s: Runs.System, m: M.Sessions, now: int, action: Runs.Action)
    requires action.Call?
    ensures Runs.Follow(c, s, m, now, action) == M.Step(c, m, now, action.request)
  {
    hide M.Step;
  }

  // In every run on Redis Verify answers with claims if and only if an accepted
  // Start made the session with these claims and that CSRF secret, no call has
  // ended it since, and its time is not over.
  lemma RedisVerifiedExactly(c: Config, run: seq<Runs.Event>, ss: seq<Runs.System>, ms: seq<M.Sessions>, i: nat,
                             t: Digest, csrf: Option<Digest>, claims: Claims)
    requires Runs.Run(c, run, ss, ms) && i < |run| && |ss| == |run| + 1
    requires run[i].action.Call? && run[i].action.request == Verify(t, csrf)
    ensures Runs.Act(c, ss[i], run[i].now, run[i].action).1 == Some(Verified(claims)) <==>
              StartedWith(c, CallsOf(c, run, ss), RedisAnswers(c, run, ss), i, run[i].now, t, claims, csrf)
  {
    hide Runs.Run, Runs.Act, Runs.Follow, M.Step, CallOf, StartedWith, Runs.InStep, M.VerifyStep;
    RunIsTrace(c, run, ss, ms);
    SameStarts(c, run, ss, ms);
    SameTime(c, run[i], ss[i]);
    Runs.RunSimulates(c, run, ss, ms, i);
    FollowAnswers(c, ss[i], ms[i], run[i].now, run[i].action);
    VerifiedExactly(c, CallsOf(c, run, ss), ms, i, t, csrf, claims);
    StepVerifies(c, ms[i], run[i].now, t, csrf);
    hide Runs.RangeServed;
  }

  lemma StepVerifies(c: Config, m: M.Sessions, now: int, t: Digest, csrf: Option<Digest>)
    ensures M.Step(c, m, now, Verify(t, csrf)).1.Verified? ==> t in M.Live(m, now)
  {
  }

  // And Start makes a session exactly under the conditions of the manager.
  lemma RedisStartedExactly(c: Config, run: seq<Runs.Event>, ss: seq<Runs.System>, ms: seq<M.Sessions>, i: nat,
                            t: Digest, o: Origin, all: set<Digest>, mine: set<Digest>)
    requires Runs.Run(c, run, ss, ms) && i < |run| && |ss| == |run| + 1
    requires run[i].action.Call? && run[i].action.request == Start(o.claims, t, o.csrf, o.sessionId)
    requires forall u :: u in all <==> Live(c, CallsOf(c, run, ss), RedisAnswers(c, run, ss), i, run[i].now, u)
    requires forall u :: u in mine <==>
               LiveOf(c, CallsOf(c, run, ss), RedisAnswers(c, run, ss), i, run[i].now, u, o.claims.subject)
    ensures
      var now, answer := run[i].now, Runs.Act(c, ss[i], run[i].now, run[i].action).1;
      && (answer.Some? && answer.value.Started? <==>
            && o.claims.details.Complete? && o.claims.issued < o.claims.expires
            && now < o.claims.expires && o.claims.issued <= now + 5000
            && |all| < c.maxSessions && |mine| < c.maxPerSubject)
      && (answer.Some? && answer.value.Started? ==> answer == Some(Started(Expiry(c, now, o))))
  {
    hide Runs.Run, Runs.Act, Runs.Follow, M.Step, CallOf, Live, LiveOf, Runs.InStep;
    RunIsTrace(c, run, ss, ms);
    SameStarts(c, run, ss, ms);
    SameTime(c, run[i], ss[i]);
    Runs.RunSimulates(c, run, ss, ms, i);
    FollowAnswers(c, ss[i], ms[i], run[i].now, run[i].action);
    StartedExactly(c, CallsOf(c, run, ss), ms, i, t, o, all, mine);
  }

  // A session is revoked or renamed in Redis exactly when it is in the manager.
  lemma RedisNamedExactly(c: Config, run: seq<Runs.Event>, ss: seq<Runs.System>, ms: seq<M.Sessions>, i: nat,
                          subject: Text, id: Digest, device: DeviceName)
    requires Runs.Run(c, run, ss, ms) && i < |run| && |ss| == |run| + 1 && run[i].action.Call?
    requires run[i].action.request == Revoke(subject, id) || run[i].action.request == Rename(subject, id, device)
    ensures
      var found := LiveNamed(c, CallsOf(c, run, ss), RedisAnswers(c, run, ss), i, run[i].now, subject, id);
      Runs.Act(c, ss[i], run[i].now, run[i].action).1
        == Some(if run[i].action.request.Rename? && device.Unacceptable? then Failed(DeviceNameInvalid)
                else if found then Done else Failed(Invalid))
  {
    hide Runs.Run, Runs.Act, Runs.Follow, M.Step, CallOf, LiveNamed, Runs.InStep;
    RunIsTrace(c, run, ss, ms);
    SameStarts(c, run, ss, ms);
    SameTime(c, run[i], ss[i]);
    Runs.RunSimulates(c, run, ss, ms, i);
    FollowAnswers(c, ss[i], ms[i], run[i].now, run[i].action);
    NamedExactly(c, CallsOf(c, run, ss), ms, i, subject, id, device);
  }
}
