// The answers of Redis, told from the calls alone.

module RefreshRedisLaw {
  import opened Common
  import opened Hashing
  import opened RefreshTypes
  import opened RedisKeys
  import opened RefreshSimulation
  import opened RefreshRuns
  import opened RefreshEquivalence
  import opened RefreshLaw
  import M = RefreshMemory
  import R = RefreshScripts

  function RedisAnswers(c: Config, run: seq<Event>, ss: seq<R.Store>): (answers: seq<Outcome>)
    requires |ss| == |run| + 1
    ensures |answers| == |run|
  {
    seq(|run|, i requires 0 <= i < |run| => RedisResult(c, run, ss, i))
  }

  // What Redis answers for a live family that owns the token: like the manager,
  // except that a replay comes before an expired token, and a family that was
  // revoked because it had expired counts as revoked.
  lemma RedisPresents(c: Config, s: R.Store, live: Families, now: int, id: FamilyId, token: Digest, next: Digest)
    requires c.Valid() && now >= 1 && Represents(s, live, now)
    requires id in live && live[id].Owns(token) && next !in s.token
    ensures
      var f := live[id];
      R.Step(c, s, now, Rotate(token, next)).1
        == if f.revoked then Failed(if token != f.current then Reuse else Revoked)
           else if token != f.current then Failed(Reuse)
           else if f.expires <= now then Failed(Expired)
           else if |f.used| >= 1024 then Failed(Limit)
           else Rotated(Min(now + c.refreshTTL, f.absolute))
  {
    hide Represents, R.Consistent, R.HashSet, R.Advance;
    LiveFamilyIsConsistent(s, live, now, id, token);
    hide R.Members;
  }

  lemma RedisKnowsNot(c: Config, s: R.Store, live: Families, now: int, token: Digest, next: Digest)
    requires Represents(s, live, now) && forall id :: id in live ==> !live[id].Owns(token)
    ensures R.Step(c, s, now, Rotate(token, next)).1 == Failed(Invalid)
  {
    UnknownToken(s, live, now, token);
    hide Represents;
  }

  // The same starts and rotations are accepted.
  ghost predicate SameProgress(calls: seq<Event>, ours: seq<Outcome>, theirs: seq<Outcome>) {
    && |ours| == |theirs| == |calls|
    && forall k :: 0 <= k < |calls| && Issues(calls[k].request) ==>
         (ours[k].Started? <==> theirs[k].Started?) && (ours[k].Rotated? <==> theirs[k].Rotated?)
  }

  lemma {:induction false} SameHistory(calls: seq<Event>, ours: seq<Outcome>, theirs: seq<Outcome>, i: nat, id: FamilyId)
    requires SameProgress(calls, ours, theirs) && i <= |calls|
    ensures History(calls, ours, i, id) == History(calls, theirs, i, id)
  {
    if i > 0 {
      SameHistory(calls, ours, theirs, i - 1, id);
      hide Made;
    }
  }

  lemma StoresProgressAlike(c: Config, run: seq<Event>, ss: seq<R.Store>)
    requires RedisRun(c, run, ss)
    ensures |ss| == |run| + 1
    ensures
      var calls := Followed(run, ss);
      SameProgress(calls, RedisAnswers(c, run, ss), AnswersOf(c, calls, ManagerStates(c, run, ss)))
  {
    hide RedisRun, Represents, M.Step, R.Step, ManagerStates;
    RedisAt(c, run, ss, 0);
    var calls, ms := Followed(run, ss), ManagerStates(c, run, ss);
    forall k: nat | k < |calls| && Issues(calls[k].request)
      ensures Result(c, calls, ms, k).Started? <==> RedisResult(c, run, ss, k).Started?
      ensures Result(c, calls, ms, k).Rotated? <==> RedisResult(c, run, ss, k).Rotated?
    {
      var _ := JointAt(c, run, ss, k);
      RunSimulates(c, run, ss, k);
    }
  }

  // What the live families of Redis are at call i, told from the history.
  lemma RedisRecordAt(c: Config, run: seq<Event>, ss: seq<R.Store>, i: nat, id: FamilyId)
    requires RedisRun(c, run, ss) && i < |run|
    ensures |ss| == |run| + 1
    ensures
      var calls := Followed(run, ss);
      var at := History(calls, RedisAnswers(c, run, ss), i, id);
      var live := M.Alive(ManagerStates(c, run, ss)[i], run[i].now);
      && Represents(ss[i], live, run[i].now)
      && (id in live <==> at != [] && run[i].now < FamilyEnd(c, calls, at))
      && (id in live ==> Recorded(c, calls, at, i, live[id]))
  {
    hide RedisRun, Represents, M.Step, R.Step, Recorded, M.Inv, M.Bounded, Made, FamilyEnd, SameProgress;
    StoresProgressAlike(c, run, ss);
    var calls := Followed(run, ss);
    var ms := JointAt(c, run, ss, i);
    RunSimulates(c, run, ss, i);
    ManagerRuns(c, run, ss);
    RedisClocked(c, run, ss);
    SameHistory(calls, RedisAnswers(c, run, ss), AnswersOf(c, calls, ms), i, id);
    hide Valid, Clocked, History;
    RecordAt(c, calls, ms, i, id);
  }

  lemma RedisClocked(c: Config, run: seq<Event>, ss: seq<R.Store>)
    requires RedisRun(c, run, ss)
    ensures |ss| == |run| + 1 && Clocked(Followed(run, ss)) && c.Valid()
  {
    hide R.Step, IndexFits;
  }

  // What presenting the token to this family answers in Redis: as in the
  // manager, but a replay comes before an expired token, and a family that was
  // found expired counts as revoked.
  ghost function RedisAnswer(c: Config, calls: seq<Event>, at: seq<nat>, i: nat, token: Digest): Outcome
    requires Made(calls, at) && i < |calls|
  {
    if token != Latest(calls, at) then Failed(Reuse)
    else if Ended(c, calls, at, i) then Failed(Revoked)
    else if TokenEnd(c, calls, at) <= calls[i].now then Failed(Expired)
    else Exchange(c, calls, at, i)
  }

  lemma RedisRecordAnswers(c: Config, calls: seq<Event>, at: seq<nat>, i: nat, s: R.Store, live: Families, id: FamilyId)
    requires c.Valid() && Made(calls, at) && i < |calls| && calls[i].request.Rotate? && calls[i].now >= 1
    requires Represents(s, live, calls[i].now) && id in live && Recorded(c, calls, at, i, live[id])
    requires calls[i].request.token in Tokens(calls, at) && calls[i].request.next !in s.token
    ensures R.Step(c, s, calls[i].now, calls[i].request).1 == RedisAnswer(c, calls, at, i, calls[i].request.token)
  {
    hide R.Step, Represents, Tokens, Ended, RanOut, TokenEnd;
    assert live[id].Owns(calls[i].request.token);
    RedisPresents(c, s, live, calls[i].now, id, calls[i].request.token, calls[i].request.next);
  }

  // The answer of Redis to presenting a token of a family within its lifetime.
  lemma RedisRotateFollowsHistory(c: Config, run: seq<Event>, ss: seq<R.Store>, i: nat, id: FamilyId)
    requires RedisRun(c, run, ss) && |ss| == |run| + 1 && i < |run| && run[i].request.Rotate?
    requires
      var calls := Followed(run, ss);
      Reaches(c, calls, History(calls, RedisAnswers(c, run, ss), i, id), i, run[i].request.token)
    ensures
      var calls := Followed(run, ss);
      var at := History(calls, RedisAnswers(c, run, ss), i, id);
      RedisResult(c, run, ss, i) == RedisAnswer(c, calls, at, i, run[i].request.token)
  {
    hide RedisRun, Represents, M.Step, R.Step, Recorded, M.Inv, M.Bounded, FamilyEnd, Unwritten, RedisAnswer, Tokens, History;
    var calls := Followed(run, ss);
    var at := History(calls, RedisAnswers(c, run, ss), i, id);
    RedisRecordAt(c, run, ss, i, id);
    var ms := JointAt(c, run, ss, i);
    NextIsNew(ms[i], ss[i], run[i].request.token, run[i].request.next);
    RedisRecordAnswers(c, calls, at, i, ss[i], M.Alive(ms[i], run[i].now), id);
  }

  // A token that leads to no family within its lifetime is invalid in Redis.
  lemma RedisUnreachedIsInvalid(c: Config, run: seq<Event>, ss: seq<R.Store>, i: nat)
    requires RedisRun(c, run, ss) && |ss| == |run| + 1 && i < |run| && run[i].request.Rotate?
    requires
      var calls := Followed(run, ss);
      forall id :: !Reaches(c, calls, History(calls, RedisAnswers(c, run, ss), i, id), i, run[i].request.token)
    ensures RedisResult(c, run, ss, i) == Failed(Invalid)
  {
    hide RedisRun, Represents, M.Step, R.Step, M.Inv, M.Bounded, FamilyEnd, Unwritten, Tokens, History, ManagerStates, Made, RecordOf;
    var calls := Followed(run, ss);
    var live := M.Alive(ManagerStates(c, run, ss)[i], run[i].now);
    forall id | id in live
      ensures !live[id].Owns(run[i].request.token)
    {
      RedisRecordAt(c, run, ss, i, id);
      assert !Reaches(c, calls, History(calls, RedisAnswers(c, run, ss), i, id), i, run[i].request.token);
    }
    RunSimulates(c, run, ss, i);
    RedisKnowsNot(c, ss[i], live, run[i].now, run[i].request.token, run[i].request.next);
  }

  // The rotation law over every run of Redis.
  lemma RedisAcceptedExactly(c: Config, run: seq<Event>, ss: seq<R.Store>, i: nat)
    requires RedisRun(c, run, ss) && |ss| == |run| + 1 && i < |run| && run[i].request.Rotate?
    ensures
      var calls, answers := Followed(run, ss), RedisAnswers(c, run, ss);
      && (answers[i].Rotated? || answers[i] == Failed(Limit) ==> exists id :: Exchangeable(c, calls, answers, i, id))
      && (forall id :: Exchangeable(c, calls, answers, i, id) ==>
            answers[i] == Exchange(c, calls, History(calls, answers, i, id), i))
  {
    var calls, answers := Followed(run, ss), RedisAnswers(c, run, ss);
    hide RedisRun, RedisResult, Exchangeable, History, Exchange, Reaches;
    forall id | Exchangeable(c, calls, answers, i, id)
      ensures Made(calls, History(calls, answers, i, id)) && answers[i] == Exchange(c, calls, History(calls, answers, i, id), i)
    {
      RedisExchanges(c, run, ss, i, id);
    }
    if answers[i].Rotated? || answers[i] == Failed(Limit) {
      if forall id :: !Reaches(c, calls, History(calls, answers, i, id), i, run[i].request.token) {
        RedisUnreachedIsInvalid(c, run, ss, i);
      } else {
        var id :| Reaches(c, calls, History(calls, answers, i, id), i, run[i].request.token);
        RedisExchangedIs(c, run, ss, i, id);
      }
    }
  }

  lemma RedisExchangedIs(c: Config, run: seq<Event>, ss: seq<R.Store>, i: nat, id: FamilyId)
    requires RedisRun(c, run, ss) && |ss| == |run| + 1 && i < |run| && run[i].request.Rotate?
    requires
      var calls := Followed(run, ss);
      Reaches(c, calls, History(calls, RedisAnswers(c, run, ss), i, id), i, run[i].request.token)
    requires RedisResult(c, run, ss, i).Rotated? || RedisResult(c, run, ss, i) == Failed(Limit)
    ensures Exchangeable(c, Followed(run, ss), RedisAnswers(c, run, ss), i, id)
  {
    hide RedisRun, RedisResult, History, Tokens, Ended, TokenEnd;
    RedisRotateFollowsHistory(c, run, ss, i, id);
  }

  lemma RedisExchanges(c: Config, run: seq<Event>, ss: seq<R.Store>, i: nat, id: FamilyId)
    requires RedisRun(c, run, ss) && |ss| == |run| + 1 && i < |run| && run[i].request.Rotate?
    requires Exchangeable(c, Followed(run, ss), RedisAnswers(c, run, ss), i, id)
    ensures
      var calls := Followed(run, ss);
      var at := History(calls, RedisAnswers(c, run, ss), i, id);
      Made(calls, at) && RedisResult(c, run, ss, i) == Exchange(c, calls, at, i)
  {
    var calls := Followed(run, ss);
    var at := History(calls, RedisAnswers(c, run, ss), i, id);
    TokensSplit(calls, at);
    hide RedisRun, RedisResult, History, Tokens, Ended, Exchange;
    assert Reaches(c, calls, at, i, run[i].request.token);
    RedisRotateFollowsHistory(c, run, ss, i, id);
  }

  // Revoking by a token of a family within its lifetime succeeds in Redis exactly
  // when no call has ended the family.
  lemma RedisRevokeFollowsHistory(c: Config, run: seq<Event>, ss: seq<R.Store>, i: nat, id: FamilyId)
    requires RedisRun(c, run, ss) && |ss| == |run| + 1 && i < |run| && run[i].request.RevokeFamily?
    requires
      var calls := Followed(run, ss);
      Reaches(c, calls, History(calls, RedisAnswers(c, run, ss), i, id), i, run[i].request.revoked)
    ensures
      var calls := Followed(run, ss);
      var at := History(calls, RedisAnswers(c, run, ss), i, id);
      RedisResult(c, run, ss, i) == if Ended(c, calls, at, i) then Failed(Revoked) else Done
  {
    hide RedisRun, Represents, M.Step, R.Step, M.Inv, M.Bounded, FamilyEnd, Tokens, History, Ended, RanOut, TokenEnd;
    RedisRecordAt(c, run, ss, i, id);
    var ms := JointAt(c, run, ss, i);
    OwnerIsUnique(ms[i], id, run[i].request.revoked);
    RevokeFamilySimulates(c, ms[i], ss[i], run[i].now, run[i].request.revoked);
  }

  lemma SameStarts(c: Config, calls: seq<Event>, ours: seq<Outcome>, theirs: seq<Outcome>, i: nat, user: Text)
    requires SameProgress(calls, ours, theirs) && i < |calls|
    ensures LiveStarts(c, calls, ours, i) == LiveStarts(c, calls, theirs, i)
    ensures ActiveStarts(c, calls, ours, i, user) == ActiveStarts(c, calls, theirs, i, user)
  {
    forall id: FamilyId ensures History(calls, ours, i, id) == History(calls, theirs, i, id) {
      SameHistory(calls, ours, theirs, i, id);
    }
    hide History, InUse;
  }

  // A start is accepted by Redis exactly when fewer than MaxFamilies accepted
  // starts are within their lifetime.
  lemma RedisStartedExactly(c: Config, run: seq<Event>, ss: seq<R.Store>, i: nat)
    requires RedisRun(c, run, ss) && |ss| == |run| + 1 && i < |run| && run[i].request.Start?
    ensures
      var starts := LiveStarts(c, Followed(run, ss), RedisAnswers(c, run, ss), i);
      if |starts| < c.maxFamilies then
        RedisResult(c, run, ss, i) == Started(Min(run[i].now + c.refreshTTL, run[i].now + c.absoluteTTL))
      else RedisResult(c, run, ss, i).Failed?
  {
    hide RedisRun, Represents, M.Step, R.Step, ManagerStates, LiveStarts, SameProgress;
    var calls := Followed(run, ss);
    StoresProgressAlike(c, run, ss);
    var ms := JointAt(c, run, ss, i);
    RunSimulates(c, run, ss, i);
    ManagerRuns(c, run, ss);
    RedisClocked(c, run, ss);
    SameStarts(c, calls, RedisAnswers(c, run, ss), AnswersOf(c, calls, ms), i, run[i].request.user);
    hide Valid, Clocked;
    StartedExactly(c, calls, ms, i);
  }

  // Redis counts the same families, unless the index of the user is too large.
  lemma RedisCountedExactly(c: Config, run: seq<Event>, ss: seq<R.Store>, i: nat, user: Text)
    requires RedisRun(c, run, ss) && |ss| == |run| + 1 && i < |run|
    requires run[i].request == RevokeUser(user) || run[i].request == ActiveFamilies(user)
    ensures
      RedisResult(c, run, ss, i)
        == Count(if |R.UserIndex(ss[i], Sha256(user))| <= 10000
                 then |ActiveStarts(c, Followed(run, ss), RedisAnswers(c, run, ss), i, user)| else 0)
  {
    hide RedisRun, Represents, M.Step, R.Step, ManagerStates, ActiveStarts, SameProgress;
    var calls := Followed(run, ss);
    StoresProgressAlike(c, run, ss);
    var ms := JointAt(c, run, ss, i);
    RunSimulates(c, run, ss, i);
    ManagerRuns(c, run, ss);
    RedisClocked(c, run, ss);
    SameStarts(c, calls, RedisAnswers(c, run, ss), AnswersOf(c, calls, ms), i, user);
    hide Valid, Clocked;
    CountedExactly(c, calls, ms, i, user);
  }

  // The stores of Redis when it gets these calls.
  function RedisAfter(c: Config, run: seq<Event>, i: nat): R.Store
    requires i <= |run|
  {
    if i == 0 then R.Empty else R.Step(c, RedisAfter(c, run, i - 1), run[i - 1].now, run[i - 1].request).0
  }

  function RedisStates(c: Config, run: seq<Event>): (ss: seq<R.Store>)
    ensures |ss| == |run| + 1
  {
    seq(|run| + 1, i requires 0 <= i <= |run| => RedisAfter(c, run, i))
  }

  // Distinct draws make a run of Redis.
  lemma DrawnRunIsRedisRun(c: Config, run: seq<Event>)
    requires c.Valid() && Clocked(run) && DrawnOnce(run)
    ensures RedisRun(c, run, RedisStates(c, run))
  {
    hide R.Step, Clocked, DrawnOnce;
  }

  lemma BusyFits(user: Text, id: FamilyId, tokens: seq<Digest>, ss: seq<R.Store>)
    requires |ss| >= |tokens|
    ensures Followed(Busy(user, id, tokens), ss) == Busy(user, id, tokens)
  {
  }

  lemma RedisBusyAnswers(c: Config, user: Text, id: FamilyId, tokens: seq<Digest>, k: nat)
    requires c.Valid() && 0 < k <= 1025 && k < |tokens|
    requires RedisRun(c, Busy(user, id, tokens), RedisStates(c, Busy(user, id, tokens)))
    ensures
      var run := Busy(user, id, tokens);
      RedisResult(c, run, RedisStates(c, run), k) == if k <= 1024 then Rotated(1 + c.refreshTTL) else Failed(Limit)
  {
    var run := Busy(user, id, tokens);
    var ss := RedisStates(c, run);
    assert run[k] == Event(1, Rotate(tokens[k - 1], tokens[k]));
    BusyIsMade(c, user, id, tokens, k);
    BusyFits(user, id, tokens, ss);
    hide RedisRun, RedisResult, RedisStates, Busy, ManagerStates, Latest, TokenEnd, Ended, SameProgress, History;
    StoresProgressAlike(c, run, ss);
    ManagerRuns(c, run, ss);
    RedisClocked(c, run, ss);
    var ms := ManagerStates(c, run, ss);
    BusyHistory(c, user, id, tokens, ms, k);
    SameHistory(run, RedisAnswers(c, run, ss), AnswersOf(c, run, ms), k, id);
    RedisExchanges(c, run, ss, k, id);
  }

  // Redis attains the limit as well.
  lemma RedisThousandRotations(c: Config, user: Text, id: FamilyId, tokens: seq<Digest>)
    requires 0 < c.refreshTTL <= c.absoluteTTL && 0 < c.maxFamilies <= 10000
    requires |tokens| == 1026 && forall j, k :: 0 <= j < k < |tokens| ==> tokens[j] != tokens[k]
    ensures
      var run := Busy(user, id, tokens);
      var ss := RedisStates(c, run);
      && RedisRun(c, run, ss)
      && (forall k :: 1 <= k <= 1024 ==> RedisResult(c, run, ss, k) == Rotated(1 + c.refreshTTL))
      && RedisResult(c, run, ss, 1025) == Failed(Limit)
  {
    var run := Busy(user, id, tokens);
    var ss := RedisStates(c, run);
    BusyIsDrawnOnce(user, id, tokens);
    hide Busy, DrawnOnce, Clocked, RedisRun, RedisResult, RedisStates;
    DrawnRunIsRedisRun(c, run);
    forall k: nat | 1 <= k <= 1025
      ensures RedisResult(c, run, ss, k) == if k <= 1024 then Rotated(1 + c.refreshTTL) else Failed(Limit)
    {
      RedisBusyAnswers(c, user, id, tokens, k);
    }
  }
}
