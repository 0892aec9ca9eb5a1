// The answers of a refresh-session run told from the calls alone: what a family
// is at any time follows from the calls that made it and the calls since.

module RefreshLaw {
  import opened Common
  import opened Hashing
  import opened RefreshTypes
  import opened RefreshMemory
  import opened RefreshRuns

  function AnswersOf(c: Config, run: seq<Event>, states: seq<Memory>): (answers: seq<Outcome>)
    requires |states| == |run| + 1
    ensures |answers| == |run|
  {
    seq(|run|, i requires 0 <= i < |run| => Result(c, run, states, i))
  }

  predicate Issues(request: Request) {
    request.Start? || request.Rotate?
  }

  // The token that a call hands out when it is accepted.
  function Issued(request: Request): Digest
    requires Issues(request)
  {
    if request.Start? then request.first else request.next
  }

  // An accepted call that starts family id.
  predicate Opens(request: Request, answer: Outcome, id: FamilyId) {
    request.Start? && request.id == id && answer.Started?
  }

  // An accepted rotation of the token h.
  predicate Advances(request: Request, answer: Outcome, h: Digest) {
    request.Rotate? && request.token == h && answer.Rotated?
  }

  // Calls of a run that hand out a token.
  ghost predicate Issuing(run: seq<Event>, at: seq<nat>) {
    forall k :: 0 <= k < |at| ==> at[k] < |run| && Issues(run[at[k]].request)
  }

  function Last(at: seq<nat>): nat
    requires at != []
  {
    at[|at| - 1]
  }

  // These calls started a family and went on with it.
  ghost predicate Made(run: seq<Event>, at: seq<nat>) {
    at != [] && Issuing(run, at) && run[at[0]].request.Start?
  }

  // The calls before call i that made family id: its start, then the accepted
  // rotations of what was then its latest token. None when it was not started.
  function History(run: seq<Event>, answers: seq<Outcome>, i: nat, id: FamilyId): (at: seq<nat>)
    requires i <= |run| == |answers|
    ensures at != [] ==> Made(run, at)
  {
    if i == 0 then []
    else
      var at := History(run, answers, i - 1, id);
      var e := run[i - 1];
      if Opens(e.request, answers[i - 1], id) then [i - 1]
      else if at != [] && Advances(e.request, answers[i - 1], Issued(run[Last(at)].request)) then at + [i - 1]
      else at
  }

  // The calls that made family id, spelled out: its start, then rotations, each
  // of the token that the one before handed out.
  ghost predicate Chain(run: seq<Event>, answers: seq<Outcome>, id: FamilyId, at: seq<nat>, i: nat)
    requires |answers| == |run|
  {
    && Issuing(run, at) && (forall k :: 0 <= k < |at| ==> at[k] < i)
    && (forall j, k :: 0 <= j < k < |at| ==> at[j] < at[k])
    && (at != [] ==> Opens(run[at[0]].request, answers[at[0]], id))
    && (forall k :: 0 < k < |at| ==>
          Advances(run[at[k]].request, answers[at[k]], Issued(run[at[k - 1]].request)))
  }

  function Tokens(run: seq<Event>, at: seq<nat>): set<Digest>
    requires Issuing(run, at)
  {
    set k | 0 <= k < |at| :: Issued(run[at[k]].request)
  }

  function Latest(run: seq<Event>, at: seq<nat>): Digest
    requires Made(run, at)
  {
    Issued(run[Last(at)].request)
  }

  function UserOf(run: seq<Event>, at: seq<nat>): Text
    requires Made(run, at)
  {
    run[at[0]].request.user
  }

  // The two lifetimes: that of the family and that of its latest token.
  function FamilyEnd(c: Config, run: seq<Event>, at: seq<nat>): int
    requires Made(run, at)
  {
    run[at[0]].now + c.absoluteTTL
  }

  function TokenEnd(c: Config, run: seq<Event>, at: seq<nat>): int
    requires Made(run, at)
  {
    Min(run[Last(at)].now + c.refreshTTL, FamilyEnd(c, run, at))
  }

  // Call j ends the family that the calls at made: it presents or revokes one
  // of its tokens, or revokes its user's sessions while the latest token lasts.
  ghost predicate Ends(c: Config, run: seq<Event>, at: seq<nat>, j: nat)
    requires Made(run, at) && j < |run|
  {
    match run[j].request
    case Rotate(token, _) => token in Tokens(run, at)
    case RevokeFamily(token) => token in Tokens(run, at)
    case RevokeUser(user) => user == UserOf(run, at) && run[j].now < TokenEnd(c, run, at)
    case _ => false
  }

  // A call before call i, after the last accepted rotation, has ended it.
  ghost predicate Ended(c: Config, run: seq<Event>, at: seq<nat>, i: nat)
    requires Made(run, at) && i <= |run|
  {
    exists j: nat :: Last(at) < j < i && Ends(c, run, at, j)
  }

  // The call that ended it was a rotation after the latest token had expired.
  ghost predicate RanOut(c: Config, run: seq<Event>, at: seq<nat>, i: nat)
    requires Made(run, at) && i <= |run|
  {
    exists j: nat :: Last(at) < j < i && Ends(c, run, at, j)
                     && run[j].request.Rotate? && TokenEnd(c, run, at) <= run[j].now && !Ended(c, run, at, j)
  }

  // The record of a family, told from its history.
  ghost function RecordOf(c: Config, run: seq<Event>, at: seq<nat>, i: nat): Family
    requires Made(run, at) && i <= |run|
  {
    Family(UserOf(run, at), FamilyEnd(c, run, at), Latest(run, at), TokenEnd(c, run, at),
           Tokens(run, at[..|at| - 1]), Ended(c, run, at, i), RanOut(c, run, at, i))
  }

  predicate Living(m: Memory, id: FamilyId, now: int) {
    id in m.families && m.families[id].absolute > now
  }

  // The manager holds family id, with this record, exactly while its history
  // says so.
  ghost predicate Linked(c: Config, run: seq<Event>, answers: seq<Outcome>, i: nat, m: Memory, now: int, id: FamilyId)
    requires i <= |run| == |answers|
  {
    var at := History(run, answers, i, id);
    && (Living(m, id, now) <==> at != [] && FamilyEnd(c, run, at) > now)
    && (Living(m, id, now) ==>
          && m.families[id] == RecordOf(c, run, at, i)
          && |Tokens(run, at[..|at| - 1])| == |at| - 1)
  }

  // What one call does to a living family.
  function Touched(c: Config, f: Family, now: int, request: Request): Family {
    match request
    case Rotate(token, next) => if f.Owns(token) then Present(c, f, now, token, next).0 else f
    case RevokeFamily(token) => if f.Owns(token) && !f.expired then f.(revoked := true) else f
    case RevokeUser(user) => if Usable(f, user, now) then f.(revoked := true) else f
    case _ => f
  }

  lemma {:induction false} HistoryIsChain(run: seq<Event>, answers: seq<Outcome>, i: nat, id: FamilyId)
    requires i <= |run| == |answers|
    ensures Chain(run, answers, id, History(run, answers, i, id), i)
  {
    if i > 0 {
      HistoryIsChain(run, answers, i - 1, id);
      hide Opens, Advances, Issues, Issued, Chain;
      ChainSteps(run, answers, id, History(run, answers, i - 1, id), i - 1);
    }
  }

  lemma ChainSteps(run: seq<Event>, answers: seq<Outcome>, id: FamilyId, at: seq<nat>, i: nat)
    requires i < |run| == |answers| && Chain(run, answers, id, at, i)
    ensures Chain(run, answers, id, at, i + 1)
    ensures Opens(run[i].request, answers[i], id) ==> Chain(run, answers, id, [i], i + 1)
    ensures at != [] && Advances(run[i].request, answers[i], Issued(run[Last(at)].request)) ==>
              Chain(run, answers, id, at + [i], i + 1)
  {
  }

  lemma OwnerIsUnique(m: Memory, id: FamilyId, h: Digest)
    requires Inv(m) && id in m.families
    ensures m.families[id].Owns(h) <==> h in m.tokens && m.tokens[h] == id
  {
    assert Registered(m, id, m.families[id]);
  }

  lemma RotateOnFamily(c: Config, m: Memory, now: int, token: Digest, next: Digest, id: FamilyId)
    requires Inv(m) && next !in m.tokens && Living(m, id, now)
    ensures
      var (n, out) := RotateStep(c, m, now, token, next);
      && id in n.families && n.families[id] == Touched(c, m.families[id], now, Rotate(token, next))
      && (m.families[id].Owns(token) ==> out == Present(c, m.families[id], now, token, next).1)
      && (out.Rotated? && !m.families[id].Owns(token) ==> token != m.families[id].current)
  {
    OwnerIsUnique(m, id, token);
    hide Inv, Present;
  }

  lemma RevokeFamilyOnFamily(c: Config, m: Memory, now: int, token: Digest, id: FamilyId)
    requires Inv(m) && Living(m, id, now)
    ensures
      var (n, out) := RevokeFamilyStep(m, now, token);
      && id in n.families && n.families[id] == Touched(c, m.families[id], now, RevokeFamily(token))
      && (m.families[id].Owns(token) ==> out == if m.families[id].expired then Failed(Expired) else Done)
  {
    OwnerIsUnique(m, id, token);
    hide Inv;
  }

  lemma StepOnFamily(c: Config, m: Memory, now: int, request: Request, id: FamilyId)
    requires Inv(m) && Living(m, id, now)
    requires NewTokens(request) !! m.tokens.Keys && NewIds(request) !! m.families.Keys
    ensures
      var (n, out) := Step(c, m, now, request);
      && id in n.families && n.families[id] == Touched(c, m.families[id], now, request)
      && (request.Rotate? && m.families[id].Owns(request.token) ==>
            out == Present(c, m.families[id], now, request.token, request.next).1)
      && (request.RevokeFamily? && m.families[id].Owns(request.revoked) ==>
            out == if m.families[id].expired then Failed(Expired) else Done)
  {
    hide Inv, RotateStep, RevokeFamilyStep;
    match request
    case Rotate(token, next) =>
      assert next in NewTokens(request);
      RotateOnFamily(c, m, now, token, next, id);
    case RevokeFamily(token) => RevokeFamilyOnFamily(c, m, now, token, id);
    case Start(_, _, _) =>
    case RevokeUser(_) =>
    case ActiveFamilies(_) =>
  }

  // A family that does not live comes to life by being started, only.
  lemma StepOnOther(c: Config, m: Memory, now: int, request: Request, id: FamilyId)
    requires !Living(m, id, now) && c.absoluteTTL > 0
    requires NewTokens(request) !! m.tokens.Keys && NewIds(request) !! m.families.Keys
    ensures
      var (n, out) := Step(c, m, now, request);
      && (Living(n, id, now) <==> Opens(request, out, id))
      && (Opens(request, out, id) ==>
            && n.families[id] == Family(request.user, now + c.absoluteTTL, request.first,
                                        Min(now + c.refreshTTL, now + c.absoluteTTL), {}, false, false))
  {
    match request
    case Rotate(token, next) =>
    case RevokeFamily(token) =>
    case Start(_, _, _) =>
    case RevokeUser(_) =>
    case ActiveFamilies(_) =>
  }

  lemma EndedStep(c: Config, run: seq<Event>, at: seq<nat>, i: nat)
    requires i < |run| && Made(run, at) && Last(at) < i
    ensures Ended(c, run, at, i + 1) <==> Ended(c, run, at, i) || Ends(c, run, at, i)
    ensures RanOut(c, run, at, i) ==> Ended(c, run, at, i)
    ensures RanOut(c, run, at, i + 1) <==>
              || RanOut(c, run, at, i)
              || (Ends(c, run, at, i) && run[i].request.Rotate? && TokenEnd(c, run, at) <= run[i].now && !Ended(c, run, at, i))
  {
    hide Made, Ends, TokenEnd, Last;
  }

  // The tokens of a history are the latest one and those before it.
  lemma TokensSplit(run: seq<Event>, at: seq<nat>)
    requires Made(run, at)
    ensures Issuing(run, at[..|at| - 1])
    ensures Tokens(run, at) == Tokens(run, at[..|at| - 1]) + {Latest(run, at)}
  {
    var before := at[..|at| - 1];
    forall h | h in Tokens(run, at) ensures h in Tokens(run, before) + {Latest(run, at)} {
      var k :| 0 <= k < |at| && h == Issued(run[at[k]].request);
      if k < |at| - 1 {
        assert before[k] == at[k];
      }
    }
    forall h | h in Tokens(run, before) ensures h in Tokens(run, at) {
      var k :| 0 <= k < |before| && h == Issued(run[before[k]].request);
      assert before[k] == at[k];
    }
    assert Latest(run, at) == Issued(run[at[|at| - 1]].request);
  }

  lemma OwnedAreTokens(c: Config, run: seq<Event>, at: seq<nat>, i: nat, h: Digest)
    requires Made(run, at) && i <= |run|
    ensures RecordOf(c, run, at, i).Owns(h) <==> h in Tokens(run, at)
  {
    TokensSplit(run, at);
    hide Made, Tokens, Latest, Ended, RanOut, TokenEnd, FamilyEnd, UserOf;
  }

  // The record after a call that is not an accepted rotation of it.
  lemma RecordStays(c: Config, run: seq<Event>, at: seq<nat>, i: nat)
    requires i < |run| && Made(run, at) && Last(at) < i && run[i].now < FamilyEnd(c, run, at)
    requires
      var f := RecordOf(c, run, at, i);
      var request := run[i].request;
      request.Rotate? && f.Owns(request.token) ==> !Present(c, f, run[i].now, request.token, request.next).1.Rotated?
    ensures RecordOf(c, run, at, i + 1) == Touched(c, RecordOf(c, run, at, i), run[i].now, run[i].request)
  {
    EndedStep(c, run, at, i);
    match run[i].request
    case Rotate(token, _) => OwnedAreTokens(c, run, at, i, token);
    case RevokeFamily(token) => OwnedAreTokens(c, run, at, i, token);
    case _ =>
    hide Made, Tokens, Latest, Ended, RanOut, TokenEnd, FamilyEnd, UserOf, Last;
  }

  // The record after an accepted rotation.
  lemma RecordGrows(c: Config, run: seq<Event>, at: seq<nat>, i: nat)
    requires i < |run| && Made(run, at) && Last(at) < i
    requires run[i].request.Rotate?
    requires
      var f := RecordOf(c, run, at, i);
      var request := run[i].request;
      request.token == f.current && Present(c, f, run[i].now, request.token, request.next).1.Rotated?
    ensures Made(run, at + [i]) && FamilyEnd(c, run, at + [i]) == FamilyEnd(c, run, at)
    ensures RecordOf(c, run, at + [i], i + 1) == Touched(c, RecordOf(c, run, at, i), run[i].now, run[i].request)
    ensures RecordOf(c, run, at + [i], i + 1).used == RecordOf(c, run, at, i).used + {RecordOf(c, run, at, i).current}
  {
    TokensSplit(run, at);
    var grown := at + [i];
    assert grown[..|grown| - 1] == at;
    assert grown[0] == at[0] && Last(grown) == i;
    assert !Ended(c, run, grown, i + 1) && !RanOut(c, run, grown, i + 1);
    assert !Ended(c, run, at, i);
    hide Tokens, Ended, RanOut;
    EndedStep(c, run, at, i);
  }

  // The next history of a family that is already started.
  lemma HistoryContinues(run: seq<Event>, answers: seq<Outcome>, i: nat, id: FamilyId)
    requires i < |run| == |answers|
    ensures
      var at := History(run, answers, i, id);
      var next := History(run, answers, i + 1, id);
      if Opens(run[i].request, answers[i], id) then next == [i]
      else if at != [] && Advances(run[i].request, answers[i], Issued(run[Last(at)].request)) then next == at + [i]
      else next == at
  {
  }

  lemma HistoryIsPast(run: seq<Event>, answers: seq<Outcome>, i: nat, id: FamilyId)
    requires i <= |run| == |answers|
    ensures var at := History(run, answers, i, id); at != [] ==> Last(at) < i
  {
    HistoryIsChain(run, answers, i, id);
  }

  lemma LinkedWhenLiving(c: Config, run: seq<Event>, answers: seq<Outcome>, i: nat, m: Memory, id: FamilyId)
    requires i < |run| == |answers| && Inv(m) && Living(m, id, run[i].now)
    requires Linked(c, run, answers, i, m, run[i].now, id)
    requires NewTokens(run[i].request) !! m.tokens.Keys && NewIds(run[i].request) !! m.families.Keys
    requires answers[i] == Step(c, m, run[i].now, run[i].request).1
    ensures Linked(c, run, answers, i + 1, Step(c, m, run[i].now, run[i].request).0, run[i].now, id)
  {
    var at := History(run, answers, i, id);
    HistoryIsPast(run, answers, i, id);
    HistoryContinues(run, answers, i, id);
    StepOnFamily(c, m, run[i].now, run[i].request, id);
    assert m.families[id].current !in m.families[id].used by { assert Registered(m, id, m.families[id]); }
    hide Step, Inv, History, Tokens, Ended, RanOut, TokenEnd;
    var request := run[i].request;
    if request.Rotate? && request.token == m.families[id].current && answers[i].Rotated? {
      TokensSplit(run, at);
      RecordGrows(c, run, at, i);
      assert (at + [i])[..|at|] == at;
    } else {
      RecordStays(c, run, at, i);
    }
  }

  lemma LinkedWhenNot(c: Config, run: seq<Event>, answers: seq<Outcome>, i: nat, m: Memory, id: FamilyId)
    requires i < |run| == |answers| && !Living(m, id, run[i].now) && c.absoluteTTL > 0
    requires Linked(c, run, answers, i, m, run[i].now, id)
    requires NewTokens(run[i].request) !! m.tokens.Keys && NewIds(run[i].request) !! m.families.Keys
    requires answers[i] == Step(c, m, run[i].now, run[i].request).1
    ensures Linked(c, run, answers, i + 1, Step(c, m, run[i].now, run[i].request).0, run[i].now, id)
  {
    var at := History(run, answers, i, id);
    HistoryIsPast(run, answers, i, id);
    HistoryContinues(run, answers, i, id);
    StepOnOther(c, m, run[i].now, run[i].request, id);
    hide Step, History;
    if Opens(run[i].request, answers[i], id) {
      assert [i][..0] == [] && Tokens(run, []) == {};
      assert !Ended(c, run, [i], i + 1) && !RanOut(c, run, [i], i + 1);
    } else if at != [] {
      assert (at + [i])[0] == at[0];
    }
  }

  lemma {:induction false} EveryFamilyLinked(c: Config, run: seq<Event>, states: seq<Memory>, i: nat, now: int, id: FamilyId)
    requires c.absoluteTTL > 0 && Valid(c, run, states) && Clocked(run) && i <= |run|
    requires i > 0 ==> run[i - 1].now <= now
    ensures Linked(c, run, AnswersOf(c, run, states), i, states[i], now, id)
  {
    var answers := AnswersOf(c, run, states);
    HistoryIsPast(run, answers, i, id);
    if i > 0 {
      var t := run[i - 1].now;
      EveryFamilyLinked(c, run, states, i - 1, t, id);
      EveryStateExact(c, run, states, i - 1);
      FreshAt(run, states, i - 1, i - 1);
      hide Step, Inv, Fresh, Linked;
      if Living(states[i - 1], id, t) {
        LinkedWhenLiving(c, run, answers, i - 1, states[i - 1], id);
      } else {
        LinkedWhenNot(c, run, answers, i - 1, states[i - 1], id);
      }
      LinkedLater(c, run, answers, i, states[i], t, now, id);
    }
  }

  lemma LinkedLater(c: Config, run: seq<Event>, answers: seq<Outcome>, i: nat, m: Memory, now: int, later: int, id: FamilyId)
    requires i <= |run| == |answers| && now <= later && Linked(c, run, answers, i, m, now, id)
    ensures Linked(c, run, answers, i, m, later, id)
  {
    hide Tokens, Ended, RanOut, TokenEnd, History;
  }

  // A call presents a token of the family before its lifetime has ended.
  ghost predicate Reaches(c: Config, run: seq<Event>, at: seq<nat>, i: nat, token: Digest)
    requires i < |run|
  {
    Made(run, at) && token in Tokens(run, at) && run[i].now < FamilyEnd(c, run, at)
  }

  // What a living family's record is, told from its history.
  ghost predicate Recorded(c: Config, run: seq<Event>, at: seq<nat>, i: nat, f: Family)
    requires Made(run, at) && i <= |run|
  {
    && f == RecordOf(c, run, at, i)
    && |f.used| == |at| - 1 && f.current !in f.used
    && forall h :: f.Owns(h) <==> h in Tokens(run, at)
  }

  lemma RecordAt(c: Config, run: seq<Event>, states: seq<Memory>, i: nat, id: FamilyId)
    requires c.absoluteTTL > 0 && Valid(c, run, states) && Clocked(run) && i < |run|
    ensures
      var at := History(run, AnswersOf(c, run, states), i, id);
      && (Living(states[i], id, run[i].now) <==> at != [] && run[i].now < FamilyEnd(c, run, at))
      && (Living(states[i], id, run[i].now) ==> Recorded(c, run, at, i, states[i].families[id]))
  {
    var answers := AnswersOf(c, run, states);
    EveryFamilyLinked(c, run, states, i, run[i].now, id);
    EveryStateExact(c, run, states, i);
    var at := History(run, answers, i, id);
    if Living(states[i], id, run[i].now) {
      assert Registered(states[i], id, states[i].families[id]);
      hide Inv, History, Tokens, Ended, RanOut, TokenEnd, FamilyEnd, Clocked, Valid;
      forall h ensures RecordOf(c, run, at, i).Owns(h) <==> h in Tokens(run, at) {
        OwnedAreTokens(c, run, at, i, h);
      }
    }
  }

  // Fewer than 1024 rotations were accepted: the token is exchanged for one that
  // lasts refreshTTL, but no longer than the family.
  function Exchange(c: Config, run: seq<Event>, at: seq<nat>, i: nat): Outcome
    requires Made(run, at) && i < |run|
  {
    if |at| - 1 < 1024 then Rotated(Min(run[i].now + c.refreshTTL, run[at[0]].now + c.absoluteTTL)) else Failed(Limit)
  }

  // What presenting the token to this family answers: the latest token is
  // exchanged, an earlier one is a replay, and an ended family answers why it
  // ended.
  ghost function RotationAnswer(c: Config, run: seq<Event>, at: seq<nat>, i: nat, token: Digest): Outcome
    requires Made(run, at) && i < |run|
  {
    if Ended(c, run, at, i) then
      Failed(if token != Latest(run, at) then Reuse else if RanOut(c, run, at, i) then Expired else Revoked)
    else if TokenEnd(c, run, at) <= run[i].now then Failed(Expired)
    else if token != Latest(run, at) then Failed(Reuse)
    else Exchange(c, run, at, i)
  }

  lemma RecordAnswers(c: Config, run: seq<Event>, at: seq<nat>, i: nat, f: Family, token: Digest, next: Digest)
    requires Made(run, at) && i < |run| && Recorded(c, run, at, i, f)
    requires token in Tokens(run, at) && run[i].now < FamilyEnd(c, run, at)
    ensures Present(c, f, run[i].now, token, next).1 == RotationAnswer(c, run, at, i, token)
  {
    assert f.Owns(token);
    hide Tokens, Ended, RanOut;
  }

  // The answer to presenting a token of a family within its lifetime.
  lemma RotateFollowsHistory(c: Config, run: seq<Event>, states: seq<Memory>, i: nat, id: FamilyId)
    requires c.absoluteTTL > 0 && Valid(c, run, states) && Clocked(run)
    requires i < |run| && run[i].request.Rotate?
    requires Reaches(c, run, History(run, AnswersOf(c, run, states), i, id), i, run[i].request.token)
    ensures
      var at := History(run, AnswersOf(c, run, states), i, id);
      Result(c, run, states, i) == RotationAnswer(c, run, at, i, run[i].request.token)
  {
    var at := History(run, AnswersOf(c, run, states), i, id);
    RecordAt(c, run, states, i, id);
    FreshAt(run, states, i, i);
    EveryStateExact(c, run, states, i);
    hide Step, Valid, Clocked, Inv, History, Tokens, RotationAnswer, RecordOf, FamilyEnd, Made;
    StepOnFamily(c, states[i], run[i].now, run[i].request, id);
    RecordAnswers(c, run, at, i, states[i].families[id], run[i].request.token, run[i].request.next);
  }

  // The family id would exchange the token that call i presents: it is the
  // latest one, it has not expired and no call has ended the family.
  ghost predicate Exchangeable(c: Config, run: seq<Event>, answers: seq<Outcome>, i: nat, id: FamilyId)
    requires i < |run| == |answers|
  {
    var at := History(run, answers, i, id);
    && run[i].request.Rotate? && Made(run, at)
    && run[i].request.token == Latest(run, at)
    && run[i].now < TokenEnd(c, run, at)
    && !Ended(c, run, at, i)
  }

  lemma ExchangeNeedsLiving(c: Config, m: Memory, now: int, token: Digest, next: Digest)
    requires var out := RotateStep(c, m, now, token, next).1; out.Rotated? || out == Failed(Limit)
    ensures Resolves(m, token) && Living(m, m.tokens[token], now)
    ensures
      var f := FamilyOf(m, token);
      !f.revoked && now < f.expires && token == f.current
  {
  }

  lemma ExchangeNeedsHistory(c: Config, run: seq<Event>, states: seq<Memory>, i: nat)
    requires c.absoluteTTL > 0 && Valid(c, run, states) && Clocked(run)
    requires i < |run| && run[i].request.Rotate?
    requires Result(c, run, states, i).Rotated? || Result(c, run, states, i) == Failed(Limit)
    ensures exists id :: Exchangeable(c, run, AnswersOf(c, run, states), i, id)
  {
    ExchangeNeedsLiving(c, states[i], run[i].now, run[i].request.token, run[i].request.next);
    var id := states[i].tokens[run[i].request.token];
    RecordAt(c, run, states, i, id);
    hide Valid, Clocked, RotateStep, Inv, History, Tokens, Ended, RanOut, TokenEnd;
    assert Exchangeable(c, run, AnswersOf(c, run, states), i, id);
  }

  lemma ExchangeIsAnswered(c: Config, run: seq<Event>, states: seq<Memory>, i: nat, id: FamilyId)
    requires c.absoluteTTL > 0 && Valid(c, run, states) && Clocked(run) && i < |run|
    requires Exchangeable(c, run, AnswersOf(c, run, states), i, id)
    ensures Result(c, run, states, i) == Exchange(c, run, History(run, AnswersOf(c, run, states), i, id), i)
  {
    var at := History(run, AnswersOf(c, run, states), i, id);
    TokensSplit(run, at);
    assert Reaches(c, run, at, i, run[i].request.token) by {
      hide Valid, Clocked, Result, History, Tokens, Ended;
    }
    assert RotationAnswer(c, run, at, i, run[i].request.token) == Exchange(c, run, at, i) by {
      hide Valid, Clocked, Result, History, Tokens, Ended, RanOut;
    }
    hide Valid, Clocked, Result, History, Tokens, Ended, RotationAnswer, Exchange, Reaches, Made;
    RotateFollowsHistory(c, run, states, i, id);
  }

  // In every run a rotation is accepted exactly when the token is exchangeable
  // and fewer than 1024 rotations of its family were accepted; after 1024 it
  // meets the limit.
  lemma AcceptedExactly(c: Config, run: seq<Event>, states: seq<Memory>, i: nat)
    requires c.absoluteTTL > 0 && Valid(c, run, states) && Clocked(run)
    requires i < |run| && run[i].request.Rotate?
    ensures
      var answers := AnswersOf(c, run, states);
      && (answers[i].Rotated? || answers[i] == Failed(Limit) ==> exists id :: Exchangeable(c, run, answers, i, id))
      && (forall id :: Exchangeable(c, run, answers, i, id) ==>
            answers[i] == Exchange(c, run, History(run, answers, i, id), i))
  {
    var answers := AnswersOf(c, run, states);
    hide Valid, Clocked, Result, Exchangeable, History, Exchange;
    if answers[i].Rotated? || answers[i] == Failed(Limit) {
      ExchangeNeedsHistory(c, run, states, i);
    }
    forall id | Exchangeable(c, run, answers, i, id)
      ensures Made(run, History(run, answers, i, id)) && answers[i] == Exchange(c, run, History(run, answers, i, id), i)
    {
      ExchangeIsMade(c, run, answers, i, id);
      ExchangeIsAnswered(c, run, states, i, id);
    }
  }

  lemma ExchangeIsMade(c: Config, run: seq<Event>, answers: seq<Outcome>, i: nat, id: FamilyId)
    requires i < |run| == |answers| && Exchangeable(c, run, answers, i, id)
    ensures Made(run, History(run, answers, i, id))
  {
  }

  // Revoking by a token of a family within its lifetime succeeds, unless the
  // family was already found expired.
  lemma RevokeFollowsHistory(c: Config, run: seq<Event>, states: seq<Memory>, i: nat, id: FamilyId)
    requires c.absoluteTTL > 0 && Valid(c, run, states) && Clocked(run)
    requires i < |run| && run[i].request.RevokeFamily?
    requires Reaches(c, run, History(run, AnswersOf(c, run, states), i, id), i, run[i].request.revoked)
    ensures
      var at := History(run, AnswersOf(c, run, states), i, id);
      Result(c, run, states, i) == if RanOut(c, run, at, i) then Failed(Expired) else Done
  {
    RecordAt(c, run, states, i, id);
    FreshAt(run, states, i, i);
    EveryStateExact(c, run, states, i);
    hide Step, Valid, Clocked, Inv, History, Tokens, Ended, RanOut, TokenEnd;
    StepOnFamily(c, states[i], run[i].now, run[i].request, id);
  }

  lemma NotLivingIsRefused(c: Config, m: Memory, now: int, request: Request, token: Digest)
    requires Inv(m) && forall id :: Living(m, id, now) ==> !m.families[id].Owns(token)
    requires request == RevokeFamily(token) || (request.Rotate? && request.token == token)
    ensures Step(c, m, now, request).1 in {Failed(Invalid), Failed(Expired)}
  {
    assert Resolves(m, token) ==> FamilyOf(m, token).absolute <= now;
    hide Inv;
  }

  // A token that reaches no family within its lifetime is refused as invalid or
  // expired.
  lemma UnreachedIsRefused(c: Config, run: seq<Event>, states: seq<Memory>, i: nat, token: Digest)
    requires c.absoluteTTL > 0 && Valid(c, run, states) && Clocked(run) && i < |run|
    requires run[i].request == RevokeFamily(token) || (run[i].request.Rotate? && run[i].request.token == token)
    requires forall id :: !Reaches(c, run, History(run, AnswersOf(c, run, states), i, id), i, token)
    ensures Result(c, run, states, i) in {Failed(Invalid), Failed(Expired)}
  {
    EveryStateExact(c, run, states, i);
    hide Valid, Clocked, Step, Inv, History, Tokens, FamilyEnd, RecordOf;
    forall id | Living(states[i], id, run[i].now)
      ensures !states[i].families[id].Owns(token)
    {
      RecordAt(c, run, states, i, id);
      assert !Reaches(c, run, History(run, AnswersOf(c, run, states), i, id), i, token);
    }
    NotLivingIsRefused(c, states[i], run[i].now, run[i].request, token);
  }

  // Call k was accepted and handed out the token h.
  predicate HandsOut(request: Request, answer: Outcome, h: Digest) {
    Issues(request) && Issued(request) == h && (answer.Started? || answer.Rotated?)
  }

  lemma StepIssues(c: Config, m: Memory, now: int, request: Request, h: Digest)
    requires h in Step(c, m, now, request).0.tokens && h !in m.tokens
    ensures HandsOut(request, Step(c, m, now, request).1, h)
  {
    match request
    case Rotate(token, next) =>
    case RevokeFamily(token) =>
    case Start(_, _, _) =>
    case RevokeUser(_) =>
    case ActiveFamilies(_) =>
  }

  lemma {:induction false} HeldWereHandedOut(c: Config, run: seq<Event>, states: seq<Memory>, i: nat, h: Digest)
    requires Trace(c, run, states) && i <= |run| && h in states[i].tokens
    ensures exists k: nat :: k < i && HandsOut(run[k].request, Result(c, run, states, k), h)
  {
    hide Step, HandsOut;
    if h in states[i - 1].tokens {
      HeldWereHandedOut(c, run, states, i - 1, h);
    } else {
      StepIssues(c, states[i - 1], run[i - 1].now, run[i - 1].request, h);
    }
  }

  // A token that no accepted call handed out is invalid.
  lemma UnknownIsInvalid(c: Config, run: seq<Event>, states: seq<Memory>, i: nat, h: Digest)
    requires Trace(c, run, states) && i < |run|
    requires forall k: nat :: k < i ==> !HandsOut(run[k].request, Result(c, run, states, k), h)
    requires run[i].request == RevokeFamily(h) || (run[i].request.Rotate? && run[i].request.token == h)
    ensures Result(c, run, states, i) == Failed(Invalid)
  {
    if h in states[i].tokens {
      HeldWereHandedOut(c, run, states, i, h);
    }
    hide HandsOut, Trace;
  }

  // The accepted starts before call i whose families are within their lifetime.
  function LiveStarts(c: Config, run: seq<Event>, answers: seq<Outcome>, i: nat): set<nat>
    requires i < |run| == |answers|
  {
    set k: nat | k < i && run[k].request.Start? && answers[k].Started? && run[i].now < run[k].now + c.absoluteTTL
  }

  // The families they started.
  function StartedIds(run: seq<Event>, starts: set<nat>): set<FamilyId>
    requires forall k :: k in starts ==> k < |run| && run[k].request.Start?
  {
    set k | k in starts :: run[k].request.id
  }

  lemma StartHolds(c: Config, m: Memory, now: int, user: Text, id: FamilyId, first: Digest)
    requires StartStep(c, m, now, user, id, first).1.Started?
    ensures id in StartStep(c, m, now, user, id, first).0.families
  {
  }

  // Accepted starts are of different families.
  lemma StartsDiffer(c: Config, run: seq<Event>, states: seq<Memory>, j: nat, k: nat)
    requires Valid(c, run, states) && j < k < |run|
    requires run[j].request.Start? && Result(c, run, states, j).Started? && run[k].request.Start?
    ensures run[j].request.id != run[k].request.id
  {
    var e := run[j];
    StartHolds(c, states[j], e.now, e.request.user, e.request.id, e.request.first);
    FreshAt(run, states, k, j + 1);
    hide StartStep, Fresh;
    assert run[k].request.id in NewIds(run[k].request);
  }

  lemma HistoryKeepsStart(run: seq<Event>, answers: seq<Outcome>, i: nat, id: FamilyId)
    requires i < |run| == |answers|
    ensures
      var at := History(run, answers, i, id);
      var next := History(run, answers, i + 1, id);
      if Opens(run[i].request, answers[i], id) then next == [i]
      else at != [] ==> next != [] && next[0] == at[0]
  {
    HistoryContinues(run, answers, i, id);
    hide History, Opens, Advances, Made;
  }

  lemma {:induction false} HistoryFromOpening(run: seq<Event>, answers: seq<Outcome>, k: nat, i: nat, id: FamilyId)
    requires k < i <= |run| == |answers| && Opens(run[k].request, answers[k], id)
    requires forall j: nat :: k < j < i ==> !Opens(run[j].request, answers[j], id)
    ensures
      var at := History(run, answers, i, id);
      at != [] && at[0] == k
  {
    hide Opens, Advances, Made;
    HistoryKeepsStart(run, answers, i - 1, id);
    if k < i - 1 {
      HistoryFromOpening(run, answers, k, i - 1, id);
    }
  }

  // The history of a family begins with its only accepted start.
  lemma HistoryFromStart(c: Config, run: seq<Event>, states: seq<Memory>, k: nat, i: nat)
    requires Valid(c, run, states) && k < i <= |run|
    requires run[k].request.Start? && Result(c, run, states, k).Started?
    ensures
      var at := History(run, AnswersOf(c, run, states), i, run[k].request.id);
      at != [] && at[0] == k
  {
    var answers := AnswersOf(c, run, states);
    var id := run[k].request.id;
    forall j: nat | k < j < i ensures !Opens(run[j].request, answers[j], id) {
      if run[j].request.Start? {
        StartsDiffer(c, run, states, k, j);
      }
    }
    hide Valid, Result, History, Made;
    HistoryFromOpening(run, answers, k, i, id);
  }

  // The manager holds exactly the families of the live starts.
  lemma LivingWasStarted(c: Config, run: seq<Event>, states: seq<Memory>, i: nat, id: FamilyId)
    requires c.absoluteTTL > 0 && Valid(c, run, states) && Clocked(run) && i < |run|
    ensures Living(states[i], id, run[i].now) <==> id in StartedIds(run, LiveStarts(c, run, AnswersOf(c, run, states), i))
  {
    var answers := AnswersOf(c, run, states);
    RecordAt(c, run, states, i, id);
    HistoryIsChain(run, answers, i, id);
    var at := History(run, answers, i, id);
    hide Valid, Clocked, Result, History, Recorded;
    if id in StartedIds(run, LiveStarts(c, run, answers, i)) {
      var k: nat :| k in LiveStarts(c, run, answers, i) && run[k].request.id == id;
      HistoryFromStart(c, run, states, k, i);
    } else if at != [] && run[i].now < FamilyEnd(c, run, at) {
      assert at[0] in LiveStarts(c, run, answers, i);
    }
  }

  ghost predicate DistinctIds(run: seq<Event>, starts: set<nat>) {
    && (forall k :: k in starts ==> k < |run| && run[k].request.Start?)
    && (forall j, k :: j in starts && k in starts && j != k ==> run[j].request.id != run[k].request.id)
  }

  lemma {:induction false} AsManyIds(run: seq<Event>, starts: set<nat>)
    requires DistinctIds(run, starts)
    ensures |StartedIds(run, starts)| == |starts|
  {
    if starts == {} {
      assert StartedIds(run, starts) == {};
    } else {
      var k :| k in starts;
      var rest := starts - {k};
      AsManyIds(run, rest);
      assert StartedIds(run, starts) == StartedIds(run, rest) + {run[k].request.id};
      assert run[k].request.id !in StartedIds(run, rest);
    }
  }

  lemma LiveStartsDiffer(c: Config, run: seq<Event>, states: seq<Memory>, i: nat)
    requires Valid(c, run, states) && i < |run|
    ensures DistinctIds(run, LiveStarts(c, run, AnswersOf(c, run, states), i))
  {
    var starts := LiveStarts(c, run, AnswersOf(c, run, states), i);
    forall j, k | j in starts && k in starts && j != k
      ensures run[j].request.id != run[k].request.id
    {
      StartsDiffer(c, run, states, if j < k then j else k, if j < k then k else j);
    }
  }

  // A start is accepted exactly when fewer than MaxFamilies accepted starts are
  // within their lifetime.
  lemma StartedExactly(c: Config, run: seq<Event>, states: seq<Memory>, i: nat)
    requires c.absoluteTTL > 0 && Valid(c, run, states) && Clocked(run) && i < |run| && run[i].request.Start?
    ensures
      Result(c, run, states, i)
        == if |LiveStarts(c, run, AnswersOf(c, run, states), i)| < c.maxFamilies
           then Started(Min(run[i].now + c.refreshTTL, run[i].now + c.absoluteTTL))
           else Failed(Limit)
  {
    var starts := LiveStarts(c, run, AnswersOf(c, run, states), i);
    LiveStartsDiffer(c, run, states, i);
    AsManyIds(run, starts);
    forall id ensures Living(states[i], id, run[i].now) <==> id in StartedIds(run, starts) {
      LivingWasStarted(c, run, states, i, id);
    }
    assert Alive(states[i], run[i].now).Keys == StartedIds(run, starts);
    hide Valid, Clocked, LiveStarts, StartedIds;
  }

  // Those of the user whose latest token lasts and which no call has ended.
  ghost function ActiveStarts(c: Config, run: seq<Event>, answers: seq<Outcome>, i: nat, user: Text): set<nat>
    requires i < |run| == |answers|
  {
    set k | k in LiveStarts(c, run, answers, i) && run[k].request.user == user
            && InUse(c, run, History(run, answers, i, run[k].request.id), i)
  }

  ghost predicate InUse(c: Config, run: seq<Event>, at: seq<nat>, i: nat)
    requires i < |run|
  {
    Made(run, at) && run[i].now < TokenEnd(c, run, at) && !Ended(c, run, at, i)
  }

  lemma RecordInUse(c: Config, run: seq<Event>, at: seq<nat>, i: nat, f: Family, user: Text)
    requires Made(run, at) && i < |run| && Recorded(c, run, at, i, f)
    ensures Usable(f, user, run[i].now) <==> UserOf(run, at) == user && InUse(c, run, at, i)
  {
    hide Tokens, Ended, RanOut, TokenEnd, Made;
  }

  predicate UsableNow(m: Memory, id: FamilyId, user: Text, now: int) {
    Living(m, id, now) && Usable(m.families[id], user, now)
  }

  lemma LiveStartIsFirst(c: Config, run: seq<Event>, states: seq<Memory>, i: nat, k: nat)
    requires Valid(c, run, states) && i < |run| && k in LiveStarts(c, run, AnswersOf(c, run, states), i)
    ensures
      var at := History(run, AnswersOf(c, run, states), i, run[k].request.id);
      at != [] && at[0] == k
  {
    HistoryFromStart(c, run, states, k, i);
  }

  // A live start is of a usable family exactly when it is active.
  lemma StartIsUsable(c: Config, run: seq<Event>, states: seq<Memory>, i: nat, k: nat, user: Text)
    requires c.absoluteTTL > 0 && Valid(c, run, states) && Clocked(run) && i < |run|
    requires k in LiveStarts(c, run, AnswersOf(c, run, states), i)
    ensures
      UsableNow(states[i], run[k].request.id, user, run[i].now)
      <==> k in ActiveStarts(c, run, AnswersOf(c, run, states), i, user)
  {
    var answers := AnswersOf(c, run, states);
    var id := run[k].request.id;
    var at := History(run, answers, i, id);
    RecordAt(c, run, states, i, id);
    LiveStartIsFirst(c, run, states, i, k);
    assert Living(states[i], id, run[i].now);
    hide Valid, Clocked, Result, History, Recorded, InUse, Made, Usable, FamilyEnd;
    RecordInUse(c, run, at, i, states[i].families[id], user);
  }

  lemma UsableIsActive(c: Config, run: seq<Event>, states: seq<Memory>, i: nat, id: FamilyId, user: Text)
    requires c.absoluteTTL > 0 && Valid(c, run, states) && Clocked(run) && i < |run|
    ensures
      UsableNow(states[i], id, user, run[i].now)
      <==> id in StartedIds(run, ActiveStarts(c, run, AnswersOf(c, run, states), i, user))
  {
    var answers := AnswersOf(c, run, states);
    var starts, active := LiveStarts(c, run, answers, i), ActiveStarts(c, run, answers, i, user);
    assert active <= starts;
    LivingWasStarted(c, run, states, i, id);
    forall k | k in starts
      ensures UsableNow(states[i], run[k].request.id, user, run[i].now) <==> k in active
    {
      StartIsUsable(c, run, states, i, k, user);
    }
    hide Valid, Clocked, Result, ActiveStarts, Usable;
  }

  // RevokeUser and ActiveFamilies count exactly these.
  lemma CountedExactly(c: Config, run: seq<Event>, states: seq<Memory>, i: nat, user: Text)
    requires c.absoluteTTL > 0 && Valid(c, run, states) && Clocked(run) && i < |run|
    requires run[i].request == RevokeUser(user) || run[i].request == ActiveFamilies(user)
    ensures Result(c, run, states, i) == Count(|ActiveStarts(c, run, AnswersOf(c, run, states), i, user)|)
  {
    var active := ActiveStarts(c, run, AnswersOf(c, run, states), i, user);
    LiveStartsDiffer(c, run, states, i);
    AsManyIds(run, active);
    var now := run[i].now;
    forall id ensures UsableNow(states[i], id, user, now) <==> id in StartedIds(run, active) {
      UsableIsActive(c, run, states, i, id, user);
    }
    assert UsableIds(Alive(states[i], now), user, now) == StartedIds(run, active);
    hide Valid, Clocked, LiveStarts, StartedIds, UsableIds, ActiveStarts;
  }

  // One start, then rotations of the latest token, all at once.
  function Busy(user: Text, id: FamilyId, tokens: seq<Digest>): (run: seq<Event>)
    ensures |run| == |tokens|
  {
    seq(|tokens|, k requires 0 <= k < |tokens| =>
      Event(1, if k == 0 then Start(user, id, tokens[0]) else Rotate(tokens[k - 1], tokens[k])))
  }

  lemma BusyIsDrawnOnce(user: Text, id: FamilyId, tokens: seq<Digest>)
    requires forall j, k :: 0 <= j < k < |tokens| ==> tokens[j] != tokens[k]
    ensures DrawnOnce(Busy(user, id, tokens)) && Clocked(Busy(user, id, tokens))
  {
  }

  function UpTo(k: nat): (at: seq<nat>)
    ensures |at| == k
  {
    seq(k, j requires 0 <= j < k => j)
  }

  lemma BusyIsMade(c: Config, user: Text, id: FamilyId, tokens: seq<Digest>, k: nat)
    requires 0 < k < |tokens| && 0 < c.refreshTTL <= c.absoluteTTL
    ensures
      var run := Busy(user, id, tokens);
      && Made(run, UpTo(k)) && Latest(run, UpTo(k)) == tokens[k - 1]
      && TokenEnd(c, run, UpTo(k)) > 1 && !Ended(c, run, UpTo(k), k)
  {
  }

  lemma BusyStarts(c: Config, user: Text, id: FamilyId, tokens: seq<Digest>, states: seq<Memory>)
    requires 0 < c.refreshTTL <= c.absoluteTTL && 0 < c.maxFamilies && |tokens| > 0
    requires Valid(c, Busy(user, id, tokens), states) && Clocked(Busy(user, id, tokens))
    ensures History(Busy(user, id, tokens), AnswersOf(c, Busy(user, id, tokens), states), 1, id) == UpTo(1)
  {
    var run := Busy(user, id, tokens);
    var answers := AnswersOf(c, run, states);
    HistoryContinues(run, answers, 0, id);
    assert run[0] == Event(1, Start(user, id, tokens[0]));
    assert LiveStarts(c, run, answers, 0) == {};
    hide Valid, Clocked, Result, History, Busy, LiveStarts;
    StartedExactly(c, run, states, 0);
  }

  // The state of the family before call k: it was made by all calls so far.
  lemma {:induction false} BusyHistory(c: Config, user: Text, id: FamilyId, tokens: seq<Digest>, states: seq<Memory>, k: nat)
    requires 0 < c.refreshTTL <= c.absoluteTTL && 0 < c.maxFamilies
    requires Valid(c, Busy(user, id, tokens), states) && Clocked(Busy(user, id, tokens))
    requires 0 < k <= 1025 && k <= |tokens|
    ensures History(Busy(user, id, tokens), AnswersOf(c, Busy(user, id, tokens), states), k, id) == UpTo(k)
  {
    var run := Busy(user, id, tokens);
    assert |states| == |run| + 1;
    hide Valid, Clocked, Result, History, Busy, Ended, Latest, TokenEnd, Made, Opens, Advances, Issued, Issues;
    if k == 1 {
      BusyStarts(c, user, id, tokens, states);
    } else {
      BusyHistory(c, user, id, tokens, states, k - 1);
      BusyIsAnswered(c, user, id, tokens, states, k - 1);
      BusyGoesOn(c, user, id, tokens, AnswersOf(c, run, states), k - 1);
    }
  }

  lemma BusyGoesOn(c: Config, user: Text, id: FamilyId, tokens: seq<Digest>, answers: seq<Outcome>, k: nat)
    requires 0 < k < |tokens| && |answers| == |tokens|
    requires
      var run := Busy(user, id, tokens);
      && History(run, answers, k, id) == UpTo(k) && Made(run, UpTo(k))
      && Advances(run[k].request, answers[k], Latest(run, UpTo(k)))
    ensures History(Busy(user, id, tokens), answers, k + 1, id) == UpTo(k + 1)
  {
    hide History, Made, Issued;
    HistoryContinues(Busy(user, id, tokens), answers, k, id);
    assert UpTo(k) + [k] == UpTo(k + 1);
  }

  // The exchange that call k meets.
  lemma BusyExchange(c: Config, user: Text, id: FamilyId, tokens: seq<Digest>, k: nat)
    requires 0 < c.refreshTTL <= c.absoluteTTL && 0 < k < |tokens|
    ensures
      var run := Busy(user, id, tokens);
      && Made(run, UpTo(k))
      && Exchange(c, run, UpTo(k), k) == (if k <= 1024 then Rotated(1 + c.refreshTTL) else Failed(Limit))
      && run[k].request.Rotate? && run[k].request.token == Latest(run, UpTo(k)) && run[k].now == 1
  {
    BusyIsMade(c, user, id, tokens, k);
    hide Latest, Ended, TokenEnd;
  }

  lemma BusyIsAnswered(c: Config, user: Text, id: FamilyId, tokens: seq<Digest>, states: seq<Memory>, k: nat)
    requires 0 < c.refreshTTL <= c.absoluteTTL
    requires Valid(c, Busy(user, id, tokens), states) && Clocked(Busy(user, id, tokens))
    requires 0 < k < |tokens|
    requires History(Busy(user, id, tokens), AnswersOf(c, Busy(user, id, tokens), states), k, id) == UpTo(k)
    ensures
      Result(c, Busy(user, id, tokens), states, k) == if k <= 1024 then Rotated(1 + c.refreshTTL) else Failed(Limit)
    ensures
      var run := Busy(user, id, tokens);
      Made(run, UpTo(k)) && Advances(run[k].request, Result(c, run, states, k), Latest(run, UpTo(k))) == (k <= 1024)
  {
    var run := Busy(user, id, tokens);
    var answers := AnswersOf(c, run, states);
    hide Valid, Clocked, Result, History, Busy, Ended, Latest, TokenEnd, Made, Exchange;
    BusyIsMade(c, user, id, tokens, k);
    BusyExchange(c, user, id, tokens, k);
    ExchangeIsAnswered(c, run, states, k, id);
  }

  // The limit is attained: from a single start, 1024 rotations in a row are
  // accepted and the next one meets the limit.
  lemma ThousandRotations(c: Config, user: Text, id: FamilyId, tokens: seq<Digest>)
    requires 0 < c.refreshTTL <= c.absoluteTTL && 0 < c.maxFamilies
    requires |tokens| == 1026 && forall j, k :: 0 <= j < k < |tokens| ==> tokens[j] != tokens[k]
    ensures
      var run := Busy(user, id, tokens);
      var states := StatesOf(c, run);
      && Valid(c, run, states) && Clocked(run)
      && (forall k :: 1 <= k <= 1024 ==> Result(c, run, states, k) == Rotated(1 + c.refreshTTL))
      && Result(c, run, states, 1025) == Failed(Limit)
  {
    var run := Busy(user, id, tokens);
    var states := StatesOf(c, run);
    BusyIsDrawnOnce(user, id, tokens);
    hide Step, DrawnOnce, Valid, Result, Busy, Clocked, History;
    DrawnRunIsValid(c, run);
    forall k: nat | 1 <= k <= 1025
      ensures Result(c, run, states, k) == if k <= 1024 then Rotated(1 + c.refreshTTL) else Failed(Limit)
    {
      BusyHistory(c, user, id, tokens, states, k);
      BusyIsAnswered(c, user, id, tokens, states, k);
    }
  }
}
