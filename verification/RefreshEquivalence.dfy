// The two refresh stores side by side, over whole runs.

module RefreshEquivalence {
  import opened Common
  import opened Hashing
  import opened RefreshTypes
  import opened RedisKeys
  import opened RefreshSimulation
  import opened RefreshRuns
  import M = RefreshMemory
  import R = RefreshScripts

  // Both stores answer alike up to the choice of error code. Revoking a family
  // twice is an error for Redis only.
  predicate SameAnswer(request: Request, memory: Outcome, redis: Outcome) {
    match request
    case RevokeFamily(_) =>
      && (redis.Done? ==> memory.Done?)
      && (memory.Done? ==> redis.Done? || redis == Failed(Revoked))
    case _ => memory == redis || (memory.Failed? && redis.Failed?)
  }

  lemma StartSimulates(c: Config, m: M.Memory, s: R.Store, now: int, user: Text, id: FamilyId, first: Digest)
    requires c.Valid() && now >= 1 && Represents(s, M.Alive(m, now), now)
    requires Unwritten(s, Start(user, id, first))
    ensures
      var (n, out) := M.StartStep(c, m, now, user, id, first);
      var (t, reply) := R.Step(c, s, now, Start(user, id, first));
      Represents(t, M.Alive(n, now), now) && out == reply
  {
    hide Represents, R.Create, Unwritten, M.Cleanup;
    AliveAfterCleanup(m, now);
    var absolute := now + c.absoluteTTL;
    var f := M.Family(user, absolute, first, Min(now + c.refreshTTL, absolute), {}, false, false);
    CreateRepresents(c, s, M.Alive(m, now), now, id, f);
    AliveAfterStart(c, m, now, user, id, first);
  }

  lemma AliveAfterStart(c: Config, m: M.Memory, now: int, user: Text, id: FamilyId, first: Digest)
    requires c.Valid()
    ensures
      var absolute := now + c.absoluteTTL;
      var f := M.Family(user, absolute, first, Min(now + c.refreshTTL, absolute), {}, false, false);
      var (n, out) := M.StartStep(c, m, now, user, id, first);
      if |M.Alive(m, now)| >= c.maxFamilies then out == Failed(Limit) && M.Alive(n, now) == M.Alive(m, now)
      else out == Started(f.expires) && M.Alive(n, now) == M.Alive(m, now)[id := f]
  {
  }

  lemma NextIsNew(m: M.Memory, s: R.Store, token: Digest, next: Digest)
    requires Unwritten(s, Rotate(token, next)) && NewTokens(Rotate(token, next)) !! m.tokens.Keys
    ensures next !in m.tokens && next !in s.token
  {
    assert next in NewTokens(Rotate(token, next));
  }

  // What the manager is asked when Redis is asked this: Redis refuses a user-wide
  // call on an index that is too large, which is as if it had only counted.
  function Asked(s: R.Store, request: Request): Request {
    match request
    case RevokeUser(user) => if IndexFits(s, request) then request else ActiveFamilies(user)
    case _ => request
  }

  // A refused user-wide call answers zero and leaves the store as it was.
  predicate Refused(s: R.Store, t: R.Store, reply: Outcome) {
    t == s && reply == Count(0)
  }

  // One call on both stores.
  lemma StepSimulates(c: Config, m: M.Memory, s: R.Store, now: int, request: Request)
    requires c.Valid() && now >= 1 && M.Inv(m) && M.Bounded(c, m)
    requires Represents(s, M.Alive(m, now), now)
    requires Unwritten(s, request) && NewTokens(request) !! m.tokens.Keys
    ensures
      var (n, out) := M.Step(c, m, now, Asked(s, request));
      var (t, reply) := R.Step(c, s, now, request);
      && Represents(t, M.Alive(n, now), now)
      && (if IndexFits(s, request) then SameAnswer(request, out, reply) else Refused(s, t, reply))
  {
    hide Represents, R.Step, M.Inv, M.Bounded, Unwritten, LiveToken;
    hide M.StartStep, M.RotateStep, M.RevokeFamilyStep, M.RevokeUserStep, M.ActiveFamiliesStep;
    match request
    case Start(user, id, first) => StartSimulates(c, m, s, now, user, id, first);
    case Rotate(token, next) =>
      NextIsNew(m, s, token, next);
      RotateSimulates(c, m, s, now, token, next);
    case RevokeFamily(token) =>
      RevokeFamilyAnswersAlike(c, m, s, now, token);
    case RevokeUser(user) =>
      UsableBounded(c, m, now, user);
      LargeIndexIsRefused(c, m, s, now, user);
      if IndexFits(s, request) {
        RevokeUserSimulates(c, m, s, now, user);
      }
    case ActiveFamilies(user) =>
      UsableBounded(c, m, now, user);
      LargeIndexIsRefused(c, m, s, now, user);
      if IndexFits(s, request) {
        ActiveFamiliesSimulates(c, m, s, now, user);
      }
  }

  lemma LargeIndexIsRefused(c: Config, m: M.Memory, s: R.Store, now: int, user: Text)
    requires Represents(s, M.Alive(m, now), now)
    ensures M.Alive(M.ActiveFamiliesStep(m, now, user).0, now) == M.Alive(m, now)
    ensures !IndexFits(s, RevokeUser(user)) ==>
              && R.Step(c, s, now, RevokeUser(user)) == (s, Count(0))
              && R.Step(c, s, now, ActiveFamilies(user)) == (s, Count(0))
  {
    AliveAfterCleanup(m, now);
    hide Represents, R.UsableEntries, R.Prune, R.MarkRevoked, M.Alive;
  }

  lemma RevokeFamilyAnswersAlike(c: Config, m: M.Memory, s: R.Store, now: int, token: Digest)
    requires now >= 1 && M.Inv(m) && Represents(s, M.Alive(m, now), now)
    ensures
      var (n, out) := M.RevokeFamilyStep(m, now, token);
      var (t, reply) := R.Step(c, s, now, RevokeFamily(token));
      Represents(t, M.Alive(n, now), now) && SameAnswer(RevokeFamily(token), out, reply)
  {
    hide Represents, R.Step, M.Inv, M.RevokeFamilyStep;
    ExpiredIsRevoked(m, s, now);
    RevokeFamilySimulates(c, m, s, now, token);
  }

  lemma ExpiredIsRevoked(m: M.Memory, s: R.Store, now: int)
    requires Represents(s, M.Alive(m, now), now)
    ensures forall h :: LiveToken(m, now, h) && M.FamilyOf(m, h).expired ==> M.FamilyOf(m, h).revoked
  {
    forall h | LiveToken(m, now, h) && M.FamilyOf(m, h).expired
      ensures M.FamilyOf(m, h).revoked
    {
      assert Stored(s, m.tokens[h], M.Alive(m, now)[m.tokens[h]]);
    }
  }

  lemma UsableBounded(c: Config, m: M.Memory, now: int, user: Text)
    requires c.Valid() && M.Bounded(c, m)
    ensures |M.UsableIds(M.Alive(m, now), user, now)| <= 10000
  {
    SubsetSize(M.UsableIds(M.Alive(m, now), user, now), m.families.Keys);
  }

  // Any calls on Redis: before call i the store is ss[i].
  ghost predicate RedisRun(c: Config, run: seq<Event>, ss: seq<R.Store>) {
    && c.Valid() && Clocked(run) && DrawnOnce(run)
    && |ss| == |run| + 1 && ss[0] == R.Empty
    && (forall i :: 0 <= i < |run| ==> ss[i + 1] == R.Step(c, ss[i], run[i].now, run[i].request).0)
  }

  // Every identifier and token hash in the store is one of these.
  ghost predicate Written(s: R.Store, ids: set<FamilyId>, tokens: set<Digest>) {
    && s.token.Keys <= tokens && s.family.Keys <= ids && s.used.Keys <= ids
    && forall o, id :: o in s.user && R.Hex32(id) in s.user[o] ==> id in ids
  }

  lemma RotateWrites(s: R.Store, now: int, token: Digest, next: Digest, refreshTTL: int, maximum: int,
                     ids: set<FamilyId>, tokens: set<Digest>)
    requires Written(s, ids, tokens)
    ensures Written(R.Rotate(s, now, token, next, refreshTTL, maximum).0, ids, tokens + {next})
  {
    hide R.Consistent, R.Members;
  }

  lemma CreateWrites(s: R.Store, now: int, absolute: int, expires: int, maxFamilies: int, owner: Digest,
                     id: FamilyId, token: Digest, ids: set<FamilyId>, tokens: set<Digest>)
    requires Written(s, ids, tokens)
    ensures Written(R.Create(s, now, absolute, expires, maxFamilies, owner, id, token).0, ids + {id}, tokens + {token})
  {
    hide Written, R.Insert;
    InsertWrites(s, now, absolute, expires, owner, id, token, ids, tokens);
  }

  lemma InsertWrites(s: R.Store, now: int, absolute: int, expires: int, owner: Digest,
                     id: FamilyId, token: Digest, ids: set<FamilyId>, tokens: set<Digest>)
    requires Written(s, ids, tokens)
    ensures Written(R.DropExpired(s, now), ids + {id}, tokens + {token})
    ensures Written(R.Insert(R.DropExpired(s, now), absolute, expires, owner, id, token), ids + {id}, tokens + {token})
  {
  }

  lemma RevokeFamilyWrites(s: R.Store, now: int, token: Digest, maximum: int, ids: set<FamilyId>, tokens: set<Digest>)
    requires Written(s, ids, tokens)
    ensures Written(R.RevokeFamily(s, now, token, maximum).0, ids, tokens)
  {
    hide R.Consistent;
  }

  lemma UserWideWrites(s: R.Store, now: int, owner: Digest, maximum: int, ids: set<FamilyId>, tokens: set<Digest>)
    requires Written(s, ids, tokens)
    ensures Written(R.RevokeUser(s, now, owner, maximum).0, ids, tokens)
    ensures Written(R.ActiveFamilies(s, now, owner, maximum).0, ids, tokens)
  {
    hide R.UserValid, R.UsableEntries, R.StaleEntries;
  }

  lemma WritesMore(s: R.Store, ids: set<FamilyId>, tokens: set<Digest>, request: Request)
    requires Written(s, ids, tokens)
    ensures Written(s, ids + NewIds(request), tokens + NewTokens(request))
  {
  }

  lemma StepWrites(c: Config, s: R.Store, now: int, request: Request, ids: set<FamilyId>, tokens: set<Digest>)
    requires Written(s, ids, tokens)
    ensures Written(R.Step(c, s, now, request).0, ids + NewIds(request), tokens + NewTokens(request))
  {
    hide R.Create, R.Rotate, R.RevokeFamily, R.RevokeUser, R.ActiveFamilies, Written;
    WritesMore(s, ids, tokens, request);
    match request
    case Start(user, id, first) =>
      var absolute := now + c.absoluteTTL;
      CreateWrites(s, now, absolute, Min(now + c.refreshTTL, absolute), c.maxFamilies, Sha256(user), id, first, ids, tokens);
    case Rotate(token, next) =>
      assert ids + NewIds(request) == ids;
      RotateWrites(s, now, token, next, c.refreshTTL, MAX_TOKENS_PER_FAMILY, ids, tokens);
    case RevokeFamily(token) =>
      assert ids + NewIds(request) == ids && tokens + NewTokens(request) == tokens;
      RevokeFamilyWrites(s, now, token, MAX_TOKENS_PER_FAMILY, ids, tokens);
    case RevokeUser(user) =>
      assert ids + NewIds(request) == ids && tokens + NewTokens(request) == tokens;
      UserWideWrites(s, now, Sha256(user), MAX_FAMILY_INVENTORY, ids, tokens);
    case ActiveFamilies(user) =>
      assert ids + NewIds(request) == ids && tokens + NewTokens(request) == tokens;
      UserWideWrites(s, now, Sha256(user), MAX_FAMILY_INVENTORY, ids, tokens);
  }

  function DrawnIds(run: seq<Event>, i: nat): set<FamilyId>
    requires i <= |run|
  {
    set k, id | 0 <= k < i && id in NewIds(run[k].request) :: id
  }

  function DrawnTokens(run: seq<Event>, i: nat): set<Digest>
    requires i <= |run|
  {
    set k, h | 0 <= k < i && h in NewTokens(run[k].request) :: h
  }

  lemma {:induction false} WrittenWereDrawn(c: Config, run: seq<Event>, ss: seq<R.Store>, i: nat)
    requires RedisRun(c, run, ss) && i <= |run|
    ensures |ss| == |run| + 1 && Written(ss[i], DrawnIds(run, i), DrawnTokens(run, i))
  {
    hide RedisRun, R.Step, Written, DrawnIds, DrawnTokens, NewIds, NewTokens;
    RedisAt(c, run, ss, i);
    if i == 0 {
      NothingWritten(run);
    } else {
      WrittenWereDrawn(c, run, ss, i - 1);
      DrawnOneMore(run, i - 1);
      StepWrites(c, ss[i - 1], run[i - 1].now, run[i - 1].request, DrawnIds(run, i - 1), DrawnTokens(run, i - 1));
    }
  }

  lemma RedisAt(c: Config, run: seq<Event>, ss: seq<R.Store>, i: nat)
    requires RedisRun(c, run, ss) && i <= |run|
    ensures |ss| == |run| + 1
    ensures if i == 0 then ss[i] == R.Empty else ss[i] == R.Step(c, ss[i - 1], run[i - 1].now, run[i - 1].request).0
  {
    hide R.Step, DrawnOnce, Clocked;
  }

  lemma NothingWritten(run: seq<Event>)
    ensures Written(R.Empty, DrawnIds(run, 0), DrawnTokens(run, 0))
  {
  }

  lemma DrawnOneMore(run: seq<Event>, i: nat)
    requires i < |run|
    ensures DrawnIds(run, i + 1) == DrawnIds(run, i) + NewIds(run[i].request)
    ensures DrawnTokens(run, i + 1) == DrawnTokens(run, i) + NewTokens(run[i].request)
  {
    hide NewIds, NewTokens;
  }

  // What a call draws is not in the store.
  lemma DrawnIsUnwritten(c: Config, run: seq<Event>, ss: seq<R.Store>, i: nat)
    requires RedisRun(c, run, ss) && i < |run|
    ensures Unwritten(ss[i], run[i].request)
  {
    hide R.Step;
    WrittenWereDrawn(c, run, ss, i);
  }

  function RedisResult(c: Config, run: seq<Event>, ss: seq<R.Store>, i: nat): Outcome
    requires i < |run| && i < |ss|
  {
    R.Step(c, ss[i], run[i].now, run[i].request).1
  }

  // The calls that the manager gets when Redis gets these.
  function Followed(run: seq<Event>, ss: seq<R.Store>): (calls: seq<Event>)
    requires |ss| >= |run|
    ensures |calls| == |run|
  {
    seq(|run|, i requires 0 <= i < |run| => Event(run[i].now, Asked(ss[i], run[i].request)))
  }

  // The states of the manager that gets them.
  function ManagerStates(c: Config, run: seq<Event>, ss: seq<R.Store>): (ms: seq<M.Memory>)
    requires |ss| >= |run|
    ensures |ms| == |run| + 1
  {
    StatesOf(c, Followed(run, ss))
  }

  // As long as every index fits, the manager gets the same calls.
  lemma FittingRunIsFollowed(run: seq<Event>, ss: seq<R.Store>)
    requires |ss| >= |run| && forall i :: 0 <= i < |run| ==> IndexFits(ss[i], run[i].request)
    ensures Followed(run, ss) == run
  {
  }

  // The manager's side of a run is one of its own runs.
  lemma ManagerRuns(c: Config, run: seq<Event>, ss: seq<R.Store>)
    requires RedisRun(c, run, ss)
    ensures Valid(c, Followed(run, ss), ManagerStates(c, run, ss))
  {
    hide M.Step, R.Step, Unwritten, IndexFits;
    SameDraws(run, ss);
    DrawnRunIsValid(c, Followed(run, ss));
  }

  lemma SameDraws(run: seq<Event>, ss: seq<R.Store>)
    requires |ss| >= |run| && DrawnOnce(run)
    ensures DrawnOnce(Followed(run, ss))
  {
    hide IndexFits;
  }

  // Call i found and left the same live families in both stores, and both
  // answered alike unless Redis refused it for the size of an index.
  ghost predicate Alike(c: Config, e: Event, m: M.Memory, s: R.Store, n: M.Memory, t: R.Store) {
    && Represents(s, M.Alive(m, e.now), e.now)
    && Represents(t, M.Alive(n, e.now), e.now)
    && var reply := R.Step(c, s, e.now, e.request).1;
       if IndexFits(s, e.request) then SameAnswer(e.request, M.Step(c, m, e.now, e.request).1, reply)
       else Refused(s, t, reply)
  }

  // Simulation over every run.
  lemma {:induction false} RunSimulates(c: Config, run: seq<Event>, ss: seq<R.Store>, i: nat)
    requires RedisRun(c, run, ss) && i < |run|
    ensures |ss| == |run| + 1
    ensures var ms := ManagerStates(c, run, ss); Alike(c, run[i], ms[i], ss[i], ms[i + 1], ss[i + 1])
  {
    hide RedisRun, Alike, Represents, M.Step, R.Step, M.Alive, Unwritten, IndexFits, M.Inv, M.Bounded, ManagerStates;
    var ms := JointAt(c, run, ss, i);
    if i == 0 {
      EmptyRepresents(run[i].now);
    } else {
      RunSimulates(c, run, ss, i - 1);
      StillAlike(c, run[i - 1], ms[i - 1], ss[i - 1], ms[i], ss[i], run[i].now);
    }
    StepAlike(c, run[i], ms[i], ss[i]);
  }

  // What a run says of its call i, on both sides.
  lemma JointAt(c: Config, run: seq<Event>, ss: seq<R.Store>, i: nat) returns (ms: seq<M.Memory>)
    requires RedisRun(c, run, ss) && i < |run|
    ensures |ss| == |run| + 1 && ms == ManagerStates(c, run, ss) && |ms| == |run| + 1
    ensures c.Valid() && run[i].now >= 1
    ensures i > 0 ==> run[i - 1].now <= run[i].now
    ensures i == 0 ==> ms[i] == M.Empty && ss[i] == R.Empty
    ensures ms[i + 1] == M.Step(c, ms[i], run[i].now, Asked(ss[i], run[i].request)).0
    ensures ss[i + 1] == R.Step(c, ss[i], run[i].now, run[i].request).0
    ensures Unwritten(ss[i], run[i].request)
    ensures NewTokens(run[i].request) !! ms[i].tokens.Keys
    ensures M.Inv(ms[i]) && M.Bounded(c, ms[i])
  {
    hide M.Step, R.Step, Unwritten, IndexFits, M.Inv, M.Bounded;
    ms := ManagerStates(c, run, ss);
    ManagerRuns(c, run, ss);
    DrawnIsUnwritten(c, run, ss, i);
    FreshAt(Followed(run, ss), ms, i, i);
    EveryStateExact(c, Followed(run, ss), ms, i);
    EveryStateBounded(c, Followed(run, ss), ms, i);
    hide Fresh;
  }

  lemma EmptyRepresents(now: int)
    ensures Represents(R.Empty, M.Alive(M.Empty, now), now)
  {
  }

  lemma StillAlike(c: Config, e: Event, m: M.Memory, s: R.Store, n: M.Memory, t: R.Store, later: int)
    requires Alike(c, e, m, s, n, t) && e.now <= later
    ensures Represents(t, M.Alive(n, later), later)
  {
    hide Represents, M.Alive, M.Step, R.Step;
    TimePasses(t, n, e.now, later);
  }

  lemma StepAlike(c: Config, e: Event, m: M.Memory, s: R.Store)
    requires c.Valid() && e.now >= 1 && M.Inv(m) && M.Bounded(c, m)
    requires Represents(s, M.Alive(m, e.now), e.now)
    requires Unwritten(s, e.request) && NewTokens(e.request) !! m.tokens.Keys
    ensures Alike(c, e, m, s, M.Step(c, m, e.now, Asked(s, e.request)).0, R.Step(c, s, e.now, e.request).0)
  {
    hide Represents, M.Alive, M.Step, R.Step, M.Inv, M.Bounded, IndexFits, Unwritten;
    StepSimulates(c, m, s, e.now, e.request);
  }

  // What Redis and the manager make of one rotation in a run.
  lemma RotationIsFollowed(c: Config, run: seq<Event>, ss: seq<R.Store>, i: nat)
    requires RedisRun(c, run, ss) && i < |run| && run[i].request.Rotate?
    ensures |ss| == |run| + 1 && Valid(c, Followed(run, ss), ManagerStates(c, run, ss))
    ensures Followed(run, ss)[i].request == run[i].request
    ensures RedisResult(c, run, ss, i).Rotated? ==>
              Result(c, Followed(run, ss), ManagerStates(c, run, ss), i).Rotated?
  {
    hide RedisRun, Represents, M.Step, R.Step, Valid, ManagerStates;
    var ms := JointAt(c, run, ss, i);
    ManagerRuns(c, run, ss);
    RunSimulates(c, run, ss, i);
  }

  // The replay guarantees carry over to every run of Redis, whatever the size of
  // its indexes: it accepts a token at most once.
  lemma RedisAcceptsAtMostOnce(c: Config, run: seq<Event>, ss: seq<R.Store>, i: nat, j: nat, h: Digest)
    requires RedisRun(c, run, ss) && |ss| == |run| + 1 && i < j < |run|
    requires run[i].request.Rotate? && run[i].request.token == h && RedisResult(c, run, ss, i).Rotated?
    requires run[j].request.Rotate? && run[j].request.token == h
    ensures !RedisResult(c, run, ss, j).Rotated?
  {
    hide RedisRun, M.Step, R.Step, Valid, ManagerStates, Followed;
    RotationIsFollowed(c, run, ss, i);
    RotationIsFollowed(c, run, ss, j);
    AcceptedAtMostOnce(c, Followed(run, ss), ManagerStates(c, run, ss), i, j, h);
  }

  // In Redis the token h leads to the family id.
  predicate LeadsTo(s: R.Store, now: int, h: Digest, id: FamilyId) {
    Get(s.token, h, now) == Some(R.Hex32(id))
  }

  lemma LeadsToFamily(s: R.Store, m: M.Memory, now: int, h: Digest, id: FamilyId)
    requires Represents(s, M.Alive(m, now), now) && M.Inv(m) && LeadsTo(s, now, h, id)
    ensures h in m.tokens && m.tokens[h] == id
  {
    assert M.Registered(m, id, m.families[id]);
  }

  lemma LeadsInManager(c: Config, run: seq<Event>, ss: seq<R.Store>, i: nat, h: Digest, id: FamilyId)
    requires RedisRun(c, run, ss) && |ss| == |run| + 1 && i < |run| && LeadsTo(ss[i], run[i].now, h, id)
    ensures var ms := ManagerStates(c, run, ss); h in ms[i].tokens && ms[i].tokens[h] == id
  {
    hide RedisRun, Represents, M.Step, R.Step, M.Alive, M.Inv, ManagerStates, LeadsTo, SameAnswer;
    var ms := JointAt(c, run, ss, i);
    RunSimulates(c, run, ss, i);
    LeadsToFamily(ss[i], ms[i], run[i].now, h, id);
  }

  // Once an accepted token is presented again, Redis accepts no token of its
  // family.
  lemma RedisReplayEndsFamily(c: Config, run: seq<Event>, ss: seq<R.Store>, i: nat, j: nat, k: nat,
                              h: Digest, g: Digest, id: FamilyId)
    requires RedisRun(c, run, ss) && |ss| == |run| + 1 && i < j <= k < |run|
    requires run[i].request.Rotate? && run[i].request.token == h && LeadsTo(ss[i], run[i].now, h, id)
    requires RedisResult(c, run, ss, i).Rotated?
    requires run[j].request.Rotate? && run[j].request.token == h
    requires run[k].request.Rotate? && run[k].request.token == g && LeadsTo(ss[k], run[k].now, g, id)
    ensures !RedisResult(c, run, ss, k).Rotated?
  {
    hide RedisRun, M.Step, R.Step, Valid, ManagerStates, Followed, LeadsTo, Represents;
    LeadsInManager(c, run, ss, i, h, id);
    LeadsInManager(c, run, ss, k, g, id);
    RotationIsFollowed(c, run, ss, i);
    RotationIsFollowed(c, run, ss, j);
    RotationIsFollowed(c, run, ss, k);
    ReplayEndsFamily(c, Followed(run, ss), ManagerStates(c, run, ss), i, j, k, h, g, id);
  }

  // Exactly when RevokeUser agrees: the index fits, or there was nothing to
  // revoke. Otherwise Redis leaves every family as it was and reports zero.
  lemma RevokeUserAgreesExactly(c: Config, m: M.Memory, s: R.Store, now: int, user: Text)
    requires c.Valid() && M.Bounded(c, m) && Represents(s, M.Alive(m, now), now)
    ensures
      var (n, out) := M.RevokeUserStep(m, now, user);
      var (t, reply) := R.Step(c, s, now, RevokeUser(user));
      && (out == reply <==> IndexFits(s, RevokeUser(user)) || M.UsableIds(M.Alive(m, now), user, now) == {})
      && (!IndexFits(s, RevokeUser(user)) ==> t == s && reply == Count(0))
  {
    var live := M.Alive(m, now);
    UsableBounded(c, m, now, user);
    hide Represents, R.UsableEntries, M.UsableIds, R.UserValid;
    UserIsRead(s, live, now, user);
    if IndexFits(s, RevokeUser(user)) {
      RevokeUserSimulates(c, m, s, now, user);
    }
  }

  // The same guard decides for ActiveFamilies.
  lemma ActiveFamiliesAgreesExactly(c: Config, m: M.Memory, s: R.Store, now: int, user: Text)
    requires c.Valid() && M.Bounded(c, m) && Represents(s, M.Alive(m, now), now)
    ensures
      var (n, out) := M.ActiveFamiliesStep(m, now, user);
      var (t, reply) := R.Step(c, s, now, ActiveFamilies(user));
      && (out == reply <==> IndexFits(s, ActiveFamilies(user)) || M.UsableIds(M.Alive(m, now), user, now) == {})
      && (!IndexFits(s, ActiveFamilies(user)) ==> t == s && reply == Count(0))
  {
    var live := M.Alive(m, now);
    UsableBounded(c, m, now, user);
    hide Represents, R.UsableEntries, M.UsableIds, R.UserValid;
    UserIsRead(s, live, now, user);
    if IndexFits(s, ActiveFamilies(user)) {
      ActiveFamiliesSimulates(c, m, s, now, user);
    }
  }

  // The index of a user does outgrow the scripts: n creations, each after the
  // family before it has ended, leave n entries, since creation prunes only
  // the global index.
  function StartAt(c: Config, k: nat): int {
    1 + k * c.absoluteTTL
  }

  function Grown(c: Config, user: Text, ids: seq<FamilyId>, tokens: seq<Digest>, k: nat): (M.Memory, R.Store)
    requires k <= |ids| == |tokens|
  {
    if k == 0 then (M.Empty, R.Empty)
    else
      var (m, s) := Grown(c, user, ids, tokens, k - 1);
      var request := Start(user, ids[k - 1], tokens[k - 1]);
      (M.Step(c, m, StartAt(c, k - 1), request).0, R.Step(c, s, StartAt(c, k - 1), request).0)
  }

  function Firsts(ids: seq<FamilyId>, k: nat): set<FamilyId>
    requires k <= |ids|
  {
    set i | 0 <= i < k :: ids[i]
  }

  // Redis after k of these creations: nothing has outlived its lifetime, but
  // every family is still in the index of its user.
  ghost predicate RedisGrown(c: Config, user: Text, ids: seq<FamilyId>, k: nat, s: R.Store)
    requires k <= |ids|
  {
    && R.UserIndex(s, Sha256(user)).Keys == Coded(Firsts(ids, k))
    && s.family.Keys <= Firsts(ids, k)
    && (forall i :: i in s.global ==> s.global[i] <= StartAt(c, k))
  }

  // The manager: only the last family may still live.
  ghost predicate MemoryGrown(c: Config, user: Text, ids: seq<FamilyId>, k: nat, m: M.Memory)
    requires k <= |ids|
  {
    && (forall i :: i in m.families ==> m.families[i].absolute <= StartAt(c, k))
    && (k > 0 ==> M.UsableIds(M.Alive(m, StartAt(c, k - 1)), user, StartAt(c, k - 1)) == {ids[k - 1]})
  }

  lemma NextStart(c: Config, k: nat)
    ensures StartAt(c, k + 1) == StartAt(c, k) + c.absoluteTTL
  {
  }

  lemma NextFirst(ids: seq<FamilyId>, k: nat)
    requires k < |ids| && Distinct(ids)
    ensures Firsts(ids, k + 1) == Firsts(ids, k) + {ids[k]} && ids[k] !in Firsts(ids, k)
    ensures Coded(Firsts(ids, k + 1)) == Coded(Firsts(ids, k)) + {R.Hex32(ids[k])}
  {
    assert Firsts(ids, k + 1) == Firsts(ids, k) + {ids[k]};
  }

  lemma {:induction false} IndexGrows(c: Config, user: Text, ids: seq<FamilyId>, tokens: seq<Digest>, k: nat)
    requires c.Valid() && k <= |ids| == |tokens| && Distinct(ids)
    ensures MemoryGrown(c, user, ids, k, Grown(c, user, ids, tokens, k).0)
    ensures RedisGrown(c, user, ids, k, Grown(c, user, ids, tokens, k).1)
  {
    hide RedisGrown, MemoryGrown, Distinct, R.Step, M.Step;
    if k == 0 {
      NothingGrown(c, user, ids);
    } else {
      IndexGrows(c, user, ids, tokens, k - 1);
      GrowsOnce(c, user, ids, tokens, k - 1);
    }
  }

  lemma NothingGrown(c: Config, user: Text, ids: seq<FamilyId>)
    ensures MemoryGrown(c, user, ids, 0, M.Empty) && RedisGrown(c, user, ids, 0, R.Empty)
  {
    assert Firsts(ids, 0) == {} && Coded({}) == {};
  }

  lemma GrowsOnce(c: Config, user: Text, ids: seq<FamilyId>, tokens: seq<Digest>, k: nat)
    requires c.Valid() && k < |ids| == |tokens| && Distinct(ids)
    requires MemoryGrown(c, user, ids, k, Grown(c, user, ids, tokens, k).0)
    requires RedisGrown(c, user, ids, k, Grown(c, user, ids, tokens, k).1)
    ensures MemoryGrown(c, user, ids, k + 1, Grown(c, user, ids, tokens, k + 1).0)
    ensures RedisGrown(c, user, ids, k + 1, Grown(c, user, ids, tokens, k + 1).1)
  {
    hide RedisGrown, MemoryGrown, StartAt, Firsts, Distinct, R.Step, M.Step;
    var (m, s) := Grown(c, user, ids, tokens, k);
    RedisGrowsOnce(c, user, ids, tokens[k], k, s);
    MemoryGrowsOnce(c, user, ids, tokens[k], k, m);
  }

  // Creation in a store where nothing else lives.
  lemma StartOnEmpty(c: Config, s: R.Store, now: int, user: Text, id: FamilyId, token: Digest)
    requires c.Valid() && id !in s.family && forall i :: i in s.global ==> s.global[i] <= now
    ensures
      var t := R.Step(c, s, now, Start(user, id, token)).0;
      && t.family.Keys == s.family.Keys + {id}
      && t.global == map[id := now + c.absoluteTTL]
      && R.UserIndex(t, Sha256(user)).Keys == R.UserIndex(s, Sha256(user)).Keys + {R.Hex32(id)}
  {
    hide R.Step, R.DropExpired, R.UserIndex, R.Insert, R.Create;
    var absolute := now + c.absoluteTTL;
    var expires := Min(now + c.refreshTTL, absolute);
    StartIsCreate(c, s, now, user, id, token);
    CreateOnEmpty(s, now, absolute, expires, c.maxFamilies, Sha256(user), id, token);
    SameIndex(s, now, Sha256(user));
    DropsAll(s, now);
    IndexAfterInsert(R.DropExpired(s, now), absolute, expires, Sha256(user), id, token);
  }

  lemma CreateOnEmpty(s: R.Store, now: int, absolute: int, expires: int, maxFamilies: int,
                      owner: Digest, id: FamilyId, token: Digest)
    requires absolute > now && maxFamilies > 0 && id !in s.family
    requires forall i :: i in s.global ==> s.global[i] <= now
    ensures R.Create(s, now, absolute, expires, maxFamilies, owner, id, token)
            == (R.Insert(R.DropExpired(s, now), absolute, expires, owner, id, token), 0)
  {
    hide R.Insert;
    DropsAll(s, now);
  }

  lemma StartIsCreate(c: Config, s: R.Store, now: int, user: Text, id: FamilyId, token: Digest)
    requires c.Valid()
    ensures
      var absolute := now + c.absoluteTTL;
      R.Step(c, s, now, Start(user, id, token)).0
        == R.Create(s, now, absolute, Min(now + c.refreshTTL, absolute), c.maxFamilies, Sha256(user), id, token).0
  {
    hide R.Create;
  }

  lemma DropsAll(s: R.Store, now: int)
    requires forall i :: i in s.global ==> s.global[i] <= now
    ensures R.DropExpired(s, now).global == map[]
  {
  }

  lemma SameIndex(s: R.Store, now: int, owner: Digest)
    ensures R.UserIndex(R.DropExpired(s, now), owner) == R.UserIndex(s, owner)
    ensures R.DropExpired(s, now).family == s.family
  {
  }

  lemma IndexAfterInsert(s: R.Store, absolute: int, expires: int, owner: Digest, id: FamilyId, token: Digest)
    ensures
      var t := R.Insert(s, absolute, expires, owner, id, token);
      && R.UserIndex(t, owner).Keys == R.UserIndex(s, owner).Keys + {R.Hex32(id)}
      && t.family.Keys == s.family.Keys + {id} && t.global == s.global[id := absolute]
  {
  }

  lemma RedisGrowsOnce(c: Config, user: Text, ids: seq<FamilyId>, token: Digest, k: nat, s: R.Store)
    requires c.Valid() && k < |ids| && Distinct(ids) && RedisGrown(c, user, ids, k, s)
    ensures RedisGrown(c, user, ids, k + 1, R.Step(c, s, StartAt(c, k), Start(user, ids[k], token)).0)
  {
    NextStart(c, k);
    NextFirst(ids, k);
    hide Firsts, Coded, StartAt, Distinct, R.Step, R.UserIndex;
    StartOnEmpty(c, s, StartAt(c, k), user, ids[k], token);
  }

  lemma MemoryGrowsOnce(c: Config, user: Text, ids: seq<FamilyId>, token: Digest, k: nat, m: M.Memory)
    requires c.Valid() && k < |ids| && MemoryGrown(c, user, ids, k, m)
    ensures MemoryGrown(c, user, ids, k + 1, M.Step(c, m, StartAt(c, k), Start(user, ids[k], token)).0)
  {
    NextStart(c, k);
    hide StartAt;
    var now := StartAt(c, k);
    var (n, out) := M.StartStep(c, m, now, user, ids[k], token);
    assert M.Cleanup(m, now).families == map[];
    assert n.families.Keys == {ids[k]};
  }

  lemma {:induction false} FirstsSize(ids: seq<FamilyId>, k: nat)
    requires k <= |ids| && Distinct(ids)
    ensures |Firsts(ids, k)| == k
  {
    if k > 0 {
      FirstsSize(ids, k - 1);
      assert Firsts(ids, k) == Firsts(ids, k - 1) + {ids[k - 1]};
      assert ids[k - 1] !in Firsts(ids, k - 1);
    } else {
      assert Firsts(ids, 0) == {};
    }
  }

  lemma GrownIsRefused(c: Config, user: Text, ids: seq<FamilyId>, k: nat, s: R.Store, now: int)
    requires k == 10001 <= |ids| && Distinct(ids) && RedisGrown(c, user, ids, k, s)
    ensures R.Step(c, s, now, RevokeUser(user)) == (s, Count(0))
  {
    FirstsSize(ids, k);
    CodedSize(Firsts(ids, k));
    hide Coded, Firsts, Distinct, R.UserIndex;
    assert |R.UserIndex(s, Sha256(user))| == |R.UserIndex(s, Sha256(user)).Keys|;
  }

  lemma GrownIsCounted(c: Config, user: Text, ids: seq<FamilyId>, k: nat, m: M.Memory)
    requires 0 < k <= |ids| && MemoryGrown(c, user, ids, k, m)
    ensures M.Step(c, m, StartAt(c, k - 1), RevokeUser(user)).1 == Count(1)
  {
    hide M.UsableIds, StartAt;
  }

  // So after 10001 creations RevokeUser revokes nothing in Redis, where the
  // manager revokes the live family.
  lemma RevokeUserCanFail(c: Config, user: Text, ids: seq<FamilyId>, tokens: seq<Digest>)
    requires c.Valid() && |ids| == |tokens| == 10001 && Distinct(ids)
    ensures
      var (m, s) := Grown(c, user, ids, tokens, |ids|);
      var now := StartAt(c, |ids| - 1);
      && M.Step(c, m, now, RevokeUser(user)).1 == Count(1)
      && R.Step(c, s, now, RevokeUser(user)) == (s, Count(0))
  {
    hide Grown, M.Step, R.Step, MemoryGrown, RedisGrown, Distinct;
    var (m, s) := Grown(c, user, ids, tokens, |ids|);
    IndexGrows(c, user, ids, tokens, |ids|);
    GrownIsRefused(c, user, ids, |ids|, s, StartAt(c, |ids| - 1));
    GrownIsCounted(c, user, ids, |ids|, m);
  }
}
