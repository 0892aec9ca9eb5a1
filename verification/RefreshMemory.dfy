// Refresh-session families as the in-memory SessionManager keeps them
// (Framework/auth/session.go): the values it stores and the effect of each
// operation on them.

module RefreshTypes {
  import opened Hashing

  // Family identifiers are opaque: only equality of them matters.
  type FamilyId(==, !new)

  const MAX_FAMILY_INVENTORY := 10000
  const MAX_TOKENS_PER_FAMILY := 1024

  datatype Failure = Invalid | Expired | Revoked | Reuse | Limit | Collision

  datatype Outcome =
    | Started(startExpires: int)
    | Rotated(rotateExpires: int)
    | Done
    | Count(count: int)
    | Failed(failure: Failure)

  datatype Config = Config(refreshTTL: int, absoluteTTL: int, maxFamilies: int) {
    predicate Valid() {
      0 < refreshTTL <= absoluteTTL && 0 < maxFamilies <= 10000
    }
  }

  // One call on a manager. Identifiers and new token hashes come from the
  // random source, so they are part of the call.
  datatype Request =
    | Start(user: Text, id: FamilyId, first: Digest)
    | Rotate(token: Digest, next: Digest)
    | RevokeFamily(revoked: Digest)
    | RevokeUser(owner: Text)
    | ActiveFamilies(subject: Text)

  // What the random source draws for a call.
  function NewTokens(request: Request): set<Digest> {
    match request
    case Start(_, _, first) => {first}
    case Rotate(_, next) => {next}
    case _ => {}
  }

  function NewIds(request: Request): set<FamilyId> {
    if request.Start? then {request.id} else {}
  }
}

module RefreshMemory {
  import opened Common
  import opened Hashing
  import opened RefreshTypes

  datatype Family = Family(user: Text, absolute: int, current: Digest, expires: int,
                           used: set<Digest>, revoked: bool, expired: bool)
  {
    predicate Owns(h: Digest) {
      h == current || h in used
    }
  }

  datatype Memory = Memory(families: map<FamilyId, Family>, tokens: map<Digest, FamilyId>)

  const Empty := Memory(map[], map[])

  // The token hash h leads to a family.
  predicate Resolves(m: Memory, h: Digest) {
    h in m.tokens && m.tokens[h] in m.families
  }

  function FamilyOf(m: Memory, h: Digest): Family
    requires Resolves(m, h)
  {
    m.families[m.tokens[h]]
  }

  // What every reachable manager state satisfies: the token map is exactly the
  // disjoint union of the hashes that the families own.
  ghost predicate Inv(m: Memory) {
    && (forall h :: h in m.tokens ==> Resolves(m, h) && FamilyOf(m, h).Owns(h))
    && (forall id :: id in m.families ==> Registered(m, id, m.families[id]))
  }

  ghost predicate Registered(m: Memory, id: FamilyId, f: Family) {
    && f.current in m.tokens && m.tokens[f.current] == id && f.current !in f.used
    && (forall h :: h in f.used ==> h in m.tokens && m.tokens[h] == id)
  }

  ghost predicate Bounded(c: Config, m: Memory) {
    && |m.families| <= c.maxFamilies
    && (forall id :: id in m.families ==> |m.families[id].used| <= 1024)
  }

  // The families whose absolute lifetime has not ended.
  function Alive(m: Memory, now: int): (r: map<FamilyId, Family>) {
    map id | id in m.families && m.families[id].absolute > now :: m.families[id]
  }

  function Cleanup(m: Memory, now: int): Memory {
    Memory(Alive(m, now), map h | h in m.tokens && Resolves(m, h) && FamilyOf(m, h).absolute > now :: m.tokens[h])
  }

  function Store(m: Memory, id: FamilyId, f: Family): Memory {
    m.(families := m.families[id := f])
  }

  function StartStep(c: Config, m: Memory, now: int, user: Text, id: FamilyId, first: Digest): (Memory, Outcome) {
    var n := Cleanup(m, now);
    if |n.families| >= c.maxFamilies then (n, Failed(Limit))
    else
      var absolute := now + c.absoluteTTL;
      var expires := Min(now + c.refreshTTL, absolute);
      (Memory(n.families[id := Family(user, absolute, first, expires, {}, false, false)], n.tokens[first := id]),
       Started(expires))
  }

  // What presenting a token does to the family that owns it, while the family
  // is within its absolute lifetime.
  function Present(c: Config, f: Family, now: int, token: Digest, next: Digest): (Family, Outcome) {
    if f.revoked then
      (f, Failed(if token in f.used then Reuse else if f.expired then Expired else Revoked))
    else if f.absolute <= now || f.expires <= now then
      (f.(revoked := true, expired := true), Failed(Expired))
    else if token != f.current then
      (f.(revoked := true), Failed(Reuse))
    else if |f.used| >= MAX_TOKENS_PER_FAMILY then
      (f.(revoked := true), Failed(Limit))
    else
      var expires := Min(now + c.refreshTTL, f.absolute);
      (f.(used := f.used + {token}, current := next, expires := expires), Rotated(expires))
  }

  function RotateStep(c: Config, m: Memory, now: int, token: Digest, next: Digest): (Memory, Outcome) {
    if Resolves(m, token) && FamilyOf(m, token).absolute <= now then
      (Store(m, m.tokens[token], FamilyOf(m, token).(revoked := true, expired := true)), Failed(Expired))
    else
      var n := Cleanup(m, now);
      if !Resolves(n, token) then (n, Failed(Invalid))
      else
        var id := n.tokens[token];
        var (f, out) := Present(c, n.families[id], now, token, next);
        (Memory(n.families[id := f], if out.Rotated? then n.tokens[next := id] else n.tokens), out)
  }

  function RevokeFamilyStep(m: Memory, now: int, token: Digest): (Memory, Outcome) {
    if Resolves(m, token) && FamilyOf(m, token).absolute <= now then
      (Store(m, m.tokens[token], FamilyOf(m, token).(revoked := true, expired := true)), Failed(Expired))
    else
      var n := Cleanup(m, now);
      if !Resolves(n, token) then (n, Failed(Invalid))
      else
        var f := FamilyOf(n, token);
        if f.absolute <= now || f.expired then (n, Failed(Expired))
        else (Store(n, n.tokens[token], f.(revoked := true)), Done)
  }

  predicate Usable(f: Family, user: Text, now: int) {
    f.user == user && !f.revoked && f.expires > now
  }

  function UsableIds(families: map<FamilyId, Family>, user: Text, now: int): set<FamilyId> {
    set id | id in families && Usable(families[id], user, now)
  }

  function MarkRevoked(families: map<FamilyId, Family>, ids: set<FamilyId>): map<FamilyId, Family> {
    map id | id in families :: if id in ids then families[id].(revoked := true) else families[id]
  }

  function RevokeUserStep(m: Memory, now: int, user: Text): (Memory, Outcome) {
    var n := Cleanup(m, now);
    var ids := UsableIds(n.families, user, now);
    (n.(families := MarkRevoked(n.families, ids)), Count(|ids|))
  }

  function ActiveFamiliesStep(m: Memory, now: int, user: Text): (Memory, Outcome) {
    var n := Cleanup(m, now);
    (n, Count(|UsableIds(n.families, user, now)|))
  }

  function Step(c: Config, m: Memory, now: int, request: Request): (Memory, Outcome) {
    match request
    case Start(user, id, first) => StartStep(c, m, now, user, id, first)
    case Rotate(token, next) => RotateStep(c, m, now, token, next)
    case RevokeFamily(token) => RevokeFamilyStep(m, now, token)
    case RevokeUser(user) => RevokeUserStep(m, now, user)
    case ActiveFamilies(user) => ActiveFamiliesStep(m, now, user)
  }

  lemma CleanupKeepsInv(m: Memory, now: int)
    requires Inv(m)
    ensures Inv(Cleanup(m, now))
    ensures Cleanup(m, now).families.Keys <= m.families.Keys
    ensures Cleanup(m, now).tokens.Keys <= m.tokens.Keys
  {
    var n := Cleanup(m, now);
    forall id | id in n.families ensures Registered(n, id, n.families[id]) {
      assert Registered(m, id, m.families[id]);
    }
  }

  // Replacing a family by one that owns the same hashes.
  lemma FlagsKeepInv(m: Memory, id: FamilyId, f: Family)
    requires Inv(m) && id in m.families
    requires f.current == m.families[id].current && f.used == m.families[id].used
    ensures Inv(Store(m, id, f))
  {
    var n := Store(m, id, f);
    forall i | i in n.families ensures Registered(n, i, n.families[i]) {
      assert Registered(m, i, m.families[i]);
    }
  }

  lemma RotationKeepsInv(m: Memory, id: FamilyId, g: Family, next: Digest)
    requires Inv(m) && id in m.families && next !in m.tokens
    requires g.current == next && g.used == m.families[id].used + {m.families[id].current}
    ensures Inv(Memory(m.families[id := g], m.tokens[next := id]))
  {
    var n := Memory(m.families[id := g], m.tokens[next := id]);
    assert Registered(m, id, m.families[id]);
    forall i | i in n.families ensures Registered(n, i, n.families[i]) {
      assert Registered(m, i, m.families[i]);
    }
    forall h | h in n.tokens ensures Resolves(n, h) && FamilyOf(n, h).Owns(h) {
      if h != next {
        assert Resolves(m, h) && FamilyOf(m, h).Owns(h);
      }
    }
  }

  lemma StartKeepsInv(m: Memory, id: FamilyId, f: Family)
    requires Inv(m) && id !in m.families && f.used == {} && f.current !in m.tokens
    ensures Inv(Memory(m.families[id := f], m.tokens[f.current := id]))
  {
    var n := Memory(m.families[id := f], m.tokens[f.current := id]);
    forall i | i in n.families ensures Registered(n, i, n.families[i]) {
      if i != id {
        assert Registered(m, i, m.families[i]);
      }
    }
  }

  lemma RotateKeepsInv(c: Config, m: Memory, now: int, token: Digest, next: Digest)
    requires Inv(m) && next !in m.tokens
    ensures Inv(RotateStep(c, m, now, token, next).0)
  {
    hide Inv;
    CleanupKeepsInv(m, now);
    var n := Cleanup(m, now);
    if Resolves(m, token) && FamilyOf(m, token).absolute <= now {
      FlagsKeepInv(m, m.tokens[token], FamilyOf(m, token).(revoked := true, expired := true));
    } else if Resolves(n, token) {
      var id := n.tokens[token];
      var (f, out) := Present(c, n.families[id], now, token, next);
      if out.Rotated? {
        RotationKeepsInv(n, id, f, next);
      } else {
        FlagsKeepInv(n, id, f);
      }
    }
  }

  lemma RevokeFamilyKeepsInv(m: Memory, now: int, token: Digest)
    requires Inv(m)
    ensures Inv(RevokeFamilyStep(m, now, token).0)
  {
    hide Inv;
    CleanupKeepsInv(m, now);
    var n := Cleanup(m, now);
    if Resolves(m, token) && FamilyOf(m, token).absolute <= now {
      FlagsKeepInv(m, m.tokens[token], FamilyOf(m, token).(revoked := true, expired := true));
    } else if Resolves(n, token) {
      FlagsKeepInv(n, n.tokens[token], FamilyOf(n, token).(revoked := true));
    }
  }

  lemma RevokeUserKeepsInv(m: Memory, now: int, user: Text)
    requires Inv(m)
    ensures Inv(RevokeUserStep(m, now, user).0)
  {
    CleanupKeepsInv(m, now);
    var n := Cleanup(m, now);
    var r := RevokeUserStep(m, now, user).0;
    forall i | i in r.families ensures Registered(r, i, r.families[i]) {
      assert Registered(n, i, n.families[i]);
    }
    forall h | h in r.tokens ensures Resolves(r, h) && FamilyOf(r, h).Owns(h) {
      assert Resolves(n, h) && FamilyOf(n, h).Owns(h);
    }
  }

  // Every call keeps the token map exact, given fresh random values.
  lemma StepKeepsInv(c: Config, m: Memory, now: int, request: Request)
    requires Inv(m)
    requires NewTokens(request) !! m.tokens.Keys
    requires NewIds(request) !! m.families.Keys
    ensures Inv(Step(c, m, now, request).0)
  {
    hide Inv, RotateStep, RevokeFamilyStep, RevokeUserStep;
    CleanupKeepsInv(m, now);
    match request
    case Start(user, id, first) =>
      var f := Family(user, now + c.absoluteTTL, first, Min(now + c.refreshTTL, now + c.absoluteTTL), {}, false, false);
      StartKeepsInv(Cleanup(m, now), id, f);
    case Rotate(token, next) => RotateKeepsInv(c, m, now, token, next);
    case RevokeFamily(token) => RevokeFamilyKeepsInv(m, now, token);
    case RevokeUser(user) => RevokeUserKeepsInv(m, now, user);
    case ActiveFamilies(user) =>
  }

  lemma CleanupKeepsBound(c: Config, m: Memory, now: int)
    requires Bounded(c, m)
    ensures Bounded(c, Cleanup(m, now))
  {
    SubsetSize(Cleanup(m, now).families.Keys, m.families.Keys);
  }

  lemma StoreKeepsBound(c: Config, m: Memory, id: FamilyId, f: Family)
    requires Bounded(c, m) && id in m.families && |f.used| <= 1024
    ensures Bounded(c, Store(m, id, f))
  {
    assert Store(m, id, f).families.Keys == m.families.Keys;
  }

  lemma RotateKeepsBound(c: Config, m: Memory, now: int, token: Digest, next: Digest)
    requires Bounded(c, m)
    ensures Bounded(c, RotateStep(c, m, now, token, next).0)
  {
    CleanupKeepsBound(c, m, now);
    var n := Cleanup(m, now);
    hide Cleanup;
    if Resolves(m, token) && FamilyOf(m, token).absolute <= now {
      StoreKeepsBound(c, m, m.tokens[token], FamilyOf(m, token).(revoked := true, expired := true));
    } else if Resolves(n, token) {
      StoreKeepsBound(c, n, n.tokens[token], Present(c, FamilyOf(n, token), now, token, next).0);
    }
  }

  lemma RevokeFamilyKeepsBound(c: Config, m: Memory, now: int, token: Digest)
    requires Bounded(c, m)
    ensures Bounded(c, RevokeFamilyStep(m, now, token).0)
  {
    CleanupKeepsBound(c, m, now);
    var n := Cleanup(m, now);
    hide Cleanup;
    if Resolves(m, token) && FamilyOf(m, token).absolute <= now {
      StoreKeepsBound(c, m, m.tokens[token], FamilyOf(m, token).(revoked := true, expired := true));
    } else if Resolves(n, token) {
      StoreKeepsBound(c, n, n.tokens[token], FamilyOf(n, token).(revoked := true));
    }
  }

  // The bounds on families and history hold after every call.
  lemma StepKeepsBound(c: Config, m: Memory, now: int, request: Request)
    requires c.Valid() && Bounded(c, m)
    ensures Bounded(c, Step(c, m, now, request).0)
  {
    hide RotateStep, RevokeFamilyStep;
    CleanupKeepsBound(c, m, now);
    match request
    case Start(user, id, first) =>
    case Rotate(token, next) => RotateKeepsBound(c, m, now, token, next);
    case RevokeFamily(token) => RevokeFamilyKeepsBound(c, m, now, token);
    case RevokeUser(user) =>
      assert RevokeUserStep(m, now, user).0.families.Keys == Cleanup(m, now).families.Keys;
    case ActiveFamilies(user) =>
  }
}
