// The Redis scripts simulate the in-memory manager: over every run with one
// monotone clock and fresh random values both answer alike and hold the same
// live families.

module RefreshSimulation {
  import opened Common
  import opened Hashing
  import opened RefreshTypes
  import opened RedisKeys
  import M = RefreshMemory
  import R = RefreshScripts

  type Families = map<FamilyId, M.Family>

  function Encoded(used: set<Digest>): set<R.Raw> {
    set h | h in used :: R.Hex64(h)
  }

  lemma {:induction false} EncodedSize(used: set<Digest>)
    ensures |Encoded(used)| == |used|
  {
    if used != {} {
      var h :| h in used;
      EncodedSize(used - {h});
      assert Encoded(used) == Encoded(used - {h}) + {R.Hex64(h)};
    } else {
      assert Encoded(used) == {};
    }
  }

  function FlagOf(b: bool): R.Raw {
    R.Number(if b then 1 else 0)
  }

  // The family hash of a live family. The stores may disagree on the expired
  // flag, which only selects between two failure codes.
  predicate Encodes(h: R.FamilyHash, f: M.Family) {
    && h.userHash == R.Hex64(Sha256(f.user)) && h.absolute == R.Number(f.absolute) && h.expires == R.Number(f.expires)
    && h.current == R.Hex64(f.current) && h.revoked == FlagOf(f.revoked)
    && R.Flag(h.expired) && (h.expired == R.Number(1) ==> f.revoked)
  }

  predicate Sound(f: M.Family) {
    && 1 <= f.expires <= f.absolute && f.current !in f.used && |f.used| <= MAX_TOKENS_PER_FAMILY
    && (f.expired ==> f.revoked)
  }

  predicate HashStored(s: R.Store, id: FamilyId, f: M.Family) {
    id in s.family && s.family[id].until == f.absolute && Encodes(s.family[id].value, f)
  }

  predicate UsedStored(s: R.Store, id: FamilyId, f: M.Family) {
    if f.used == {} then id !in s.used else id in s.used && s.used[id] == Expiring(Encoded(f.used), f.absolute)
  }

  ghost predicate TokensStored(s: R.Store, id: FamilyId, f: M.Family) {
    forall h :: f.Owns(h) ==> h in s.token && s.token[h] == Expiring(R.Hex32(id), f.absolute)
  }

  // All the Redis objects of one live family.
  ghost predicate Stored(s: R.Store, id: FamilyId, f: M.Family) {
    && Sound(f)
    && HashStored(s, id, f)
    && UsedStored(s, id, f)
    && TokensStored(s, id, f)
    && R.Indexed(s, Sha256(f.user), id, f.absolute)
  }

  ghost predicate EntryRepresents(live: Families, now: int, owner: Digest, r: R.Raw, score: int) {
    && r.Hex32?
    && if r.id in live then Sha256(live[r.id].user) == owner && score == live[r.id].absolute else score <= now
  }

  // Nothing unexpired in the store but the objects of the live families.
  ghost predicate NothingElse(s: R.Store, live: Families, now: int) {
    && (forall id :: id in s.family && s.family[id].until > now ==> id in live)
    && (forall h :: h in s.token && s.token[h].until > now ==>
          s.token[h].value.Hex32? && s.token[h].value.id in live && live[s.token[h].value.id].Owns(h))
    && (forall id :: id in s.global && s.global[id] > now ==> id in live)
    && (forall o, r :: o in s.user && r in s.user[o] ==> EntryRepresents(live, now, o, r, s.user[o][r]))
  }

  // The store holds exactly these live families.
  ghost predicate Represents(s: R.Store, live: Families, now: int) {
    && (forall id :: id in live ==> live[id].absolute > now && Stored(s, id, live[id]))
    && NothingElse(s, live, now)
  }

  // Time only removes families from what a store represents.
  lemma TimePasses(s: R.Store, m: M.Memory, now: int, later: int)
    requires Represents(s, M.Alive(m, now), now) && now <= later
    ensures Represents(s, M.Alive(m, later), later)
  {
    var live, left := M.Alive(m, now), M.Alive(m, later);
    forall id | id in left ensures Stored(s, id, left[id]) {
      assert Stored(s, id, live[id]);
    }
    forall h | h in s.token && s.token[h].until > later
      ensures s.token[h].value.Hex32? && s.token[h].value.id in left && left[s.token[h].value.id].Owns(h)
    {
      var id := s.token[h].value.id;
      assert Stored(s, id, live[id]);
    }
    forall id | id in s.family && s.family[id].until > later ensures id in left {
      assert Stored(s, id, live[id]);
    }
    forall id | id in s.global && s.global[id] > later ensures id in left {
      assert Stored(s, id, live[id]);
    }
    forall o, r | o in s.user && r in s.user[o] ensures EntryRepresents(left, later, o, r, s.user[o][r]) {
      assert EntryRepresents(live, now, o, r, s.user[o][r]);
    }
  }

  // What the checks of rotation and revocation see of a live family.
  lemma LiveFamilyIsRead(s: R.Store, now: int, id: FamilyId, f: M.Family)
    requires Stored(s, id, f) && f.absolute > now
    ensures Get(s.family, id, now) == Some(s.family[id].value) && Encodes(s.family[id].value, f)
    ensures R.Members(s, id, now) == Encoded(f.used) && |R.Members(s, id, now)| == |f.used|
  {
    hide TokensStored, R.Indexed;
    EncodedSize(f.used);
    assert f.used == {} ==> Encoded(f.used) == {};
  }

  lemma LiveFamilyIsConsistent(s: R.Store, live: Families, now: int, id: FamilyId, token: Digest)
    requires Represents(s, live, now) && id in live && live[id].Owns(token)
    ensures Get(s.token, token, now) == Some(R.Hex32(id))
    ensures Get(s.family, id, now) == Some(s.family[id].value)
    ensures Encodes(s.family[id].value, live[id]) && Sound(live[id]) && live[id].absolute > now
    ensures R.Members(s, id, now) == Encoded(live[id].used) && |R.Members(s, id, now)| == |live[id].used|
    ensures R.Consistent(s, now, id, s.family[id].value, token, MAX_TOKENS_PER_FAMILY)
  {
    hide NothingElse;
    var f := live[id];
    assert Stored(s, id, f);
    hide Represents;
    LiveFamilyIsRead(s, now, id, f);
    hide HashStored, UsedStored, R.Members;
    assert f.Owns(f.current);
    forall u | u in R.Members(s, id, now)
      ensures u.Hex64? && u != R.Hex64(f.current) && R.MapsTo(s, now, u, id)
    {
      assert f.Owns(u.digest);
    }
  }

  lemma UnknownToken(s: R.Store, live: Families, now: int, token: Digest)
    requires Represents(s, live, now)
    requires forall id :: id in live ==> !live[id].Owns(token)
    ensures Get(s.token, token, now) == None
  {
  }

  // A script that only touched the hash, the used set and the tokens of one
  // family.
  ghost predicate LeavesAlone(s: R.Store, n: R.Store, id: FamilyId) {
    && n.global == s.global && n.user == s.user
    && n.family.Keys == s.family.Keys && (forall i :: i in n.family ==> n.family[i].until == s.family[i].until)
    && (forall i :: i in s.family && i != id ==> n.family[i] == s.family[i])
    && (forall i :: i != id ==> if i in s.used then i in n.used && n.used[i] == s.used[i] else i !in n.used)
    && (forall h :: h in s.token ==> h in n.token && n.token[h] == s.token[h])
  }

  predicate Later(f: M.Family, g: M.Family) {
    && g.user == f.user && g.absolute == f.absolute
    && g.Owns(f.current) && f.used <= g.used
  }

  lemma NothingElseKept(s: R.Store, n: R.Store, live: Families, now: int, id: FamilyId, g: M.Family)
    requires NothingElse(s, live, now) && id in live && LeavesAlone(s, n, id) && Later(live[id], g)
    requires forall h :: h in n.token && h !in s.token ==> n.token[h].value == R.Hex32(id) && g.Owns(h)
    ensures NothingElse(n, live[id := g], now)
  {
    var left := live[id := g];
    forall o, r | o in n.user && r in n.user[o] ensures EntryRepresents(left, now, o, r, n.user[o][r]) {
      assert EntryRepresents(live, now, o, r, s.user[o][r]);
    }
  }

  lemma StoredUntouched(s: R.Store, n: R.Store, id: FamilyId, i: FamilyId, f: M.Family)
    requires Stored(s, i, f) && LeavesAlone(s, n, id) && i != id
    ensures Stored(n, i, f)
  {
  }

  // The live families after a script that only touched one of them.
  lemma OneFamilyChanged(s: R.Store, n: R.Store, live: Families, now: int, id: FamilyId, g: M.Family)
    requires Represents(s, live, now) && id in live && LeavesAlone(s, n, id) && Stored(n, id, g) && Later(live[id], g)
    requires forall h :: h in n.token && h !in s.token ==> n.token[h].value == R.Hex32(id) && g.Owns(h)
    ensures Represents(n, live[id := g], now)
  {
    hide Stored, NothingElse, LeavesAlone, Later;
    forall i | i in live && i != id ensures Stored(n, i, live[i]) {
      StoredUntouched(s, n, id, i, live[i]);
    }
    assert g.absolute == live[id].absolute by {
      LaterKeepsLifetime(live[id], g);
    }
    NothingElseKept(s, n, live, now, id, g);
  }

  lemma LaterKeepsLifetime(f: M.Family, g: M.Family)
    requires Later(f, g)
    ensures g.absolute == f.absolute
  {
  }

  lemma FlagsStored(s: R.Store, n: R.Store, id: FamilyId, h: R.FamilyHash, f: M.Family, g: M.Family)
    requires Stored(s, id, f) && g == f.(revoked := g.revoked, expired := g.expired) && Encodes(h, g)
    requires g.expired ==> g.revoked
    requires id in s.family && n == R.HashSet(s, id, h)
    ensures Stored(n, id, g) && LeavesAlone(s, n, id)
  {
    assert forall t :: g.Owns(t) ==> f.Owns(t);
  }

  // Rewriting the flags of a live family in its hash.
  lemma FlagsRepresent(s: R.Store, live: Families, now: int, id: FamilyId, h: R.FamilyHash, f: M.Family)
    requires Represents(s, live, now) && id in live
    requires f == live[id].(revoked := f.revoked, expired := f.expired) && Encodes(h, f) && (f.expired ==> f.revoked)
    ensures id in s.family && Represents(R.HashSet(s, id, h), live[id := f], now)
  {
    hide NothingElse, R.Indexed, UsedStored, TokensStored;
    assert Stored(s, id, live[id]);
    var n := R.HashSet(s, id, h);
    hide Stored, Represents, LeavesAlone, Encodes;
    FlagsStored(s, n, id, h, live[id], f);
    OneFamilyChanged(s, n, live, now, id, f);
  }

  // Rotating the current hash of a live family.
  lemma RotationRepresents(s: R.Store, live: Families, now: int, id: FamilyId, next: Digest, expires: int)
    requires Represents(s, live, now) && id in live && next !in s.token
    requires |live[id].used| < MAX_TOKENS_PER_FAMILY && 1 <= expires <= live[id].absolute
    ensures id in s.family && s.family[id].value.absolute.Number?
    ensures
      var f := live[id];
      var g := f.(used := f.used + {f.current}, current := next, expires := expires);
      Represents(R.Advance(s, now, id, s.family[id].value, f.current, next, expires), live[id := g], now)
  {
    hide NothingElse, R.Indexed, UsedStored, TokensStored, R.Consistent, Get, R.Members;
    var f := live[id];
    LiveFamilyIsConsistent(s, live, now, id, f.current);
    var g := f.(used := f.used + {f.current}, current := next, expires := expires);
    assert Stored(s, id, f);
    hide Stored, Represents, LeavesAlone, Encodes;
    var n := R.Advance(s, now, id, s.family[id].value, f.current, next, expires);
    AdvanceStores(s, n, now, id, f, g);
    OneFamilyChanged(s, n, live, now, id, g);
  }

  lemma AdvanceStores(s: R.Store, n: R.Store, now: int, id: FamilyId, f: M.Family, g: M.Family)
    requires Stored(s, id, f) && id in s.family && g.current !in s.token && |f.used| < MAX_TOKENS_PER_FAMILY
    requires g == f.(used := f.used + {f.current}, current := g.current, expires := g.expires)
    requires 1 <= g.expires <= f.absolute && R.Members(s, id, now) == Encoded(f.used)
    requires n == R.Advance(s, now, id, s.family[id].value, f.current, g.current, g.expires)
    ensures Stored(n, id, g) && LeavesAlone(s, n, id)
  {
    assert Encoded(g.used) == Encoded(f.used) + {R.Hex64(f.current)};
    assert f.Owns(f.current);
    forall h | g.Owns(h) ensures h in n.token && n.token[h] == Expiring(R.Hex32(id), g.absolute) {
      if h != g.current {
        assert f.Owns(h);
      }
    }
  }

  // The random identifier and hash of a call were never written to the store.
  ghost predicate Unwritten(s: R.Store, request: Request) {
    && NewTokens(request) !! s.token.Keys
    && NewIds(request) !! s.family.Keys && NewIds(request) !! s.used.Keys
    && forall o, id :: o in s.user && id in NewIds(request) ==> R.Hex32(id) !in s.user[o]
  }

  lemma PruneGlobal(s: R.Store, live: Families, now: int)
    requires Represents(s, live, now)
    ensures Represents(R.DropExpired(s, now), live, now) && R.DropExpired(s, now).global.Keys == live.Keys
  {
    hide R.DropExpired, Stored, NothingElse;
    PruneAddsNothingElse(s, live, now);
    forall i | i in live
      ensures Stored(R.DropExpired(s, now), i, live[i]) && i in R.DropExpired(s, now).global
    {
      PruneKeepsStored(s, now, i, live[i]);
    }
  }

  lemma PruneAddsNothingElse(s: R.Store, live: Families, now: int)
    requires NothingElse(s, live, now)
    ensures NothingElse(R.DropExpired(s, now), live, now) && R.DropExpired(s, now).global.Keys <= live.Keys
  {
  }

  lemma PruneKeepsStored(s: R.Store, now: int, i: FamilyId, f: M.Family)
    requires Stored(s, i, f) && f.absolute > now
    ensures Stored(R.DropExpired(s, now), i, f) && i in R.DropExpired(s, now).global
  {
  }

  function Inserted(s: R.Store, id: FamilyId, f: M.Family): R.Store {
    R.Insert(s, f.absolute, f.expires, Sha256(f.user), id, f.current)
  }

  lemma InsertStores(s: R.Store, id: FamilyId, f: M.Family)
    requires id !in s.used && f.used == {} && !f.revoked && Sound(f)
    ensures Stored(Inserted(s, id, f), id, f)
  {
  }

  lemma InsertKeepsOthers(s: R.Store, id: FamilyId, f: M.Family, i: FamilyId, g: M.Family)
    requires Stored(s, i, g) && i != id && f.current !in s.token
    ensures Stored(Inserted(s, id, f), i, g)
  {
  }

  lemma InsertAddsNothingElse(s: R.Store, live: Families, now: int, id: FamilyId, f: M.Family)
    requires NothingElse(s, live, now) && id !in live && f.absolute > now
    requires forall o :: o in s.user ==> R.Hex32(id) !in s.user[o]
    ensures NothingElse(Inserted(s, id, f), live[id := f], now)
  {
    var n, left := Inserted(s, id, f), live[id := f];
    forall o, r | o in n.user && r in n.user[o] ensures EntryRepresents(left, now, o, r, n.user[o][r]) {
      if o in s.user && r in s.user[o] {
        assert EntryRepresents(live, now, o, r, s.user[o][r]);
      }
    }
  }

  lemma InsertRepresents(s: R.Store, live: Families, now: int, id: FamilyId, f: M.Family)
    requires Represents(s, live, now) && Unwritten(s, Start(f.user, id, f.current))
    requires 1 <= now < f.expires <= f.absolute && f.used == {} && !f.revoked && !f.expired
    ensures id !in live && Represents(Inserted(s, id, f), live[id := f], now)
  {
    forall i | i in live ensures i in s.family {
      assert Stored(s, i, live[i]);
    }
    assert id in NewIds(Start(f.user, id, f.current));
    InsertStores(s, id, f);
    InsertAddsNothingElse(s, live, now, id, f);
    assert f.current !in s.token;
    hide NothingElse, Stored, Inserted;
    forall i | i in live ensures Stored(Inserted(s, id, f), i, live[i]) {
      InsertKeepsOthers(s, id, f, i, live[i]);
    }
  }

  // Creation answers and acts like Start on the live families.
  lemma CreateRepresents(c: Config, s: R.Store, live: Families, now: int, id: FamilyId, f: M.Family)
    requires Represents(s, live, now) && Unwritten(s, Start(f.user, id, f.current))
    requires 1 <= now < f.expires <= f.absolute && f.used == {} && !f.revoked && !f.expired
    ensures
      var (n, code) := R.Create(s, now, f.absolute, f.expires, c.maxFamilies, Sha256(f.user), id, f.current);
      if |live| >= c.maxFamilies then code == 5 && Represents(n, live, now)
      else code == 0 && Represents(n, live[id := f], now)
  {
    hide Represents;
    PruneGlobal(s, live, now);
    var p := R.DropExpired(s, now);
    assert |p.global.Keys| == |live.Keys|;
    assert Unwritten(p, Start(f.user, id, f.current));
    assert Get(s.family, id, now) == None by {
      assert id in NewIds(Start(f.user, id, f.current));
    }
    hide Unwritten, R.Insert, R.DropExpired;
    InsertRepresents(p, live, now, id, f);
  }

  // The live part of the manager after each call.
  lemma AliveAfterCleanup(m: M.Memory, now: int)
    ensures M.Alive(M.Cleanup(m, now), now) == M.Alive(m, now)
  {
  }

  predicate LiveToken(m: M.Memory, now: int, token: Digest) {
    M.Resolves(m, token) && M.FamilyOf(m, token).absolute > now
  }

  lemma RotateOnLive(c: Config, m: M.Memory, now: int, token: Digest, next: Digest)
    requires M.Inv(m)
    ensures
      var (n, out) := M.RotateStep(c, m, now, token, next);
      if LiveToken(m, now, token) then
        var id := m.tokens[token];
        var (f, result) := M.Present(c, m.families[id], now, token, next);
        out == result && M.Alive(n, now) == M.Alive(m, now)[id := f] && m.families[id].Owns(token)
      else M.Alive(n, now) == M.Alive(m, now) && out.Failed?
  {
    AliveAfterCleanup(m, now);
  }

  lemma RevokeFamilyOnLive(m: M.Memory, now: int, token: Digest)
    requires M.Inv(m)
    ensures
      var (n, out) := M.RevokeFamilyStep(m, now, token);
      if LiveToken(m, now, token) then
        var id := m.tokens[token];
        var f := m.families[id];
        && f.Owns(token)
        && out == (if f.expired then Failed(Expired) else Done)
        && M.Alive(n, now) == M.Alive(m, now)[id := if f.expired then f else f.(revoked := true)]
      else M.Alive(n, now) == M.Alive(m, now) && out.Failed?
  {
    AliveAfterCleanup(m, now);
  }

  // A hash that no live family owns.
  lemma DeadToken(m: M.Memory, now: int, token: Digest)
    requires M.Inv(m) && !LiveToken(m, now, token)
    ensures forall id :: id in M.Alive(m, now) ==> !M.Alive(m, now)[id].Owns(token)
  {
    forall id | id in M.Alive(m, now)
      ensures !M.Alive(m, now)[id].Owns(token)
    {
      assert M.Registered(m, id, m.families[id]);
    }
  }

  // Rotation: both stores accept or both refuse, with the same new expiry, and
  // they still hold the same live families.
  lemma RotateSimulates(c: Config, m: M.Memory, s: R.Store, now: int, token: Digest, next: Digest)
    requires c.Valid() && now >= 1 && M.Inv(m) && Represents(s, M.Alive(m, now), now)
    requires next !in m.tokens && next !in s.token
    ensures
      var (n, out) := M.RotateStep(c, m, now, token, next);
      var (t, reply) := R.Step(c, s, now, Rotate(token, next));
      Represents(t, M.Alive(n, now), now) && (out == reply || (out.Failed? && reply.Failed?))
  {
    hide Represents, R.RotateLive, R.Consistent, M.RotateStep, M.Inv, M.Present;
    RotateOnLive(c, m, now, token, next);
    var live := M.Alive(m, now);
    if LiveToken(m, now, token) {
      var id := m.tokens[token];
      RotateLiveSimulates(c, s, live, now, id, token, next);
      LiveFamilyIsConsistent(s, live, now, id, token);
    } else {
      DeadToken(m, now, token);
      UnknownToken(s, live, now, token);
    }
  }

  lemma RotateLiveSimulates(c: Config, s: R.Store, live: Families, now: int, id: FamilyId, token: Digest, next: Digest)
    requires c.Valid() && now >= 1 && Represents(s, live, now)
    requires id in live && live[id].Owns(token) && next !in s.token
    ensures id in s.family && R.WellFormed(s.family[id].value)
    ensures
      var (f, out) := M.Present(c, live[id], now, token, next);
      var (t, reply) := R.RotateLive(s, now, id, s.family[id].value, token, next, c.refreshTTL, MAX_TOKENS_PER_FAMILY);
      && Represents(t, live[id := f], now)
      && (match reply case Next(expires) => out == Rotated(expires) case Code(_) => out.Failed?)
  {
    hide Represents, R.Consistent, R.HashSet, R.Advance;
    LiveFamilyIsConsistent(s, live, now, id, token);
    hide R.Members;
    var f := live[id];
    var h := s.family[id].value;
    var g := M.Present(c, f, now, token, next).0;
    if f.revoked {
      assert live == live[id := f];
    } else if token != f.current {
      FlagsRepresent(s, live, now, id, h.(revoked := R.Number(1)), g);
    } else if f.expires <= now {
      FlagsRepresent(s, live, now, id, h.(revoked := R.Number(1), expired := R.Number(1)), g);
    } else if |f.used| >= MAX_TOKENS_PER_FAMILY {
      FlagsRepresent(s, live, now, id, h.(revoked := R.Number(1)), g);
    } else {
      RotationRepresents(s, live, now, id, next, g.expires);
    }
  }

  // Family revocation: Redis answers Done exactly when the token leads to a
  // live family that is not yet revoked; the manager also answers Done for a
  // revoked family that it has not seen expire.
  lemma RevokeFamilySimulates(c: Config, m: M.Memory, s: R.Store, now: int, token: Digest)
    requires now >= 1 && M.Inv(m) && Represents(s, M.Alive(m, now), now)
    ensures
      var (n, out) := M.RevokeFamilyStep(m, now, token);
      var (t, reply) := R.Step(c, s, now, RevokeFamily(token));
      && Represents(t, M.Alive(n, now), now)
      && (reply.Done? <==> LiveToken(m, now, token) && !M.FamilyOf(m, token).revoked)
      && (out.Done? <==> LiveToken(m, now, token) && !M.FamilyOf(m, token).expired)
      && (!reply.Done? && LiveToken(m, now, token) ==> reply == Failed(Revoked))
      && (reply.Failed? || reply.Done?) && (out.Failed? || out.Done?)
  {
    hide Represents, R.Consistent, M.RevokeFamilyStep, M.Inv, R.HashSet;
    RevokeFamilyOnLive(m, now, token);
    var live := M.Alive(m, now);
    if LiveToken(m, now, token) {
      var id := m.tokens[token];
      var f := live[id];
      LiveFamilyIsConsistent(s, live, now, id, token);
      var h := s.family[id].value;
      assert live == live[id := f];
      if !f.revoked {
        FlagsRepresent(s, live, now, id, h.(revoked := R.Number(1)), f.(revoked := true));
      } else {
        assert f == f.(revoked := true);
      }
    } else {
      DeadToken(m, now, token);
      UnknownToken(s, live, now, token);
    }
  }

  function Coded(ids: set<FamilyId>): set<R.Raw> {
    set id | id in ids :: R.Hex32(id)
  }

  lemma {:induction false} CodedSize(ids: set<FamilyId>)
    ensures |Coded(ids)| == |ids|
  {
    if ids != {} {
      var id :| id in ids;
      CodedSize(ids - {id});
      assert Coded(ids) == Coded(ids - {id}) + {R.Hex32(id)};
    } else {
      assert Coded(ids) == {};
    }
  }

  // What the user-wide scripts see of an entry in the index of a user.
  lemma EntryIsRead(s: R.Store, live: Families, now: int, user: Text, r: R.Raw)
    requires Represents(s, live, now) && r in R.UserIndex(s, Sha256(user))
    ensures r.Hex32? && R.EntryValid(s, now, Sha256(user), r)
    ensures R.Stale(s, now, r.id) <==> r.id !in live
    ensures R.Usable(s, now, r.id) <==> r.id in live && M.Usable(live[r.id], user, now)
  {
    assert EntryRepresents(live, now, Sha256(user), r, s.user[Sha256(user)][r]);
    if r.id in live {
      assert Stored(s, r.id, live[r.id]);
    }
  }

  lemma UsableIsListed(s: R.Store, live: Families, now: int, user: Text, id: FamilyId)
    requires Represents(s, live, now) && id in live && live[id].user == user
    ensures R.Hex32(id) in R.UserIndex(s, Sha256(user))
  {
    assert Stored(s, id, live[id]);
  }

  // The user-wide scripts count what the manager counts, and refuse only an
  // index that is too large.
  lemma UserIsRead(s: R.Store, live: Families, now: int, user: Text)
    requires Represents(s, live, now)
    ensures R.UsableEntries(s, now, Sha256(user)) == Coded(M.UsableIds(live, user, now))
    ensures |R.UsableEntries(s, now, Sha256(user))| == |M.UsableIds(live, user, now)|
    ensures forall r :: r in R.StaleEntries(s, now, Sha256(user)) ==> r.Hex32? && r.id !in live
    ensures R.UserValid(s, now, Sha256(user), MAX_FAMILY_INVENTORY) <==>
            |R.UserIndex(s, Sha256(user))| <= 10000
  {
    hide Represents, R.UserIndex, R.EntryValid, R.Stale, R.Usable;
    forall r | r in R.UserIndex(s, Sha256(user))
      ensures r.Hex32? && R.EntryValid(s, now, Sha256(user), r)
      ensures R.Stale(s, now, r.id) <==> r.id !in live
      ensures R.Usable(s, now, r.id) <==> r.id in live && M.Usable(live[r.id], user, now)
    {
      EntryIsRead(s, live, now, user, r);
    }
    forall id | id in M.UsableIds(live, user, now)
      ensures R.Hex32(id) in R.UserIndex(s, Sha256(user))
    {
      UsableIsListed(s, live, now, user, id);
    }
    CodedSize(M.UsableIds(live, user, now));
  }

  lemma DropKeepsFamily(s: R.Store, owner: Digest, entries: set<R.Raw>, i: FamilyId, f: M.Family)
    requires Stored(s, i, f) && R.Hex32(i) !in entries
    ensures Stored(R.DropEntries(s, owner, entries), i, f)
  {
    hide HashStored, UsedStored, TokensStored;
    HashOnly(s, R.DropEntries(s, owner, entries), i, f);
  }

  // The objects of a family outside the indexes.
  lemma HashOnly(s: R.Store, n: R.Store, i: FamilyId, f: M.Family)
    requires n.family == s.family && n.used == s.used && n.token == s.token
    ensures HashStored(n, i, f) == HashStored(s, i, f) && UsedStored(n, i, f) == UsedStored(s, i, f)
    ensures TokensStored(n, i, f) == TokensStored(s, i, f)
  {
  }

  // Redis keeps no empty sorted set, so deleting one is not seen.
  lemma EmptyIsNoEntry(s: R.Store, owner: Digest, o: Digest)
    ensures R.UserIndex(R.DropEmpty(s, owner), o) == R.UserIndex(s, o)
    ensures R.DropEmpty(s, owner) == s.(user := R.DropEmpty(s, owner).user)
  {
  }

  lemma EmptyKeepsFamily(s: R.Store, owner: Digest, i: FamilyId, f: M.Family)
    requires Stored(s, i, f)
    ensures Stored(R.DropEmpty(s, owner), i, f)
  {
    hide HashStored, UsedStored, TokensStored, R.DropEmpty, R.UserIndex, Sound;
    EmptyIsNoEntry(s, owner, Sha256(f.user));
    HashOnly(s, R.DropEmpty(s, owner), i, f);
  }

  lemma DropKeepsNothingElse(s: R.Store, live: Families, now: int, owner: Digest, entries: set<R.Raw>)
    requires NothingElse(s, live, now)
    ensures NothingElse(R.DropEntries(s, owner, entries), live, now)
  {
    hide EntryRepresents;
    var n := R.DropEntries(s, owner, entries);
    forall o, r | o in n.user && r in n.user[o] ensures EntryRepresents(live, now, o, r, n.user[o][r]) {
      assert EntryRepresents(live, now, o, r, s.user[o][r]);
    }
  }

  lemma EmptyKeepsNothingElse(s: R.Store, live: Families, now: int, owner: Digest)
    requires NothingElse(s, live, now)
    ensures NothingElse(R.DropEmpty(s, owner), live, now)
  {
    hide EntryRepresents;
  }

  lemma PruneRepresents(s: R.Store, live: Families, now: int, user: Text)
    requires Represents(s, live, now)
    ensures Represents(R.Prune(s, now, Sha256(user)), live, now)
  {
    hide NothingElse, Stored, R.StaleEntries, R.DropEntries, R.DropEmpty;
    UserIsRead(s, live, now, user);
    var stale := R.StaleEntries(s, now, Sha256(user));
    var p := R.DropEntries(s, Sha256(user), stale);
    forall i | i in live ensures Stored(R.DropEmpty(p, Sha256(user)), i, live[i]) {
      DropKeepsFamily(s, Sha256(user), stale, i, live[i]);
      EmptyKeepsFamily(p, Sha256(user), i, live[i]);
    }
    DropKeepsNothingElse(s, live, now, Sha256(user), stale);
    EmptyKeepsNothingElse(p, live, now, Sha256(user));
  }

  lemma MarkingStored(s: R.Store, ids: set<FamilyId>, i: FamilyId, f: M.Family)
    requires Stored(s, i, f)
    ensures Stored(R.MarkRevoked(s, Coded(ids)), i, if i in ids then f.(revoked := true) else f)
  {
    var g := if i in ids then f.(revoked := true) else f;
    assert forall h :: g.Owns(h) ==> f.Owns(h);
    assert R.Hex32(i) in Coded(ids) <==> i in ids;
    hide Coded;
  }

  lemma MarkingKeepsNothingElse(s: R.Store, live: Families, now: int, ids: set<FamilyId>)
    requires NothingElse(s, live, now)
    ensures NothingElse(R.MarkRevoked(s, Coded(ids)), M.MarkRevoked(live, ids), now)
  {
    hide Coded;
    var n, left := R.MarkRevoked(s, Coded(ids)), M.MarkRevoked(live, ids);
    forall o, r | o in n.user && r in n.user[o] ensures EntryRepresents(left, now, o, r, n.user[o][r]) {
      assert EntryRepresents(live, now, o, r, s.user[o][r]);
    }
    forall h | h in n.token && n.token[h].until > now
      ensures n.token[h].value.Hex32? && n.token[h].value.id in left && left[n.token[h].value.id].Owns(h)
    {
      assert live[s.token[h].value.id].Owns(h);
    }
  }

  lemma MarkingRepresents(s: R.Store, live: Families, now: int, ids: set<FamilyId>)
    requires Represents(s, live, now)
    ensures Represents(R.MarkRevoked(s, Coded(ids)), M.MarkRevoked(live, ids), now)
  {
    hide NothingElse, Stored, R.MarkRevoked, Coded;
    forall i | i in live
      ensures Stored(R.MarkRevoked(s, Coded(ids)), i, M.MarkRevoked(live, ids)[i])
    {
      MarkingStored(s, ids, i, live[i]);
    }
    MarkingKeepsNothingElse(s, live, now, ids);
  }

  // The user-wide scripts refuse an index of more than 10000 entries, which
  // nothing but these scripts prunes.
  predicate IndexFits(s: R.Store, request: Request) {
    match request
    case RevokeUser(user) => |R.UserIndex(s, Sha256(user))| <= 10000
    case ActiveFamilies(user) => |R.UserIndex(s, Sha256(user))| <= 10000
    case _ => true
  }

  lemma AliveMarked(m: M.Memory, now: int, user: Text)
    ensures M.Alive(M.RevokeUserStep(m, now, user).0, now) ==
            M.MarkRevoked(M.Alive(m, now), M.UsableIds(M.Alive(m, now), user, now))
  {
  }

  lemma RevokeUserSimulates(c: Config, m: M.Memory, s: R.Store, now: int, user: Text)
    requires Represents(s, M.Alive(m, now), now) && IndexFits(s, RevokeUser(user))
    requires |M.UsableIds(M.Alive(m, now), user, now)| <= 10000
    ensures
      var (n, out) := M.RevokeUserStep(m, now, user);
      var (t, reply) := R.Step(c, s, now, RevokeUser(user));
      Represents(t, M.Alive(n, now), now) && out == reply
  {
    var live := M.Alive(m, now);
    hide Represents, R.UsableEntries, R.Prune, R.MarkRevoked, M.UsableIds, Coded, R.UserValid, M.MarkRevoked;
    UserIsRead(s, live, now, user);
    PruneRepresents(s, live, now, user);
    AliveMarked(m, now, user);
    MarkingRepresents(R.Prune(s, now, Sha256(user)), live, now, M.UsableIds(live, user, now));
  }

  lemma ActiveFamiliesSimulates(c: Config, m: M.Memory, s: R.Store, now: int, user: Text)
    requires Represents(s, M.Alive(m, now), now) && IndexFits(s, ActiveFamilies(user))
    requires |M.UsableIds(M.Alive(m, now), user, now)| <= 10000
    ensures
      var (n, out) := M.ActiveFamiliesStep(m, now, user);
      var (t, reply) := R.Step(c, s, now, ActiveFamilies(user));
      Represents(t, M.Alive(n, now), now) && out == reply
  {
    AliveAfterCleanup(m, now);
    hide Represents, R.UsableEntries, R.Prune, M.UsableIds, Coded, R.UserValid, M.Alive;
    UserIsRead(s, M.Alive(m, now), now, user);
    PruneRepresents(s, M.Alive(m, now), now, user);
  }
}
