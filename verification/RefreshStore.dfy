// The Redis side as an object: the Lua scripts run against it step by step and
// leave exactly the store and the reply that RefreshScripts describes.

module RefreshStore {
  import opened Common
  import opened Hashing
  import opened RefreshTypes
  import opened RedisKeys
  import opened RefreshScripts
  import Scripts = RefreshScripts

  class RedisSessions {
    var family: map<FamilyId, Expiring<FamilyHash>>
    var used: map<FamilyId, Expiring<set<Raw>>>
    var token: map<Digest, Expiring<Raw>>
    var global: map<FamilyId, int>
    var user: map<Digest, map<Raw, int>>

    function View(): Store
      reads this
    {
      Store(family, used, token, global, user)
    }

    method CreateScript(now: int, absolute: int, expires: int, maxFamilies: int,
                        owner: Digest, id: FamilyId, first: Digest) returns (code: int)
      modifies this
      ensures (View(), code) == Create(old(View()), now, absolute, expires, maxFamilies, owner, id, first)
    {
      global := map i | i in global && global[i] > now :: global[i];
      if |global| >= maxFamilies {
        return 5;
      }
      if Get(family, id, now).Some? {
        return 6;
      }
      var ttl := absolute - now;
      if ttl < 1 {
        return 2;
      }
      var hash := FamilyHash(Hex64(owner), Number(absolute), Number(expires), Hex64(first), Number(0), Number(0));
      family := family[id := Expiring(hash, now + ttl)];
      token := token[first := Expiring(Hex32(id), now + ttl)];
      user := user[owner := (if owner in user then user[owner] else map[])[Hex32(id) := absolute]];
      global := global[id := absolute];
      return 0;
    }

    // The validation that rotation and family revocation share. It reads only.
    method Validate(now: int, id: FamilyId, f: FamilyHash, presented: Digest, maximum: int) returns (ok: bool)
      ensures ok == Consistent(View(), now, id, f, presented, maximum)
    {
      if !WellFormed(f) {
        return false;
      }
      var members := Members(View(), id, now);
      if |members| > maximum {
        return false;
      }
      var todo := members;
      while todo != {}
        invariant todo <= members
        invariant forall u :: u in members && u !in todo ==> u.Hex64? && u != f.current && MapsTo(View(), now, u, id)
      {
        var u :| u in todo;
        if !u.Hex64? || u == f.current || Get(token, u.digest, now) != Some(Hex32(id)) {
          return false;
        }
        todo := todo - {u};
      }
      if Get(token, f.current.digest, now) != Some(Hex32(id)) {
        return false;
      }
      if Hex64(presented) != f.current && Hex64(presented) !in members {
        return false;
      }
      if f.absolute.value > now {
        var owner := f.userHash.digest;
        if id !in global || global[id] != f.absolute.value ||
           owner !in user || Hex32(id) !in user[owner] || user[owner][Hex32(id)] != f.absolute.value
        {
          return false;
        }
      }
      return true;
    }

    // HSET on a family that exists: its time to live stays.
    method WriteHash(id: FamilyId, f: FamilyHash)
      requires id in family
      modifies `family
      ensures View() == HashSet(old(View()), id, f)
    {
      family := family[id := family[id].(value := f)];
    }

    method RotateScript(now: int, presented: Digest, next: Digest, refreshTTL: int, maximum: int)
      returns (reply: RotateReply)
      modifies this
      ensures (View(), reply) == Scripts.Rotate(old(View()), now, presented, next, refreshTTL, maximum)
      ensures reply == Code(1) ==> View() == old(View())
    {
      if now < 1 || refreshTTL < 1 || maximum < 1 || maximum > MAX_TOKENS_PER_FAMILY {
        return Code(1);
      }
      var mapping: Option<Raw> := Get(token, presented, now);
      if mapping.None? || !mapping.value.Hex32? {
        return Code(1);
      }
      var id := mapping.value.id;
      var hash: Option<FamilyHash> := Get(family, id, now);
      if hash.None? {
        return Code(2);
      }
      var f := hash.value;
      var ok := Validate(now, id, f, presented, maximum);
      if !ok {
        return Code(1);
      }
      if f.absolute.value <= now {
        return Code(2);
      }
      if f.revoked == Number(1) {
        return Code(if f.current != Hex64(presented) then 4 else 3);
      }
      if f.current != Hex64(presented) {
        WriteHash(id, f.(revoked := Number(1)));
        return Code(4);
      }
      if f.expires.value <= now {
        WriteHash(id, f.(revoked := Number(1), expired := Number(1)));
        return Code(2);
      }
      if |Members(View(), id, now)| >= maximum {
        WriteHash(id, f.(revoked := Number(1)));
        return Code(5);
      }
      if Get(token, next, now).Some? {
        return Code(1);
      }
      var expires := now + refreshTTL;
      if expires > f.absolute.value {
        expires := f.absolute.value;
      }
      WriteRotation(now, id, f, presented, next, expires);
      return Next(expires);
    }

    // The writes of a successful rotation, in script order.
    method WriteRotation(now: int, id: FamilyId, f: FamilyHash, presented: Digest, next: Digest, expires: int)
      requires id in family && f.absolute.Number?
      modifies this
      ensures View() == Advance(old(View()), now, id, f, presented, next, expires)
    {
      var ttl := f.absolute.value - now;
      used := used[id := Expiring(Members(View(), id, now) + {Hex64(presented)}, now + ttl)];
      family := family[id := family[id].(value := f.(current := Hex64(next), expires := Number(expires)))];
      token := token[next := Expiring(Hex32(id), now + ttl)];
    }

    method RevokeFamilyScript(now: int, presented: Digest, maximum: int) returns (code: int)
      modifies this
      ensures (View(), code) == Scripts.RevokeFamily(old(View()), now, presented, maximum)
      ensures code != 0 ==> View() == old(View())
    {
      if now < 1 || maximum < 1 || maximum > MAX_TOKENS_PER_FAMILY {
        return 1;
      }
      var mapping: Option<Raw> := Get(token, presented, now);
      if mapping.None? || !mapping.value.Hex32? {
        return 1;
      }
      var id := mapping.value.id;
      var hash: Option<FamilyHash> := Get(family, id, now);
      if hash.None? {
        return 2;
      }
      var f := hash.value;
      var ok := Validate(now, id, f, presented, maximum);
      if !ok {
        return 1;
      }
      if f.absolute.value <= now {
        return 2;
      }
      if f.revoked == Number(1) {
        return 3;
      }
      WriteHash(id, f.(revoked := Number(1)));
      return 0;
    }

    // The first loop of the user-wide scripts: every entry of the index is
    // validated, and the state of its family recorded, before anything is
    // written.
    method ValidateUser(now: int, owner: Digest, maximum: int)
      returns (ok: bool, ids: seq<Raw>, states: seq<Option<FamilyHash>>)
      ensures ok == UserValid(View(), now, owner, maximum)
      ensures ok ==> Recorded(View(), now, owner, ids, states)
    {
      ids, states := [], [];
      if maximum < 1 || maximum > MAX_FAMILY_INVENTORY {
        return false, ids, states;
      }
      var index := UserIndex(View(), owner);
      if |index| > maximum {
        return false, ids, states;
      }
      ids := Range(index.Keys);
      assert forall r :: r in ids ==> r in Elements(ids);
      for i := 0 to |ids|
        invariant |states| == i
        invariant forall j :: 0 <= j < i ==> EntryValid(View(), now, owner, ids[j])
        invariant forall j :: 0 <= j < i ==> states[j] == Get(family, ids[j].id, now)
      {
        if !EntryValid(View(), now, owner, ids[i]) {
          return false, ids, states;
        }
        states := states + [Get(family, ids[i].id, now)];
      }
      assert forall r :: r in index ==> r in Elements(ids);
      return true, ids, states;
    }

    // ZREM of one entry from both indexes.
    method DropEntry(owner: Digest, r: Raw)
      requires owner in user
      modifies `user, `global
      ensures View() == DropEntries(old(View()), owner, {r})
    {
      user := user[owner := user[owner] - {r}];
      global := map i | i in global && Hex32(i) != r :: global[i];
    }

    // What the second loop does with one entry, by its recorded state.
    method SweepEntry(now: int, owner: Digest, r: Raw, state: Option<FamilyHash>, revoke: bool,
                      ghost s: Store, ghost met: set<Raw>)
      returns (counted: bool)
      requires r in UserIndex(s, owner) && r !in met && EntryValid(s, now, owner, r)
      requires state == Get(s.family, r.id, now)
      requires View() == Swept(s, now, owner, met, revoke)
      modifies this
      ensures counted == (r in UsableEntries(s, now, owner))
      ensures View() == Swept(s, now, owner, met + {r}, revoke)
    {
      SweepStep(s, now, owner, met, r, revoke);
      hide Swept, StaleEntries, UsableEntries, EntryValid, UserIndex, DropEntries, HashSet;
      if state.None? || state.value.absolute.value <= now {
        DropEntry(owner, r);
        return false;
      }
      if state.value.revoked != Number(1) && state.value.expires.value > now {
        if revoke {
          WriteHash(r.id, family[r.id].value.(revoked := Number(1)));
        }
        return true;
      }
      return false;
    }

    // The second loop: stale entries leave both indexes; when asked to revoke,
    // usable families are marked as they are met.
    method Sweep(now: int, owner: Digest, ids: seq<Raw>, states: seq<Option<FamilyHash>>, revoke: bool) returns (count: nat)
      requires Recorded(View(), now, owner, ids, states)
      modifies this
      ensures count == |UsableEntries(old(View()), now, owner)|
      ensures View() == Swept(old(View()), now, owner, UserIndex(old(View()), owner).Keys, revoke)
    {
      ghost var s := View();
      SweptNone(s, now, owner, revoke);
      assert Elements(ids[..0]) == {};
      assert UsableEntries(s, now, owner) * {} == {};
      count := 0;
      hide Swept, StaleEntries, UsableEntries, EntryValid, Elements, Recorded;
      for i := 0 to |ids|
        invariant count == |UsableEntries(s, now, owner) * Elements(ids[..i])|
        invariant View() == Swept(s, now, owner, Elements(ids[..i]), revoke)
      {
        RecordedAt(s, now, owner, ids, states, i);
        NextElement(ids, i);
        MetOneMore(UsableEntries(s, now, owner), Elements(ids[..i]), ids[i]);
        var counted := SweepEntry(now, owner, ids[i], states[i], revoke, s, Elements(ids[..i]));
        if counted {
          count := count + 1;
        }
      }
      RecordedAll(s, now, owner, ids, states);
      assert ids[..|ids|] == ids;
      AllUsable(s, now, owner);
    }

    method RevokeUserScript(now: int, owner: Digest, maximum: int) returns (count: int)
      modifies this
      ensures (View(), count) == Scripts.RevokeUser(old(View()), now, owner, maximum)
      ensures count == -1 ==> View() == old(View())
    {
      var ok, ids, states := ValidateUser(now, owner, maximum);
      if !ok {
        return -1;
      }
      ghost var s := View();
      count := Sweep(now, owner, ids, states, true);
      SweptAll(s, now, owner, true);
      if |UserIndex(View(), owner)| == 0 {
        user := user - {owner};
      }
    }

    method ActiveFamiliesScript(now: int, owner: Digest, maximum: int) returns (count: int)
      modifies this
      ensures (View(), count) == Scripts.ActiveFamilies(old(View()), now, owner, maximum)
      ensures count == -1 ==> View() == old(View())
    {
      var ok, ids, states := ValidateUser(now, owner, maximum);
      if !ok {
        return -1;
      }
      ghost var s := View();
      count := Sweep(now, owner, ids, states, false);
      SweptAll(s, now, owner, false);
      if |UserIndex(View(), owner)| == 0 {
        user := user - {owner};
      }
    }
  }

  predicate Numbered(s: Store, now: int, id: FamilyId) {
    match Get(s.family, id, now)
    case None => true
    case Some(f) => f.absolute.Number? && f.expires.Number?
  }

  // The entries of an index with the states of their families.
  ghost predicate Recorded(s: Store, now: int, owner: Digest, ids: seq<Raw>, states: seq<Option<FamilyHash>>) {
    && Distinct(ids) && Elements(ids) == UserIndex(s, owner).Keys && |states| == |ids|
    && (forall i :: 0 <= i < |ids| ==>
          ids[i] in UserIndex(s, owner) && EntryValid(s, now, owner, ids[i]) && states[i] == Get(s.family, ids[i].id, now))
  }

  lemma RecordedAt(s: Store, now: int, owner: Digest, ids: seq<Raw>, states: seq<Option<FamilyHash>>, i: nat)
    requires Recorded(s, now, owner, ids, states) && i < |ids|
    ensures Distinct(ids) && |states| == |ids|
    ensures ids[i] in UserIndex(s, owner) && EntryValid(s, now, owner, ids[i]) && states[i] == Get(s.family, ids[i].id, now)
  {
  }

  lemma RecordedAll(s: Store, now: int, owner: Digest, ids: seq<Raw>, states: seq<Option<FamilyHash>>)
    requires Recorded(s, now, owner, ids, states)
    ensures Elements(ids) == UserIndex(s, owner).Keys
  {
  }

  lemma AllUsable(s: Store, now: int, owner: Digest)
    ensures UsableEntries(s, now, owner) * UserIndex(s, owner).Keys == UsableEntries(s, now, owner)
  {
  }

  function Meet(p: Store, now: int, owner: Digest, id: FamilyId, revoke: bool): Store {
    if Stale(p, now, id) then DropEntries(p, owner, {Hex32(id)})
    else if revoke && Usable(p, now, id) then HashSet(p, id, p.family[id].value.(revoked := Number(1)))
    else p
  }

  // The store after the sweep has met some entries of the index.
  function Swept(s: Store, now: int, owner: Digest, met: set<Raw>, revoke: bool): Store {
    var p := DropEntries(s, owner, StaleEntries(s, now, owner) * met);
    if revoke then MarkRevoked(p, UsableEntries(s, now, owner) * met) else p
  }

  lemma DropTwice(s: Store, owner: Digest, a: set<Raw>, b: set<Raw>)
    ensures DropEntries(DropEntries(s, owner, a), owner, b) == DropEntries(s, owner, a + b)
  {
    if owner in s.user {
      assert s.user[owner] - a - b == s.user[owner] - (a + b);
    }
  }

  lemma DropNone(s: Store, owner: Digest)
    ensures DropEntries(s, owner, {}) == s
  {
    if owner in s.user {
      assert s.user[owner] - {} == s.user[owner];
    }
    assert DropEntries(s, owner, {}).user == s.user;
  }

  lemma MarkOneMore(s: Store, entries: set<Raw>, id: FamilyId)
    requires id in s.family && Hex32(id) !in entries
    ensures id in MarkRevoked(s, entries).family
    ensures MarkRevoked(s, entries + {Hex32(id)}) ==
            HashSet(MarkRevoked(s, entries), id, s.family[id].value.(revoked := Number(1)))
  {
  }

  lemma MarkNone(s: Store)
    ensures MarkRevoked(s, {}) == s
  {
  }

  lemma DropAfterMark(s: Store, owner: Digest, entries: set<Raw>, r: Raw)
    ensures DropEntries(MarkRevoked(s, entries), owner, {r}) == MarkRevoked(DropEntries(s, owner, {r}), entries)
  {
  }

  lemma SweptNone(s: Store, now: int, owner: Digest, revoke: bool)
    ensures Swept(s, now, owner, {}, revoke) == s
  {
    DropNone(s, owner);
    MarkNone(s);
    assert StaleEntries(s, now, owner) * {} == {} && UsableEntries(s, now, owner) * {} == {};
  }

  lemma SweptAll(s: Store, now: int, owner: Digest, revoke: bool)
    ensures
      var n := Swept(s, now, owner, UserIndex(s, owner).Keys, revoke);
      DropEmpty(n, owner) ==
        if revoke then MarkRevoked(Prune(s, now, owner), UsableEntries(s, now, owner)) else Prune(s, now, owner)
  {
    assert StaleEntries(s, now, owner) * UserIndex(s, owner).Keys == StaleEntries(s, now, owner);
    assert UsableEntries(s, now, owner) * UserIndex(s, owner).Keys == UsableEntries(s, now, owner);
    hide StaleEntries, UsableEntries;
  }

  lemma MetOneMore(all: set<Raw>, met: set<Raw>, r: Raw)
    requires r !in met
    ensures all * (met + {r}) == if r in all then all * met + {r} else all * met
    ensures |all * (met + {r})| == |all * met| + if r in all then 1 else 0
  {
  }

  // Meeting one more entry.
  lemma SweepStep(s: Store, now: int, owner: Digest, met: set<Raw>, r: Raw, revoke: bool)
    requires r in UserIndex(s, owner) && r !in met && EntryValid(s, now, owner, r)
    ensures r.Hex32?
    ensures
      var p := Swept(s, now, owner, met, revoke);
      && owner in p.user
      && Numbered(p, now, r.id)
      && r == Hex32(r.id) && Swept(s, now, owner, met + {r}, revoke) == Meet(p, now, owner, r.id, revoke)
      && (r in UsableEntries(s, now, owner) <==> !Stale(p, now, r.id) && Usable(p, now, r.id))
      && Stale(p, now, r.id) == Stale(s, now, r.id) && Usable(p, now, r.id) == Usable(s, now, r.id)
      && Numbered(s, now, r.id) && (Usable(s, now, r.id) ==> r.id in p.family)
  {
    SweepLeavesEntry(s, now, owner, met, r, revoke);
    var stale, usable := StaleEntries(s, now, owner), UsableEntries(s, now, owner);
    assert (r in stale <==> Stale(s, now, r.id)) && (r in usable <==> Usable(s, now, r.id));
    assert Usable(s, now, r.id) ==> r.id in s.family && !Stale(s, now, r.id);
    assert r == Hex32(r.id);
    hide StaleEntries, UsableEntries, Stale, Usable, EntryValid, UserIndex;
    MetOneMore(stale, met, r);
    MetOneMore(usable, met, r);
    var p := DropEntries(s, owner, stale * met);
    DropTwice(s, owner, stale * met, {r});
    DropAfterMark(p, owner, usable * met, r);
    if r in usable {
      MarkOneMore(p, usable * met, r.id);
    }
  }

  lemma SweepLeavesEntry(s: Store, now: int, owner: Digest, met: set<Raw>, r: Raw, revoke: bool)
    requires r in UserIndex(s, owner) && r !in met && EntryValid(s, now, owner, r)
    ensures
      var p := Swept(s, now, owner, met, revoke);
      && owner in p.user
      && (r.id in p.family <==> r.id in s.family)
      && (r.id in p.family ==> p.family[r.id] == s.family[r.id])
      && Numbered(p, now, r.id)
      && Stale(p, now, r.id) == Stale(s, now, r.id) && Usable(p, now, r.id) == Usable(s, now, r.id)
  {
    assert r == Hex32(r.id);
  }
}
