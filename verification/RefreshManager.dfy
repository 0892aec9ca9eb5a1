// The SessionManager object: its two maps are updated in place, and every
// method leaves exactly the state and the outcome that RefreshMemory describes.

module RefreshManager {
  import opened Hashing
  import opened RefreshTypes
  import opened RefreshMemory

  // The hashes that lead to one of the families gone.
  ghost function HashesOf(m: Memory, gone: set<FamilyId>): set<Digest> {
    set h | h in m.tokens && m.tokens[h] in gone
  }

  // The ended families that a pass over all but todo has met.
  ghost function Gone(m: Memory, now: int, todo: set<FamilyId>): set<FamilyId> {
    set id | id in m.families && m.families[id].absolute <= now && id !in todo
  }

  // The usable families of a user that a pass over all but todo has met.
  ghost function Met(families: map<FamilyId, Family>, user: Text, now: int, todo: set<FamilyId>): set<FamilyId> {
    UsableIds(families, user, now) - todo
  }

  // Deleting the current and the used hashes of a family deletes exactly the
  // hashes that lead to it.
  lemma OwnedHashes(m: Memory, gone: set<FamilyId>, id: FamilyId)
    requires Inv(m) && id in m.families
    ensures HashesOf(m, gone + {id}) == HashesOf(m, gone) + {m.families[id].current} + m.families[id].used
  {
    assert Registered(m, id, m.families[id]);
    forall h | h in m.tokens && m.tokens[h] == id
      ensures m.families[id].Owns(h)
    {
      assert Resolves(m, h) && FamilyOf(m, h).Owns(h);
    }
  }

  lemma GoneStep(m: Memory, now: int, todo: set<FamilyId>, id: FamilyId)
    requires id in todo && id in m.families
    ensures Gone(m, now, todo - {id}) ==
            Gone(m, now, todo) + if m.families[id].absolute <= now then {id} else {}
  {
  }

  lemma MetStep(families: map<FamilyId, Family>, user: Text, now: int, todo: set<FamilyId>, id: FamilyId)
    requires id in todo && id in families
    ensures id !in Met(families, user, now, todo)
    ensures Met(families, user, now, todo - {id}) ==
            Met(families, user, now, todo) + if Usable(families[id], user, now) then {id} else {}
  {
  }

  lemma AllMet(families: map<FamilyId, Family>, user: Text, now: int)
    ensures Met(families, user, now, {}) == UsableIds(families, user, now)
  {
  }

  lemma MarkedStep(families: map<FamilyId, Family>, ids: set<FamilyId>, id: FamilyId)
    requires id in families && id !in ids
    ensures MarkRevoked(families, ids).Keys == families.Keys && MarkRevoked(families, ids)[id] == families[id]
    ensures MarkRevoked(families, ids)[id := families[id].(revoked := true)] == MarkRevoked(families, ids + {id})
  {
  }

  lemma DropTwice<K, V>(m: map<K, V>, a: set<K>, b: set<K>)
    ensures (m - a) - b == m - (a + b)
  {
  }

  lemma CleanupDrops(m: Memory, now: int)
    requires Inv(m)
    ensures Cleanup(m, now).families == m.families - Gone(m, now, {})
    ensures Cleanup(m, now).tokens == m.tokens - HashesOf(m, Gone(m, now, {}))
  {
  }

  class SessionManager {
    const config: Config
    var families: map<FamilyId, Family>
    var tokens: map<Digest, FamilyId>

    ghost function View(): Memory
      reads this
    {
      Memory(families, tokens)
    }

    ghost predicate Valid()
      reads this
    {
      config.Valid() && Inv(View())
    }

    constructor (config: Config)
      requires config.Valid()
      ensures Valid() && this.config == config && View() == Empty
    {
      this.config := config;
      families, tokens := map[], map[];
    }

    // Every family whose absolute lifetime has ended goes, with the current
    // and the used hashes it owns.
    method CleanupLocked(now: int)
      requires Valid()
      modifies this
      ensures Valid() && View() == Cleanup(old(View()), now)
    {
      ghost var m, gone := View(), {};
      var todo := families.Keys;
      while todo != {}
        invariant todo <= m.families.Keys
        invariant gone == Gone(m, now, todo)
        invariant families == m.families - gone
        invariant tokens == m.tokens - HashesOf(m, gone)
      {
        var id :| id in todo;
        var family := families[id];
        GoneStep(m, now, todo, id);
        todo := todo - {id};
        if family.absolute <= now {
          OwnedHashes(m, gone, id);
          DropTwice(m.tokens, HashesOf(m, gone), {family.current});
          DropTwice(m.tokens, HashesOf(m, gone) + {family.current}, family.used);
          DropTwice(m.families, gone, {id});
          gone := gone + {id};
          tokens := tokens - {family.current};
          tokens := tokens - family.used;
          families := families - {id};
        }
      }
      CleanupDrops(m, now);
      CleanupKeepsInv(m, now);
      hide Inv, Cleanup;
    }

    method Start(now: int, userID: Text, id: FamilyId, first: Digest) returns (out: Outcome)
      requires Valid() && id !in families && first !in tokens
      modifies this
      ensures Valid() && (View(), out) == StartStep(config, old(View()), now, userID, id, first)
    {
      CleanupLocked(now);
      assert id !in families && first !in tokens;
      hide Inv, Cleanup;
      if |families| >= config.maxFamilies {
        return Failed(Limit);
      }
      var absolute := now + config.absoluteTTL;
      var expires := now + config.refreshTTL;
      if expires > absolute {
        expires := absolute;
      }
      Insert(id, Family(userID, absolute, first, expires, {}, false, false));
      return Started(expires);
    }

    // Files a new record under its identifier and its first hash.
    method Insert(id: FamilyId, family: Family)
      requires Valid() && id !in families && family.current !in tokens && family.used == {}
      modifies this
      ensures Valid()
      ensures families == old(families)[id := family] && tokens == old(tokens)[family.current := id]
    {
      StartKeepsInv(View(), id, family);
      hide Inv;
      families := families[id := family];
      tokens := tokens[family.current := id];
    }

    method Rotate(now: int, token: Digest, next: Digest) returns (out: Outcome)
      requires Valid() && next !in tokens
      modifies this
      ensures Valid() && (View(), out) == RotateStep(config, old(View()), now, token, next)
    {
      StepKeepsInv(config, View(), now, RefreshTypes.Rotate(token, next));
      assert token in tokens ==> Resolves(View(), token);
      hide Inv;
      if token in tokens && families[tokens[token]].absolute <= now {
        Mark(tokens[token], true);
        return Failed(Expired);
      }
      CleanupLocked(now);
      assert token in tokens ==> Resolves(View(), token);
      if token !in tokens {
        return Failed(Invalid);
      }
      out := PresentLive(tokens[token], now, token, next);
    }

    // Sets the revocation flags of a family, in place.
    method Mark(id: FamilyId, expire: bool)
      requires id in families
      modifies this`families
      ensures
        var f := old(families)[id];
        families == old(families)[id := f.(revoked := true, expired := expire || f.expired)]
    {
      families := families[id := families[id].(revoked := true)];
      if expire {
        families := families[id := families[id].(expired := true)];
      }
    }

    // The part of Rotate after cleanup, once the family of the token is found.
    method PresentLive(id: FamilyId, now: int, token: Digest, next: Digest) returns (out: Outcome)
      requires id in families
      modifies this
      ensures
        var (f, result) := Present(config, old(families)[id], now, token, next);
        && out == result
        && families == old(families)[id := f]
        && tokens == if out.Rotated? then old(tokens)[next := id] else old(tokens)
    {
      var family := families[id];
      assert families == families[id := family];
      if family.revoked {
        if token in family.used {
          return Failed(Reuse);
        }
        if family.expired {
          return Failed(Expired);
        }
        return Failed(Revoked);
      }
      if family.absolute <= now || family.expires <= now {
        Mark(id, true);
        return Failed(Expired);
      }
      if token != family.current {
        Mark(id, false);
        return Failed(Reuse);
      }
      if |family.used| >= MAX_TOKENS_PER_FAMILY {
        Mark(id, false);
        return Failed(Limit);
      }
      var expires := now + config.refreshTTL;
      if expires > family.absolute {
        expires := family.absolute;
      }
      family := family.(used := family.used + {token});
      family := family.(current := next);
      family := family.(expires := expires);
      families := families[id := family];
      tokens := tokens[next := id];
      return Rotated(expires);
    }

    method RevokeFamily(now: int, token: Digest) returns (out: Outcome)
      requires Valid()
      modifies this
      ensures Valid() && (View(), out) == RevokeFamilyStep(old(View()), now, token)
    {
      RevokeFamilyKeepsInv(View(), now, token);
      assert token in tokens ==> Resolves(View(), token);
      hide Inv;
      if token in tokens && families[tokens[token]].absolute <= now {
        Mark(tokens[token], true);
        return Failed(Expired);
      }
      CleanupLocked(now);
      assert token in tokens ==> Resolves(View(), token);
      if token !in tokens {
        return Failed(Invalid);
      }
      var family := families[tokens[token]];
      if family.absolute <= now || family.expired {
        return Failed(Expired);
      }
      Mark(tokens[token], false);
      return Done;
    }

    // The loop of RevokeUser, which marks and counts in place.
    method RevokeUsable(now: int, userID: Text) returns (count: nat)
      modifies `families
      ensures count == |UsableIds(old(families), userID, now)|
      ensures families == MarkRevoked(old(families), UsableIds(old(families), userID, now))
    {
      ghost var before, met := families, {};
      var todo := families.Keys;
      count := 0;
      while todo != {}
        invariant todo <= before.Keys
        invariant met == Met(before, userID, now, todo) && count == |met|
        invariant families == MarkRevoked(before, met)
      {
        var id :| id in todo;
        MetStep(before, userID, now, todo, id);
        MarkedStep(before, met, id);
        hide Met, MarkRevoked, UsableIds;
        todo := todo - {id};
        if families[id].user == userID && !families[id].revoked && families[id].expires > now {
          families := families[id := families[id].(revoked := true)];
          count := count + 1;
          met := met + {id};
        }
      }
      AllMet(before, userID, now);
    }

    method RevokeUser(now: int, userID: Text) returns (out: Outcome)
      requires Valid()
      modifies this
      ensures Valid() && (View(), out) == RevokeUserStep(old(View()), now, userID)
    {
      RevokeUserKeepsInv(View(), now, userID);
      CleanupLocked(now);
      hide Inv, Cleanup;
      var count := RevokeUsable(now, userID);
      return Count(count);
    }

    // The loop of ActiveFamilies, over families within their absolute lifetime.
    method CountUsable(now: int, userID: Text) returns (count: nat)
      requires forall id :: id in families ==> families[id].absolute > now
      ensures count == |UsableIds(families, userID, now)|
    {
      ghost var met := {};
      var todo := families.Keys;
      count := 0;
      while todo != {}
        invariant todo <= families.Keys
        invariant met == Met(families, userID, now, todo) && count == |met|
      {
        var id :| id in todo;
        MetStep(families, userID, now, todo, id);
        hide Met, UsableIds;
        todo := todo - {id};
        var family := families[id];
        if family.user == userID && !family.revoked && family.expires > now && family.absolute > now {
          count := count + 1;
          met := met + {id};
        }
      }
      AllMet(families, userID, now);
    }

    method ActiveFamilies(now: int, userID: Text) returns (out: Outcome)
      requires Valid()
      modifies this
      ensures Valid() && (View(), out) == ActiveFamiliesStep(old(View()), now, userID)
    {
      CleanupLocked(now);
      assert forall id :: id in families ==> families[id].absolute > now;
      hide Inv, Cleanup;
      var count := CountUsable(now, userID);
      return Count(count);
    }
  }
}
