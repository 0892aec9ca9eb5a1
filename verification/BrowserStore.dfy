// The Redis side of browser sessions as an object: the Lua scripts run against
// it step by step and leave exactly the store and the reply that BrowserScripts
// describes.

module BrowserStore {
  import opened Common
  import opened Hashing
  import opened RedisKeys
  import opened BrowserTypes
  import opened BrowserScripts

  class RedisBrowserSessions {
    var payload: map<Digest, Expiring<Payload>>
    var metadata: map<Digest, Expiring<Link>>
    var id: map<Digest, Expiring<Link>>
    var global: Index
    var subject: map<Digest, Index>

    function View(): Store
      reads this
    {
      Store(payload, metadata, id, global, subject)
    }

    // ZREMRANGEBYSCORE on the index of one subject.
    method DropExpiredOfSubject(now: int, owner: Digest)
      modifies `subject
      ensures View() == DropExpiredOf(old(View()), now, owner)
    {
      if owner in subject {
        subject := subject[owner := Unexpired(subject[owner], now)];
      }
    }

    method CreateScript(now: int, expires: int, maximum: int, subjectMaximum: int, body: Payload,
                        token: Digest, owner: Digest, sessionId: Digest) returns (code: int)
      modifies this
      ensures (View(), code) == Create(old(View()), now, expires, maximum, subjectMaximum, body, token, owner, sessionId)
    {
      hide Taken, Unexpired;
      if !CreateArguments(now, expires, maximum, subjectMaximum) {
        return 5;
      }
      if |global| > MAX_INVENTORY || |SubjectIndex(View(), owner)| > MAX_INVENTORY {
        return 5;
      }
      global := Unexpired(global, now);
      DropExpiredOfSubject(now, owner);
      if Taken(View(), now, token, owner, sessionId) {
        return 2;
      }
      if |global| >= maximum {
        return 1;
      }
      if |SubjectIndex(View(), owner)| >= subjectMaximum {
        return 4;
      }
      WriteSession(now, expires - now, body, token, owner, sessionId);
      return 0;
    }

    // The five writes of a creation, in script order.
    method WriteSession(now: int, ttl: int, body: Payload, token: Digest, owner: Digest, sessionId: Digest)
      modifies this
      ensures View() == Insert(old(View()), now + ttl, body, token, owner, sessionId)
    {
      payload := payload[token := Expiring(body, now + ttl)];
      id := id[sessionId := Expiring(Pair(owner, token), now + ttl)];
      metadata := metadata[token := Expiring(Pair(owner, sessionId), now + ttl)];
      global := global[Hex64(token) := now + ttl];
      subject := subject[owner := SubjectIndex(View(), owner)[Hex64(token) := now + ttl]];
    }

    method DeleteSession(token: Digest, owner: Digest, sessionId: Digest)
      modifies this
      ensures View() == Remove(old(View()), token, owner, sessionId)
    {
      payload := payload - {token};
      id := id - {sessionId};
      metadata := metadata - {token};
      global := global - {Hex64(token)};
      if owner in subject {
        subject := subject[owner := subject[owner] - {Hex64(token)}];
      }
    }

    method DeleteScript(now: int, token: Digest) returns (deleted: int)
      modifies this
      ensures (View(), deleted) == Delete(old(View()), now, token)
    {
      hide Remove;
      var link: Option<Link> := Get(metadata, token, now);
      if link.None? || !link.value.Pair? {
        return 0;
      }
      var owner, sessionId := link.value.owner, link.value.other;
      if Get(id, sessionId, now) != Some(Pair(owner, token)) {
        return 0;
      }
      deleted := if Get(payload, token, now).Some? then 1 else 0;
      DeleteSession(token, owner, sessionId);
    }

    method DeleteByIDScript(now: int, owner: Digest, sessionId: Digest) returns (deleted: int)
      modifies this
      ensures (View(), deleted) == DeleteByID(old(View()), now, owner, sessionId)
    {
      hide Remove;
      var mapping: Option<Link> := Get(id, sessionId, now);
      if mapping.None? || !mapping.value.Pair? || mapping.value.owner != owner {
        return 0;
      }
      var token := mapping.value.other;
      if Get(metadata, token, now) != Some(Pair(owner, sessionId)) {
        return 0;
      }
      deleted := if Get(payload, token, now).Some? then 1 else 0;
      DeleteSession(token, owner, sessionId);
    }

    // The compare-and-swap of a rename.
    method UpdateDeviceNameScript(now: int, readAt: int, snap: Snapshot, updated: Payload) returns (code: int)
      modifies `payload
      ensures (View(), code) == Swap(old(View()), now, readAt, snap, updated)
      ensures code == 0 ==> View() == old(View())
    {
      if readAt < 1 || snap.globalScore < 1 || snap.subjectScore < 1 ||
         snap.globalScore != snap.subjectScore || snap.globalScore <= readAt
      {
        return 0;
      }
      var token, member := snap.token, Hex64(snap.token);
      if Get(id, snap.id, now) != Some(Pair(snap.owner, token)) {
        return 0;
      }
      if Get(metadata, token, now) != Some(Pair(snap.owner, snap.id)) {
        return 0;
      }
      if Get(payload, token, now) != Some(snap.payload) {
        return 0;
      }
      var ttl := payload[token].until - now;
      if member !in global || global[member] != snap.globalScore ||
         snap.owner !in subject || member !in subject[snap.owner] || subject[snap.owner][member] != snap.subjectScore
      {
        return 0;
      }
      payload := payload[token := Expiring(updated, now + ttl)];
      return 1;
    }

    // The first loop of subject-wide deletion: every entry must lead to a
    // session of the subject and back.
    method CollectIds(now: int, owner: Digest, tokens: seq<Member>) returns (ids: Option<seq<Digest>>)
      ensures ids.None? <==> exists r :: r in Elements(tokens) && EntryId(View(), now, owner, r).None?
      ensures ids.Some? ==> |ids.value| == |tokens|
      ensures ids.Some? ==> forall i :: 0 <= i < |tokens| ==> EntryId(View(), now, owner, tokens[i]) == Some(ids.value[i])
    {
      var found: seq<Digest> := [];
      for i := 0 to |tokens|
        invariant |found| == i
        invariant forall j :: 0 <= j < i ==> EntryId(View(), now, owner, tokens[j]) == Some(found[j])
      {
        var entry: Option<Digest> := EntryId(View(), now, owner, tokens[i]);
        if entry.None? {
          assert tokens[i] in Elements(tokens);
          return None;
        }
        found := found + [entry.value];
      }
      return Some(found);
    }

    // The second loop: DEL of the three keys and ZREM from the global index.
    method DeleteCollected(now: int, owner: Digest, tokens: seq<Member>, ids: seq<Digest>)
      requires Distinct(tokens) && |ids| == |tokens|
      requires forall i :: 0 <= i < |tokens| ==> EntryId(View(), now, owner, tokens[i]) == Some(ids[i])
      modifies this
      ensures View() == RemoveAll(old(View()), Elements(tokens), EntryIds(old(View()), now, owner, Elements(tokens)))
    {
      ghost var s := View();
      hide Elements, EntryId, EntryIds, RemoveAll;
      RemoveNone(s, now, owner, tokens);
      for i := 0 to |tokens|
        invariant View() == RemoveAll(s, Elements(tokens[..i]), EntryIds(s, now, owner, Elements(tokens[..i])))
      {
        NextElement(tokens, i);
        RemoveOneMore(s, now, owner, Elements(tokens[..i]), tokens[i]);
        IsHex(s, now, owner, tokens[i]);
        DeleteOne(tokens[i].token, ids[i]);
      }
      assert tokens[..|tokens|] == tokens;
    }

    method DeleteOne(token: Digest, sessionId: Digest)
      modifies this
      ensures View() == RemoveOne(old(View()), token, sessionId)
    {
      payload := payload - {token};
      id := id - {sessionId};
      metadata := metadata - {token};
      global := global - {Hex64(token)};
    }

    method DeleteForSubjectScript(now: int, owner: Digest, maximum: int) returns (count: int)
      modifies this
      ensures (View(), count) == DeleteForSubject(old(View()), now, owner, maximum)
    {
      hide EntryId, EntryIds, RemoveAll, Unexpired, Elements;
      if maximum < 1 || |SubjectIndex(View(), owner)| > maximum {
        return -1;
      }
      ghost var s := View();
      DropExpiredOfSubject(now, owner);
      var tokens := Range(SubjectIndex(View(), owner).Keys);
      SameEntryIds(s, View(), now, owner, Elements(tokens));
      var ids := CollectIds(now, owner, tokens);
      if ids.None? {
        return -1;
      }
      DeleteCollected(now, owner, tokens, ids.value);
      ElementsSize(tokens);
      subject := subject - {owner};
      return |tokens|;
    }

    // The listing script followed by the decoding of its reply. picked are the
    // entries with the lowest scores, up to the limit.
    method ListInventoryScript(now: int, owner: Digest, limit: int)
      returns (items: Option<set<Info>>, ghost picked: set<Member>)
      modifies this
      ensures now >= 1 && 1 <= limit <= MAX_INVENTORY && |SubjectIndex(old(View()), owner)| <= MAX_INVENTORY ==>
                Lowest(Unexpired(SubjectIndex(old(View()), owner), now), limit, picked)
      ensures (View(), items) == ListInventory(old(View()), now, owner, limit, picked)
    {
      hide Unexpired, Elements, Lowest, SubjectIndex;
      if now < 1 || limit < 1 || limit > MAX_INVENTORY || |SubjectIndex(View(), owner)| > MAX_INVENTORY {
        return None, {};
      }
      DroppedIndex(View(), now, owner);
      DropExpiredOfSubject(now, owner);
      var tokens := ZRange(SubjectIndex(View(), owner), limit);
      picked := Elements(tokens);
      items := DecodeListing(now, owner, tokens);
    }

    method DecodeListing(now: int, owner: Digest, picked: seq<Member>) returns (items: Option<set<Info>>)
      ensures items.None? <==> exists r :: r in Elements(picked) && !Listable(View(), now, owner, r)
      ensures items.Some? ==> items.value == set r | r in Elements(picked) :: ListedInfo(View(), now, owner, r)
    {
      hide Listable, Elements;
      var found: set<Info> := {};
      ListedNone(View(), now, owner, picked);
      for i := 0 to |picked|
        invariant ListsTo(View(), now, owner, picked[..i], found)
      {
        ListedOneMore(View(), now, owner, picked, i, found);
        if !Listable(View(), now, owner, picked[i]) {
          return None;
        }
        found := found + {ListedInfo(View(), now, owner, picked[i])};
      }
      assert picked[..|picked|] == picked;
      return Some(found);
    }
  }

  // The index is split into entries picked, in some order, and the rest, none of
  // which has a lower score.
  ghost predicate Split(index: Index, picked: seq<Member>, rest: set<Member>) {
    && Distinct(picked) && rest !! Elements(picked) && rest + Elements(picked) == index.Keys
    && (forall r, q :: r in Elements(picked) && q in rest ==> index[r] <= index[q])
  }

  lemma NothingPicked(index: Index)
    ensures Split(index, [], index.Keys)
  {
  }

  lemma OneMorePicked(index: Index, picked: seq<Member>, rest: set<Member>, r: Member)
    requires Split(index, picked, rest) && r in rest && forall q :: q in rest ==> index[r] <= index[q]
    ensures Split(index, picked + [r], rest - {r})
  {
    AddElement(picked, r);
    assert r !in Elements(picked);
  }

  lemma PickedIsLowest(index: Index, limit: nat, picked: seq<Member>, rest: set<Member>)
    requires Split(index, picked, rest) && |picked| <= limit && (|picked| == limit || rest == {})
    ensures Distinct(picked) && Lowest(index, limit, Elements(picked))
  {
    ElementsSize(picked);
    SubsetSize(Elements(picked), index.Keys);
    if rest == {} {
      assert Elements(picked) == index.Keys;
    }
  }

  // ZRANGE from the lowest score up to a limit.
  method ZRange(index: Index, limit: nat) returns (picked: seq<Member>)
    ensures Distinct(picked) && Lowest(index, limit, Elements(picked))
  {
    hide Lowest, Split;
    picked := [];
    var rest := index.Keys;
    NothingPicked(index);
    while |picked| < limit && rest != {}
      invariant |picked| <= limit && Split(index, picked, rest) && rest <= index.Keys
    {
      var r := LowestOf(index, rest);
      OneMorePicked(index, picked, rest, r);
      picked := picked + [r];
      rest := rest - {r};
    }
    PickedIsLowest(index, limit, picked, rest);
  }

  method LowestOf(index: Index, rest: set<Member>) returns (r: Member)
    requires rest != {} && rest <= index.Keys
    ensures r in rest && forall q :: q in rest ==> index[r] <= index[q]
  {
    r :| r in rest;
    var todo := rest;
    while todo != {}
      invariant r in rest && todo <= rest
      invariant forall q :: q in rest && q !in todo ==> index[r] <= index[q]
    {
      var q :| q in todo;
      if index[q] < index[r] {
        r := q;
      }
      todo := todo - {q};
    }
  }

  function RemoveOne(s: Store, token: Digest, id: Digest): Store {
    Store(s.payload - {token}, s.metadata - {token}, s.id - {id}, s.global - {Hex64(token)}, s.subject)
  }

  lemma RemoveNone(s: Store, now: int, owner: Digest, tokens: seq<Member>)
    ensures RemoveAll(s, Elements(tokens[..0]), EntryIds(s, now, owner, Elements(tokens[..0]))) == s
  {
    assert Elements(tokens[..0]) == {};
    assert Tokens({}) == {} && EntryIds(s, now, owner, {}) == {};
  }

  lemma RemoveOneMore(s: Store, now: int, owner: Digest, done: set<Member>, r: Member)
    requires EntryId(s, now, owner, r).Some?
    ensures r.Hex64?
    ensures RemoveAll(s, done + {r}, EntryIds(s, now, owner, done + {r}))
            == RemoveOne(RemoveAll(s, done, EntryIds(s, now, owner, done)), r.token, EntryId(s, now, owner, r).value)
  {
    IsHex(s, now, owner, r);
    hide EntryId;
    assert Tokens(done + {r}) == Tokens(done) + {r.token};
    assert EntryIds(s, now, owner, done + {r}) == EntryIds(s, now, owner, done) + {EntryId(s, now, owner, r).value};
  }

  lemma SameEntryIds(s: Store, p: Store, now: int, owner: Digest, members: set<Member>)
    requires p == s.(subject := p.subject)
    ensures forall r :: EntryId(p, now, owner, r) == EntryId(s, now, owner, r)
    ensures EntryIds(p, now, owner, members) == EntryIds(s, now, owner, members)
  {
  }

  ghost predicate ListsTo(s: Store, now: int, owner: Digest, picked: seq<Member>, found: set<Info>) {
    && (forall r :: r in Elements(picked) ==> Listable(s, now, owner, r))
    && found == set r | r in Elements(picked) :: ListedInfo(s, now, owner, r)
  }

  lemma ListedNone(s: Store, now: int, owner: Digest, picked: seq<Member>)
    ensures ListsTo(s, now, owner, picked[..0], {})
  {
  }

  lemma ListedOneMore(s: Store, now: int, owner: Digest, picked: seq<Member>, i: nat, found: set<Info>)
    requires i < |picked| && ListsTo(s, now, owner, picked[..i], found)
    ensures picked[i] in Elements(picked)
    ensures Listable(s, now, owner, picked[i]) ==>
              ListsTo(s, now, owner, picked[..i + 1], found + {ListedInfo(s, now, owner, picked[i])})
  {
    hide Listable;
    assert picked[..i + 1] == picked[..i] + [picked[i]];
  }
}
