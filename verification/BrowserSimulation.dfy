// The five Redis objects of a browser session agree with each other in every
// reachable store, and the scripts simulate the in-memory manager on them.

module BrowserSimulation {
  import opened Common
  import opened Hashing
  import opened RedisKeys
  import opened BrowserTypes
  import M = BrowserMemory
  import R = BrowserScripts

  type Sessions = M.Sessions

  function IdOf(r: Record): Digest {
    Sha256(r.sessionId)
  }

  predicate Sound(r: Record, now: int) {
    R.Decodes(r) && r.created <= now < r.expires
  }

  // The five objects of a live session: payload, metadata and mapping end with
  // the session, both index scores are its expiry, and the mapping from token to
  // public identifier and back are inverse.
  predicate Stored(s: R.Store, t: Digest, r: Record) {
    KeysStored(s, t, r) && Entered(s, t, r)
  }

  predicate KeysStored(s: R.Store, t: Digest, r: Record) {
    && t in s.payload && s.payload[t] == Expiring(R.Json(r), r.expires)
    && t in s.metadata && s.metadata[t] == Expiring(R.Pair(r.subject, IdOf(r)), r.expires)
    && IdOf(r) in s.id && s.id[IdOf(r)] == Expiring(R.Pair(r.subject, t), r.expires)
  }

  predicate Entered(s: R.Store, t: Digest, r: Record) {
    && R.Hex64(t) in s.global && s.global[R.Hex64(t)] == r.expires
    && R.Hex64(t) in R.SubjectIndex(s, r.subject) && R.SubjectIndex(s, r.subject)[R.Hex64(t)] == r.expires
  }

  // No unexpired key and no unexpired index entry belongs to anything else.
  ghost predicate KeysCovered(s: R.Store, live: Sessions, now: int) {
    && (forall t :: t in s.payload && s.payload[t].until > now ==> t in live)
    && (forall t :: t in s.metadata && s.metadata[t].until > now ==> t in live)
    && (forall i :: i in s.id && s.id[i].until > now ==>
          s.id[i].value.Pair? && s.id[i].value.other in live && IdOf(live[s.id[i].value.other]) == i)
  }

  ghost predicate IndexesCovered(s: R.Store, live: Sessions, now: int) {
    && (forall r :: r in s.global && s.global[r] > now ==> r.Hex64? && r.token in live)
    && (forall o, r :: r in R.SubjectIndex(s, o) && R.SubjectIndex(s, o)[r] > now ==>
          r.Hex64? && r.token in live && live[r.token].subject == o)
  }

  // The five-object invariant: the store holds exactly these live sessions.
  ghost predicate Represents(s: R.Store, live: Sessions, now: int) {
    && (forall t :: t in live ==> Sound(live[t], now) && Stored(s, t, live[t]))
    && KeysCovered(s, live, now) && IndexesCovered(s, live, now)
  }

  // Creation prunes both indexes first, so they stay within the limits.
  ghost predicate Bounded(c: Config, s: R.Store) {
    && |s.global| <= c.maxSessions
    && (forall o :: |R.SubjectIndex(s, o)| <= c.maxPerSubject)
  }

  function Codes(tokens: set<Digest>): set<R.Member> {
    set t | t in tokens :: R.Hex64(t)
  }

  lemma {:induction false} CodesSize(tokens: set<Digest>)
    ensures |Codes(tokens)| == |tokens|
  {
    if tokens == {} {
      assert Codes(tokens) == {};
    } else {
      var t :| t in tokens;
      CodesSize(tokens - {t});
      assert Codes(tokens) == Codes(tokens - {t}) + {R.Hex64(t)};
    }
  }

  // The live part of the global index is the live sessions, and the live part
  // of a subject index those of the subject. Hence the global one is the
  // disjoint union of the others.
  lemma IndexesAreSessions(s: R.Store, live: Sessions, now: int, o: Digest)
    requires Represents(s, live, now)
    ensures R.Unexpired(s.global, now).Keys == Codes(live.Keys)
    ensures R.Unexpired(R.SubjectIndex(s, o), now).Keys == Codes(M.OfSubject(live, o))
    ensures |R.Unexpired(s.global, now)| == |live|
    ensures |R.Unexpired(R.SubjectIndex(s, o), now)| == |M.OfSubject(live, o)|
  {
    GlobalEntries(s, live, now);
    SubjectEntries(s, live, now, o);
    hide Represents, R.SubjectIndex, R.Unexpired;
    CodesSize(live.Keys);
    CodesSize(M.OfSubject(live, o));
    assert |R.Unexpired(s.global, now)| == |R.Unexpired(s.global, now).Keys|;
    assert |R.Unexpired(R.SubjectIndex(s, o), now)| == |R.Unexpired(R.SubjectIndex(s, o), now).Keys|;
  }

  lemma GlobalEntries(s: R.Store, live: Sessions, now: int)
    requires Represents(s, live, now)
    ensures R.Unexpired(s.global, now).Keys == Codes(live.Keys)
  {
    hide R.SubjectIndex, KeysCovered;
    forall t | t in live ensures Entered(s, t, live[t]) && live[t].expires > now {
      assert Stored(s, t, live[t]);
    }
    forall r | r in R.Unexpired(s.global, now) ensures r in Codes(live.Keys) {
      assert r == R.Hex64(r.token);
    }
  }

  lemma SubjectEntries(s: R.Store, live: Sessions, now: int, o: Digest)
    requires Represents(s, live, now)
    ensures R.Unexpired(R.SubjectIndex(s, o), now).Keys == Codes(M.OfSubject(live, o))
  {
    hide R.SubjectIndex, KeysCovered;
    forall t | t in live ensures Entered(s, t, live[t]) && live[t].expires > now {
      assert Stored(s, t, live[t]);
    }
    forall r | r in R.Unexpired(R.SubjectIndex(s, o), now) ensures r in Codes(M.OfSubject(live, o)) {
      assert r == R.Hex64(r.token);
    }
  }

  lemma LiveIndexIsDisjointUnion(s: R.Store, live: Sessions, now: int, r: R.Member)
    requires Represents(s, live, now)
    ensures r in R.Unexpired(s.global, now) <==> exists o :: r in R.Unexpired(R.SubjectIndex(s, o), now)
    ensures forall o, p :: r in R.Unexpired(R.SubjectIndex(s, o), now) && r in R.Unexpired(R.SubjectIndex(s, p), now) ==> o == p
  {
    hide Represents, R.SubjectIndex, R.Unexpired;
    GlobalEntries(s, live, now);
    forall o ensures r in R.Unexpired(R.SubjectIndex(s, o), now) <==> r.Hex64? && r.token in live && live[r.token].subject == o {
      SubjectEntries(s, live, now, o);
    }
    if r.Hex64? && r.token in live {
      assert r in R.Unexpired(R.SubjectIndex(s, live[r.token].subject), now);
    }
  }

  lemma TimePasses(s: R.Store, m: Sessions, now: int, later: int)
    requires Represents(s, M.Live(m, now), now) && now <= later
    ensures Represents(s, M.Live(m, later), later)
  {
    var live, left := M.Live(m, now), M.Live(m, later);
    forall t | t in live ensures Sound(live[t], now) && Stored(s, t, live[t]) {
    }
    assert KeysCovered(s, live, now) && IndexesCovered(s, live, now);
    hide Represents, KeysCovered, IndexesCovered, Stored;
    CoverageShrinks(s, live, left, now, later);
    StillStored(s, live, left, now, later);
  }

  lemma StillStored(s: R.Store, live: Sessions, left: Sessions, now: int, later: int)
    requires now <= later && left == M.Live(live, later)
    requires forall t :: t in live ==> Sound(live[t], now) && Stored(s, t, live[t])
    requires KeysCovered(s, left, later) && IndexesCovered(s, left, later)
    ensures Represents(s, left, later)
  {
    hide Stored, KeysCovered, IndexesCovered;
  }

  lemma CoverageShrinks(s: R.Store, live: Sessions, left: Sessions, now: int, later: int)
    requires now <= later && left == M.Live(live, later)
    requires forall t :: t in live ==> Stored(s, t, live[t])
    requires KeysCovered(s, live, now) && IndexesCovered(s, live, now)
    ensures KeysCovered(s, left, later) && IndexesCovered(s, left, later)
  {
    KeysShrink(s, live, left, now, later);
    IndexesShrink(s, live, left, now, later);
  }

  lemma KeysShrink(s: R.Store, live: Sessions, left: Sessions, now: int, later: int)
    requires now <= later && left == M.Live(live, later)
    requires forall t :: t in live ==> Stored(s, t, live[t])
    requires KeysCovered(s, live, now)
    ensures KeysCovered(s, left, later)
  {
    hide Entered, IndexesCovered;
  }

  lemma IndexesShrink(s: R.Store, live: Sessions, left: Sessions, now: int, later: int)
    requires now <= later && left == M.Live(live, later)
    requires forall t :: t in live ==> Stored(s, t, live[t])
    requires IndexesCovered(s, live, now)
    ensures IndexesCovered(s, left, later)
  {
    hide R.SubjectIndex, Stored;
    forall t | t in live ensures Entered(s, t, live[t]) {
      StoredIsEntered(s, t, live[t]);
    }
  }

  lemma StoredIsEntered(s: R.Store, t: Digest, r: Record)
    requires Stored(s, t, r)
    ensures Entered(s, t, r)
  {
  }

  // What the read scripts hand back of a live session.
  function SnapOf(t: Digest, r: Record): R.Snapshot {
    R.Snapshot(R.Json(r), t, r.subject, IdOf(r), r.expires, r.expires)
  }

  lemma LiveIsLooked(s: R.Store, live: Sessions, now: int, t: Digest)
    requires Represents(s, live, now) && t in live
    ensures R.Look(s, now, t, live[t].subject, IdOf(live[t])) == Some(SnapOf(t, live[t]))
    ensures R.Decode(SnapOf(t, live[t])) == Some(live[t])
    ensures Get(s.metadata, t, now) == Some(R.Pair(live[t].subject, IdOf(live[t])))
    ensures Get(s.id, IdOf(live[t]), now) == Some(R.Pair(live[t].subject, t))
    ensures Get(s.payload, t, now) == Some(R.Json(live[t]))
    ensures Sound(live[t], now)
  {
    hide KeysCovered, IndexesCovered;
    assert Stored(s, t, live[t]);
  }

  lemma DeadIsAbsent(s: R.Store, live: Sessions, now: int, t: Digest)
    requires Represents(s, live, now) && t !in live
    ensures Get(s.metadata, t, now) == None && Get(s.payload, t, now) == None
  {
    hide IndexesCovered;
  }

  // The sessions an identifier names: at most one, found through its mapping.
  lemma IdIsRead(s: R.Store, live: Sessions, now: int, owner: Digest, id: Digest)
    requires Represents(s, live, now)
    ensures
      var link: Option<R.Link> := Get(s.id, id, now);
      if link.Some? && link.value.Pair? && link.value.owner == owner then
        M.Matching(live, owner, id) == {link.value.other} && link.value.other in live
      else M.Matching(live, owner, id) == {}
  {
    hide IndexesCovered, Represents, R.Look, R.Decode;
    forall t | t in live && IdOf(live[t]) == id ensures Get(s.id, id, now) == Some(R.Pair(live[t].subject, t)) {
      LiveIsLooked(s, live, now, t);
    }
    if Get(s.id, id, now).Some? {
      MappedIsLive(s, live, now, id);
    }
  }

  lemma MappedIsLive(s: R.Store, live: Sessions, now: int, id: Digest)
    requires Represents(s, live, now) && Get(s.id, id, now).Some?
    ensures
      var link := s.id[id].value;
      link.Pair? && link.other in live && IdOf(live[link.other]) == id && live[link.other].subject == link.owner
  {
    hide IndexesCovered;
    var link := s.id[id].value;
    assert Stored(s, link.other, live[link.other]);
  }

  // Verify answers alike for every live session, and fails on both for others.
  lemma VerifySimulates(s: R.Store, m: Sessions, now: int, t: Digest, csrf: Option<Digest>)
    requires Represents(s, M.Live(m, now), now)
    ensures
      var (n, out) := M.VerifyStep(m, now, t, csrf);
      && M.Live(n, now) == M.Live(m, now)
      && R.VerifyOn(s, now, t, csrf) == (s, if t in M.Live(m, now) then out else Failed(Invalid))
      && (t !in M.Live(m, now) ==> out.Failed?)
  {
    hide Represents, R.Look, R.Decode;
    var live := M.Live(m, now);
    if t in live {
      LiveIsLooked(s, live, now, t);
    } else {
      DeadIsAbsent(s, live, now, t);
    }
  }

  // t holds what s holds but some of its sessions.
  ghost predicate CutKeys(s: R.Store, t: R.Store, live: Sessions, gone: set<Digest>) {
    && t.payload == s.payload - gone && t.metadata == s.metadata - gone
    && t.id == s.id - (set g | g in gone && g in live :: IdOf(live[g]))
  }

  ghost predicate IndexCut(before: R.Index, after: R.Index, now: int, gone: set<Digest>) {
    forall r :: r in after ==>
      && r in before && after[r] == before[r]
      && (after[r] > now ==> r !in Codes(gone))
  }

  ghost predicate CutIndexes(s: R.Store, t: R.Store, live: Sessions, now: int, gone: set<Digest>) {
    && t.global == s.global - Codes(gone)
    && (forall o :: IndexCut(R.SubjectIndex(s, o), R.SubjectIndex(t, o), now, gone))
    && (forall u :: u in live && u !in gone && R.Hex64(u) in R.SubjectIndex(s, live[u].subject) ==>
          R.Hex64(u) in R.SubjectIndex(t, live[u].subject))
  }

  lemma CutRepresents(s: R.Store, t: R.Store, live: Sessions, now: int, gone: set<Digest>)
    requires Represents(s, live, now) && gone <= live.Keys
    requires CutKeys(s, t, live, gone) && CutIndexes(s, t, live, now, gone)
    ensures Represents(t, live - gone, now)
  {
    CutKeepsKeys(s, t, live, now, gone);
    CutKeepsIndexes(s, t, live, now, gone);
    forall u | u in live - gone ensures Sound(live[u], now) && Stored(t, u, live[u]) {
      CutKeepsStored(s, t, live, now, gone, u);
    }
    hide CutKeys, CutIndexes, KeysCovered, IndexesCovered, Stored;
  }

  lemma CutKeepsStored(s: R.Store, t: R.Store, live: Sessions, now: int, gone: set<Digest>, u: Digest)
    requires Represents(s, live, now) && gone <= live.Keys && u in live && u !in gone
    requires CutKeys(s, t, live, gone) && CutIndexes(s, t, live, now, gone)
    ensures Sound(live[u], now) && Stored(t, u, live[u])
  {
    hide KeysCovered, IndexesCovered, R.SubjectIndex;
    assert Stored(s, u, live[u]);
    forall g | g in gone ensures IdOf(live[g]) != IdOf(live[u]) {
      assert Stored(s, g, live[g]);
    }
  }

  lemma CutKeepsKeys(s: R.Store, t: R.Store, live: Sessions, now: int, gone: set<Digest>)
    requires Represents(s, live, now) && CutKeys(s, t, live, gone)
    ensures KeysCovered(t, live - gone, now)
  {
    hide IndexesCovered, Stored;
    forall i | i in t.id && t.id[i].until > now ensures t.id[i].value.other !in gone {
      assert i in s.id;
    }
  }

  lemma CutKeepsIndexes(s: R.Store, t: R.Store, live: Sessions, now: int, gone: set<Digest>)
    requires Represents(s, live, now) && CutIndexes(s, t, live, now, gone)
    ensures IndexesCovered(t, live - gone, now)
  {
    hide KeysCovered, Stored, R.SubjectIndex;
    forall r | r in t.global && t.global[r] > now ensures r.Hex64? && r.token !in gone {
      assert r == R.Hex64(r.token);
    }
    forall o, r | r in R.SubjectIndex(t, o) && R.SubjectIndex(t, o)[r] > now ensures r.Hex64? && r.token !in gone {
      assert IndexCut(R.SubjectIndex(s, o), R.SubjectIndex(t, o), now, gone);
      assert r == R.Hex64(r.token);
    }
  }

  lemma RemoveRepresents(s: R.Store, live: Sessions, now: int, t: Digest)
    requires Represents(s, live, now) && t in live
    ensures Represents(R.Remove(s, t, live[t].subject, IdOf(live[t])), live - {t}, now)
  {
    var n := R.Remove(s, t, live[t].subject, IdOf(live[t]));
    RemoveCuts(s, live, now, t);
    hide Represents;
    CutRepresents(s, n, live, now, {t});
  }

  lemma RemoveCuts(s: R.Store, live: Sessions, now: int, t: Digest)
    requires Represents(s, live, now) && t in live
    ensures CutKeys(s, R.Remove(s, t, live[t].subject, IdOf(live[t])), live, {t})
    ensures CutIndexes(s, R.Remove(s, t, live[t].subject, IdOf(live[t])), live, now, {t})
  {
    hide KeysCovered, Stored;
    var n := R.Remove(s, t, live[t].subject, IdOf(live[t]));
    assert Codes({t}) == {R.Hex64(t)};
    assert (set g | g in {t} && g in live :: IdOf(live[g])) == {IdOf(live[t])};
  }

  // End: a live session goes from both stores; otherwise Redis changes nothing.
  lemma EndSimulates(s: R.Store, m: Sessions, now: int, t: Digest)
    requires Represents(s, M.Live(m, now), now)
    ensures
      var (n, out) := M.EndStep(m, t);
      var (u, deleted) := R.Delete(s, now, t);
      && Represents(u, M.Live(n, now), now)
      && M.Live(n, now) == M.Live(m, now) - {t}
      && (if t in M.Live(m, now) then deleted == 1 && out == Done else deleted == 0 && u == s)
  {
    hide Represents, R.Look, R.Decode, R.Remove;
    var live := M.Live(m, now);
    assert M.Live(M.EndStep(m, t).0, now) == live - {t};
    if t in live {
      LiveIsLooked(s, live, now, t);
      RemoveRepresents(s, live, now, t);
    } else {
      DeadIsAbsent(s, live, now, t);
      assert live - {t} == live;
    }
  }

  lemma RevokeSimulates(s: R.Store, m: Sessions, now: int, subject: Text, id: Digest)
    requires Represents(s, M.Live(m, now), now)
    ensures
      var (n, out) := M.RevokeStep(m, now, subject, id);
      var (u, deleted) := R.DeleteByID(s, now, Sha256(subject), id);
      && Represents(u, M.Live(n, now), now)
      && out == R.DoneIf(deleted)
  {
    hide Represents, R.Look, R.Decode, R.Remove, M.Matching;
    var live := M.Live(m, now);
    var found := M.Matching(live, Sha256(subject), id);
    IdIsRead(s, live, now, Sha256(subject), id);
    LiveTwice(m, now, found);
    if found != {} {
      var t := s.id[id].value.other;
      MappedIsLive(s, live, now, id);
      LiveIsLooked(s, live, now, t);
      RemoveRepresents(s, live, now, t);
    } else {
      assert live - {} == live;
    }
  }

  lemma LiveTwice(m: Sessions, now: int, gone: set<Digest>)
    ensures M.Live(M.Live(m, now) - gone, now) == M.Live(m, now) - gone
  {
  }

  // Pruning the indexes loses nothing that is live.
  lemma PruneRepresents(s: R.Store, live: Sessions, now: int, owner: Digest)
    requires Represents(s, live, now)
    ensures Represents(R.DropExpiredOf(s, now, owner), live, now)
    ensures Represents(R.DropExpired(s, now, owner), live, now)
  {
    PruneSubject(s, live, now, owner);
    PruneGlobal(s, live, now);
    hide Represents;
    PruneSubject(s.(global := R.Unexpired(s.global, now)), live, now, owner);
  }

  // Only the indexes changed.
  lemma IndexesReplaced(s: R.Store, n: R.Store, live: Sessions, now: int)
    requires Represents(s, live, now) && n == s.(global := n.global, subject := n.subject)
    requires forall t :: t in live && Entered(s, t, live[t]) ==> Entered(n, t, live[t])
    requires IndexesCovered(n, live, now)
    ensures Represents(n, live, now)
  {
    hide Entered, IndexesCovered, Sound;
  }

  lemma PruneGlobal(s: R.Store, live: Sessions, now: int)
    requires Represents(s, live, now)
    ensures Represents(s.(global := R.Unexpired(s.global, now)), live, now)
  {
    hide R.SubjectIndex, KeysStored, KeysCovered;
    var n := s.(global := R.Unexpired(s.global, now));
    SameSubjects(s, n);
    assert forall t :: t in live ==> Sound(live[t], now);
    assert IndexesCovered(s, live, now);
    hide Represents, Stored;
    IndexesReplaced(s, n, live, now);
  }

  lemma SameSubjects(s: R.Store, n: R.Store)
    requires s.subject == n.subject
    ensures forall o :: R.SubjectIndex(n, o) == R.SubjectIndex(s, o)
  {
  }

  lemma PrunedIndex(s: R.Store, now: int, owner: Digest)
    ensures
      var p := R.DropExpiredOf(s, now, owner);
      && p == s.(subject := p.subject)
      && (forall o :: R.SubjectIndex(p, o) == if o == owner then R.Unexpired(R.SubjectIndex(s, o), now) else R.SubjectIndex(s, o))
  {
  }

  lemma PruneSubject(s: R.Store, live: Sessions, now: int, owner: Digest)
    requires Represents(s, live, now)
    ensures Represents(R.DropExpiredOf(s, now, owner), live, now)
  {
    hide R.SubjectIndex, R.DropExpiredOf, KeysStored, KeysCovered;
    var n := R.DropExpiredOf(s, now, owner);
    PrunedIndex(s, now, owner);
    assert forall t :: t in live ==> Sound(live[t], now);
    assert IndexesCovered(s, live, now);
    hide Represents, Stored;
    IndexesReplaced(s, n, live, now);
  }

  lemma InsertRepresents(s: R.Store, live: Sessions, now: int, t: Digest, r: Record)
    requires Represents(s, live, now) && Sound(r, now) && t !in live
    requires forall u :: u in live ==> live[u].sessionId != r.sessionId
    ensures Represents(R.Insert(s, r.expires, R.Json(r), t, r.subject, IdOf(r)), live[t := r], now)
  {
    hide Stored, Sound, KeysCovered, IndexesCovered, R.Insert;
    forall u | u in live ensures Stored(R.Insert(s, r.expires, R.Json(r), t, r.subject, IdOf(r)), u, live[u]) {
      InsertKeepsStored(s, t, r, u, live[u]);
    }
    InsertStores(s, t, r);
    InsertCovers(s, live, now, t, r);
  }

  lemma InsertStores(s: R.Store, t: Digest, r: Record)
    ensures Stored(R.Insert(s, r.expires, R.Json(r), t, r.subject, IdOf(r)), t, r)
  {
  }

  lemma InsertKeepsStored(s: R.Store, t: Digest, r: Record, u: Digest, q: Record)
    requires Stored(s, u, q) && u != t && q.sessionId != r.sessionId
    ensures Stored(R.Insert(s, r.expires, R.Json(r), t, r.subject, IdOf(r)), u, q)
  {
  }

  lemma InsertCovers(s: R.Store, live: Sessions, now: int, t: Digest, r: Record)
    requires KeysCovered(s, live, now) && IndexesCovered(s, live, now) && t !in live
    ensures KeysCovered(R.Insert(s, r.expires, R.Json(r), t, r.subject, IdOf(r)), live[t := r], now)
    ensures IndexesCovered(R.Insert(s, r.expires, R.Json(r), t, r.subject, IdOf(r)), live[t := r], now)
  {
    InsertCoversKeys(s, live, now, t, r);
    InsertCoversIndexes(s, live, now, t, r);
    hide R.Insert, KeysCovered, IndexesCovered;
  }

  lemma InsertCoversKeys(s: R.Store, live: Sessions, now: int, t: Digest, r: Record)
    requires KeysCovered(s, live, now) && t !in live
    ensures KeysCovered(R.Insert(s, r.expires, R.Json(r), t, r.subject, IdOf(r)), live[t := r], now)
  {
  }

  lemma InsertCoversIndexes(s: R.Store, live: Sessions, now: int, t: Digest, r: Record)
    requires IndexesCovered(s, live, now) && t !in live
    ensures IndexesCovered(R.Insert(s, r.expires, R.Json(r), t, r.subject, IdOf(r)), live[t := r], now)
  {
    hide R.SubjectIndex, R.Insert;
    var n := R.Insert(s, r.expires, R.Json(r), t, r.subject, IdOf(r));
    InsertedIndexes(s, t, r);
    assert forall o, q :: q in R.SubjectIndex(n, o) ==>
        (q == R.Hex64(t) && o == r.subject) || (q in R.SubjectIndex(s, o) && R.SubjectIndex(n, o)[q] == R.SubjectIndex(s, o)[q]);
  }

  lemma InsertedIndexes(s: R.Store, t: Digest, r: Record)
    ensures
      var n := R.Insert(s, r.expires, R.Json(r), t, r.subject, IdOf(r));
      && n.global == s.global[R.Hex64(t) := r.expires]
      && (forall o :: R.SubjectIndex(n, o) ==
            if o == r.subject then R.SubjectIndex(s, o)[R.Hex64(t) := r.expires] else R.SubjectIndex(s, o))
  {
  }

  // A fresh token and a fresh identifier are not taken.
  lemma FreshIsFree(s: R.Store, live: Sessions, now: int, t: Digest, owner: Digest, sessionId: Text)
    requires Represents(s, live, now) && t !in live
    requires forall u :: u in live ==> live[u].sessionId != sessionId
    ensures !R.Taken(R.DropExpired(s, now, owner), now, t, owner, Sha256(sessionId))
  {
    var p := R.DropExpired(s, now, owner);
    hide Represents, R.DropExpired, R.SubjectIndex;
    PruneRepresents(s, live, now, owner);
    DeadIsAbsent(p, live, now, t);
    if Get(p.id, Sha256(sessionId), now).Some? {
      MappedIsLive(p, live, now, Sha256(sessionId));
    }
    PrunedAreUnexpired(s, now, owner);
    SubjectEntries(s, live, now, owner);
    GlobalEntries(s, live, now);
    CodesOf(live.Keys);
    CodesOf(M.OfSubject(live, owner));
  }

  lemma PrunedAreUnexpired(s: R.Store, now: int, owner: Digest)
    ensures R.DropExpired(s, now, owner).global == R.Unexpired(s.global, now)
    ensures R.SubjectIndex(R.DropExpired(s, now, owner), owner) == R.Unexpired(R.SubjectIndex(s, owner), now)
  {
  }

  // The script inserts or refuses as the manager counts.
  lemma CreateSimulates(c: Config, s: R.Store, live: Sessions, now: int, t: Digest, r: Record)
    requires c.Valid() && Represents(s, live, now) && Bounded(c, s)
    requires t !in live && (forall u :: u in live ==> live[u].sessionId != r.sessionId)
    requires 1 <= now < r.expires <= now + c.ttl && Sound(r, now)
    ensures
      var (u, code) := R.Create(s, now, r.expires, c.maxSessions, c.maxPerSubject, R.Json(r), t, r.subject, IdOf(r));
      if |live| >= c.maxSessions then code == 1 && Represents(u, live, now)
      else if |M.OfSubject(live, r.subject)| >= c.maxPerSubject then code == 4 && Represents(u, live, now)
      else code == 0 && Represents(u, live[t := r], now)
  {
    hide Represents, R.Taken, R.Insert, R.DropExpired, R.SubjectIndex, M.OfSubject, R.Unexpired, Sound, IdOf;
    var p := R.DropExpired(s, now, r.subject);
    PrunedAreUnexpired(s, now, r.subject);
    PruneRepresents(s, live, now, r.subject);
    IndexesAreSessions(s, live, now, r.subject);
    FreshIsFree(s, live, now, t, r.subject, r.sessionId);
    InsertRepresents(p, live, now, t, r);
    IdIsHash(r);
  }

  lemma IdIsHash(r: Record)
    ensures IdOf(r) == Sha256(r.sessionId)
  {
  }

  // Creation decides alike on both stores.
  lemma StartSimulates(c: Config, s: R.Store, m: Sessions, now: int, claims: Claims, t: Digest, csrf: Digest, sessionId: Text)
    requires c.Valid() && now >= 1 && Represents(s, M.Live(m, now), now) && Bounded(c, s)
    requires t !in M.Live(m, now) && forall u :: u in M.Live(m, now) ==> M.Live(m, now)[u].sessionId != sessionId
    ensures
      var (n, out) := M.StartStep(c, m, now, claims, t, csrf, sessionId);
      var (u, reply) := R.StartOn(c, s, now, claims, t, csrf, sessionId);
      Represents(u, M.Live(n, now), now) && out == reply
  {
    hide Represents, R.Create, M.OfSubject, Sound, M.Live;
    var live := M.Live(m, now);
    var r := M.NewRecord(c, now, claims, csrf, sessionId);
    AliveTwice(m, now, t, r);
    if claims.Valid(now) && r.expires > now {
      NewIsSound(c, now, claims, csrf, sessionId);
      CreateSimulates(c, s, live, now, t, r);
    }
  }

  lemma NewIsSound(c: Config, now: int, claims: Claims, csrf: Digest, sessionId: Text)
    requires c.Valid() && now >= 1 && M.NewRecord(c, now, claims, csrf, sessionId).expires > now
    ensures Sound(M.NewRecord(c, now, claims, csrf, sessionId), now)
  {
  }

  lemma AliveTwice(m: Sessions, now: int, t: Digest, r: Record)
    ensures M.Live(M.Live(m, now), now) == M.Live(m, now)
    ensures r.expires > now ==> M.Live(M.Live(m, now)[t := r], now) == M.Live(m, now)[t := r]
  {
  }

  lemma CodesOf(tokens: set<Digest>)
    ensures R.Tokens(Codes(tokens)) == tokens
    ensures forall t :: R.Hex64(t) in Codes(tokens) <==> t in tokens
  {
    forall t | t in tokens ensures t in R.Tokens(Codes(tokens)) {
      assert R.Hex64(t) in Codes(tokens);
    }
  }

  // What subject-wide deletion finds.
  lemma EntriesOfSubject(s: R.Store, live: Sessions, now: int, o: Digest)
    requires Represents(s, live, now)
    ensures
      var members := Codes(M.OfSubject(live, o));
      && (forall r :: r in members ==> R.EntryId(s, now, o, r).Some?)
      && R.EntryIds(s, now, o, members) == (set g | g in M.OfSubject(live, o) && g in live :: IdOf(live[g]))
  {
    hide Represents, R.Look, R.Decode;
    var members := Codes(M.OfSubject(live, o));
    forall t | t in M.OfSubject(live, o)
      ensures R.Hex64(t) in members && R.EntryId(s, now, o, R.Hex64(t)) == Some(IdOf(live[t]))
    {
      LiveIsLooked(s, live, now, t);
    }
    hide R.EntryId, M.OfSubject;
  }

  lemma DeleteAllCuts(p: R.Store, live: Sessions, now: int, o: Digest)
    requires Represents(p, live, now) && R.SubjectIndex(p, o).Keys == Codes(M.OfSubject(live, o))
    ensures
      var gone := M.OfSubject(live, o);
      var n := R.RemoveAll(p, Codes(gone), R.EntryIds(p, now, o, Codes(gone)));
      var t := n.(subject := n.subject - {o});
      CutKeys(p, t, live, gone) && CutIndexes(p, t, live, now, gone)
  {
    hide R.EntryId, R.EntryIds, Stored, KeysCovered;
    var gone := M.OfSubject(live, o);
    EntriesOfSubject(p, live, now, o);
    CodesOf(gone);
    hide R.Tokens, Codes;
    var n := R.RemoveAll(p, Codes(gone), R.EntryIds(p, now, o, Codes(gone)));
    var t := n.(subject := n.subject - {o});
    forall q ensures IndexCut(R.SubjectIndex(p, q), R.SubjectIndex(t, q), now, gone) {
      if q == o {
        assert R.SubjectIndex(t, q) == map[];
      } else {
        assert R.SubjectIndex(t, q) == R.SubjectIndex(p, q);
        forall r | r in R.SubjectIndex(p, q) && R.SubjectIndex(p, q)[r] > now ensures r !in Codes(gone) {
          assert r == R.Hex64(r.token) && live[r.token].subject == q;
        }
      }
    }
  }

  lemma DeleteForSubjectSimulates(s: R.Store, live: Sessions, now: int, o: Digest)
    requires Represents(s, live, now) && |R.SubjectIndex(s, o)| <= MAX_INVENTORY
    ensures
      var (u, count) := R.DeleteForSubject(s, now, o, MAX_INVENTORY);
      Represents(u, live - M.OfSubject(live, o), now) && count == |M.OfSubject(live, o)|
  {
    hide Represents, R.RemoveAll, R.EntryId, R.EntryIds, R.DropExpiredOf, R.SubjectIndex, M.OfSubject, R.Unexpired, Codes,
      CutKeys, CutIndexes;
    var gone := M.OfSubject(live, o);
    var p := R.DropExpiredOf(s, now, o);
    SubjectIsPruned(s, live, now, o);
    EntriesOfSubject(s, live, now, o);
    EntriesOfSubject(p, live, now, o);
    DeleteAllCuts(p, live, now, o);
    OfSubjectIsLive(live, o);
    var n := R.RemoveAll(p, Codes(gone), R.EntryIds(p, now, o, Codes(gone)));
    CutRepresents(p, n.(subject := n.subject - {o}), live, now, gone);
  }

  lemma SubjectIsPruned(s: R.Store, live: Sessions, now: int, o: Digest)
    requires Represents(s, live, now)
    ensures
      var p := R.DropExpiredOf(s, now, o);
      && Represents(p, live, now) && R.SubjectIndex(p, o).Keys == Codes(M.OfSubject(live, o))
      && |R.SubjectIndex(p, o).Keys| == |M.OfSubject(live, o)|
  {
    hide Represents, R.DropExpiredOf, R.SubjectIndex, M.OfSubject, R.Unexpired, Codes;
    PruneRepresents(s, live, now, o);
    PrunedIndex(s, now, o);
    SubjectEntries(s, live, now, o);
    CodesSize(M.OfSubject(live, o));
  }

  lemma RevokeAllSimulates(c: Config, s: R.Store, m: Sessions, now: int, subject: Text)
    requires c.Valid() && Represents(s, M.Live(m, now), now) && Bounded(c, s)
    ensures
      var (n, out) := M.RevokeAllStep(m, now, subject);
      var (u, reply) := R.RevokeAllOn(s, now, Sha256(subject));
      Represents(u, M.Live(n, now), now) && out == reply
  {
    hide Represents, R.DeleteForSubject, R.SubjectIndex, M.OfSubject, M.Live;
    var live, o := M.Live(m, now), Sha256(subject);
    var gone := M.OfSubject(live, o);
    DeleteForSubjectSimulates(s, live, now, o);
    LiveTwice(m, now, gone);
    SubjectBound(c, s, live, now, o);
  }

  lemma SubjectBound(c: Config, s: R.Store, live: Sessions, now: int, o: Digest)
    requires Represents(s, live, now) && Bounded(c, s)
    ensures |M.OfSubject(live, o)| <= c.maxPerSubject
  {
    hide Represents, R.SubjectIndex, M.OfSubject;
    IndexesAreSessions(s, live, now, o);
    UnexpiredIsFewer(R.SubjectIndex(s, o), now);
  }

  lemma UnexpiredIsFewer(index: R.Index, now: int)
    ensures |R.Unexpired(index, now)| <= |index|
  {
    SubsetSize(R.Unexpired(index, now).Keys, index.Keys);
  }

  lemma OfSubjectIsLive(live: Sessions, o: Digest)
    ensures M.OfSubject(live, o) <= live.Keys
  {
  }

  // What a listing finds of a live session of the subject.
  lemma EntryIsListed(p: R.Store, live: Sessions, now: int, o: Digest, t: Digest)
    requires Represents(p, live, now) && t in M.OfSubject(live, o)
    ensures R.Listable(p, now, o, R.Hex64(t)) && R.ListedInfo(p, now, o, R.Hex64(t)) == live[t].Public()
    ensures live[t].created <= now
  {
    hide Represents, R.Look, R.Decode;
    LiveIsLooked(p, live, now, t);
  }

  // ZRANGE hands over the whole index when it is within the limit.
  lemma LowestIsAll(index: R.Index, limit: nat, picked: set<R.Member>)
    requires R.Lowest(index, limit, picked) && |index| <= limit
    ensures picked == index.Keys
  {
    if r :| r in index && r !in picked {
      SubsetSize(picked, index.Keys - {r});
    }
  }

  lemma ListSimulates(c: Config, s: R.Store, m: Sessions, now: int, subject: Text, picked: set<R.Member>)
    requires c.Valid() && now >= 1 && Represents(s, M.Live(m, now), now) && Bounded(c, s)
    requires R.Lowest(R.Unexpired(R.SubjectIndex(s, Sha256(subject)), now), c.maxPerSubject, picked)
    ensures
      var (n, out) := M.ListStep(m, now, subject);
      var (u, reply) := R.ListOn(c, s, now, Sha256(subject), picked);
      Represents(u, M.Live(n, now), now) && out == reply
  {
    hide Represents, R.Listable, R.ListedInfo, R.DropExpiredOf, R.SubjectIndex, M.OfSubject, R.Unexpired, R.Lowest, Codes;
    var live, o := M.Live(m, now), Sha256(subject);
    var p := R.DropExpiredOf(s, now, o);
    var all := M.OfSubject(live, o);
    SubjectIsPruned(s, live, now, o);
    SubjectEntries(s, live, now, o);
    SubjectBound(c, s, live, now, o);
    IndexesAreSessions(s, live, now, o);
    LowestIsAll(R.Unexpired(R.SubjectIndex(s, o), now), c.maxPerSubject, picked);
    LiveTwice(m, now, {});
    OfSubjectIsLive(live, o);
    ListedAreInfos(p, live, now, o);
    assert M.Live(live, now) == live;
  }

  lemma ListedAreInfos(p: R.Store, live: Sessions, now: int, o: Digest)
    requires Represents(p, live, now)
    ensures M.OfSubject(live, o) <= live.Keys
    ensures
      var picked := Codes(M.OfSubject(live, o));
      && (forall r :: r in picked ==> R.Listable(p, now, o, r))
      && (set r | r in picked :: R.ListedInfo(p, now, o, r)) == M.Infos(live, M.OfSubject(live, o))
      && (forall item :: item in M.Infos(live, M.OfSubject(live, o)) ==> item.created <= now)
  {
    hide Represents, R.Listable, R.ListedInfo, M.OfSubject;
    OfSubjectIsLive(live, o);
    forall t | t in M.OfSubject(live, o)
      ensures R.Listable(p, now, o, R.Hex64(t)) && R.ListedInfo(p, now, o, R.Hex64(t)) == live[t].Public()
      ensures live[t].created <= now && R.Hex64(t) in Codes(M.OfSubject(live, o))
    {
      EntryIsListed(p, live, now, o, t);
    }
  }

  // A pending rename remembers a session as it was live when it was read.
  predicate PendingSound(p: R.Pending) {
    && 1 <= p.readAt && Sound(p.record, p.readAt) && !p.device.Unacceptable?
    && p.snap == SnapOf(p.snap.token, p.record)
  }

  // The read of a rename succeeds exactly for a live session of the subject.
  lemma BeginReads(s: R.Store, live: Sessions, now: int, owner: Digest, id: Digest, device: DeviceName)
    requires Represents(s, live, now) && now >= 1 && !device.Unacceptable?
    ensures
      match R.BeginRename(s, now, owner, id, device)
      case None => M.Matching(live, owner, id) == {}
      case Some(p) =>
        && M.Matching(live, owner, id) == {p.snap.token} && p.snap.token in live && live[p.snap.token] == p.record
        && p.device == device && p.readAt == now && PendingSound(p)
  {
    hide Represents, R.Look, R.Decode, M.Matching;
    IdIsRead(s, live, now, owner, id);
    if M.Matching(live, owner, id) != {} {
      var t := s.id[id].value.other;
      MappedIsLive(s, live, now, id);
      LiveIsLooked(s, live, now, t);
    }
  }

  lemma LookFindsLive(s: R.Store, live: Sessions, now: int, t: Digest, r: Record)
    requires Represents(s, live, now)
    ensures R.Look(s, now, t, r.subject, IdOf(r)) == Some(SnapOf(t, r)) <==> t in live && live[t] == r
  {
    if t in live {
      LiveIsLooked(s, live, now, t);
    } else {
      DeadIsAbsent(s, live, now, t);
    }
    hide Represents;
  }

  // The compare-and-swap succeeds exactly when the session is live with the
  // record that was read, and then it changes the device name of that session
  // and nothing else. Otherwise it changes nothing.
  lemma FinishSwaps(s: R.Store, live: Sessions, now: int, p: R.Pending)
    requires Represents(s, live, now) && PendingSound(p) && p.readAt <= now
    ensures
      var t := p.snap.token;
      var (n, code) := R.FinishRename(s, now, p);
      if t in live && live[t] == p.record
      then code == 1 && Represents(n, live[t := live[t].(device := p.device)], now)
      else code == 0 && n == s
  {
    hide Represents, R.Look, IdOf;
    var t := p.snap.token;
    LookFindsLive(s, live, now, t, p.record);
    if t in live && live[t] == p.record {
      SwapRepresents(s, live, now, t, p.device);
      LiveIsLooked(s, live, now, t);
    }
  }

  lemma SwapRepresents(s: R.Store, live: Sessions, now: int, t: Digest, device: DeviceName)
    requires Represents(s, live, now) && t in live && !device.Unacceptable?
    ensures t in s.payload
    ensures
      var r := live[t].(device := device);
      Represents(s.(payload := s.payload[t := Expiring(R.Json(r), s.payload[t].until)]), live[t := r], now)
  {
    hide KeysCovered, IndexesCovered, Stored, Sound;
    var r := live[t].(device := device);
    assert t in s.payload by { LiveIsLooked(s, live, now, t); }
    var n := s.(payload := s.payload[t := Expiring(R.Json(r), s.payload[t].until)]);
    SwapCovers(s, n, live, now, t, r);
    forall u | u in live ensures Stored(n, u, live[t := r][u]) && Sound(live[t := r][u], now) {
      SwapKeepsStored(s, n, now, t, r, u, live[u], live[t]);
    }
  }

  lemma SwapKeepsStored(s: R.Store, n: R.Store, now: int, t: Digest, r: Record, u: Digest, q: Record, before: Record)
    requires Stored(s, u, q) && Sound(q, now) && t in s.payload && (u == t ==> q == before)
    requires n == s.(payload := s.payload[t := Expiring(R.Json(r), s.payload[t].until)])
    requires r == before.(device := r.device) && !r.device.Unacceptable?
    ensures var w := if u == t then r else q; Stored(n, u, w) && Sound(w, now)
  {
    hide R.SubjectIndex;
    SameSubjects(s, n);
  }

  lemma SwapCovers(s: R.Store, n: R.Store, live: Sessions, now: int, t: Digest, r: Record)
    requires KeysCovered(s, live, now) && IndexesCovered(s, live, now) && t in live && t in s.payload
    requires n == s.(payload := s.payload[t := Expiring(R.Json(r), s.payload[t].until)])
    requires r == live[t].(device := r.device)
    ensures KeysCovered(n, live[t := r], now) && IndexesCovered(n, live[t := r], now)
  {
    hide R.SubjectIndex;
    SameSubjects(s, n);
  }

  // A rename with nothing between its two steps acts like the manager.
  lemma RenameSimulates(s: R.Store, m: Sessions, now: int, subject: Text, id: Digest, device: DeviceName)
    requires now >= 1 && Represents(s, M.Live(m, now), now)
    ensures
      var (n, out) := M.RenameStep(m, now, subject, id, device);
      var (u, reply) := R.RenameOn(s, now, Sha256(subject), id, device);
      Represents(u, M.Live(n, now), now) && out == reply
  {
    hide Represents, R.FinishRename, R.BeginRename, M.Matching, M.Renamed, M.Live;
    var live, o := M.Live(m, now), Sha256(subject);
    if !device.Unacceptable? {
      BeginReads(s, live, now, o, id, device);
      var found := M.Matching(live, o, id);
      RenamedIsLive(m, now, found, device);
      match R.BeginRename(s, now, o, id, device)
      case None =>
        M.RenamedNone(live, device);
      case Some(p) =>
        FinishSwaps(s, live, now, p);
        M.RenamedOne(live, p.snap.token, device);
    }
  }

  lemma RenamedIsLive(m: Sessions, now: int, tokens: set<Digest>, device: DeviceName)
    ensures M.Live(M.Renamed(M.Live(m, now), tokens, device), now) == M.Renamed(M.Live(m, now), tokens, device)
  {
  }
}
