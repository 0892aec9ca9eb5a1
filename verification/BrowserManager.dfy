// The BrowserSessionManager object: its map of sessions is updated in place, and
// every method leaves exactly the sessions and the outcome that BrowserMemory
// describes.

module BrowserManager {
  import opened Common
  import opened Hashing
  import opened RedisKeys
  import opened BrowserTypes
  import opened BrowserMemory

  class BrowserSessionManager {
    const config: Config
    var sessions: Sessions

    constructor (config: Config)
      ensures this.config == config && sessions == map[]
    {
      this.config := config;
      sessions := map[];
    }

    method CleanupLocked(now: int)
      modifies this
      ensures sessions == Live(old(sessions), now)
    {
      var todo := sessions.Keys;
      while todo != {}
        invariant todo <= sessions.Keys <= old(sessions).Keys
        invariant forall t :: t in sessions ==> sessions[t] == old(sessions)[t]
        invariant forall t :: t in old(sessions) && t !in todo ==> (t in sessions <==> old(sessions)[t].expires > now)
      {
        var t :| t in todo;
        if sessions[t].expires <= now {
          sessions := sessions - {t};
        }
        todo := todo - {t};
      }
    }

    method SubjectSessionCountLocked(subject: Digest) returns (count: nat)
      ensures count == |OfSubject(sessions, subject)|
    {
      hide OfSubject, Met;
      var todo := sessions.Keys;
      count := 0;
      InfosNone(sessions, subject);
      FirstMet(OfSubject(sessions, subject), todo);
      while todo != {}
        invariant todo <= sessions.Keys
        invariant count == |Met(OfSubject(sessions, subject), todo)|
      {
        var t :| t in todo;
        NextMet(OfSubject(sessions, subject), todo, t);
        IsOfSubject(sessions, subject, t);
        if sessions[t].subject == subject {
          count := count + 1;
        }
        todo := todo - {t};
      }
      AllMet(OfSubject(sessions, subject));
    }

    method Start(now: int, claims: Claims, token: Digest, csrf: Digest, sessionId: Text) returns (out: Outcome)
      modifies this
      ensures (sessions, out) == StartStep(config, old(sessions), now, claims, token, csrf, sessionId)
    {
      if !claims.Valid(now) {
        return Failed(Invalid);
      }
      var expires := now + config.ttl;
      if expires > claims.expires {
        expires := claims.expires;
      }
      if expires <= now {
        return Failed(Expired);
      }
      var record := Record(sessionId, Sha256(claims.subject), claims, csrf, Unnamed, now, expires);
      CleanupLocked(now);
      if |sessions| >= config.maxSessions {
        return Failed(Limit);
      }
      var count := SubjectSessionCountLocked(record.subject);
      if count >= config.maxPerSubject {
        return Failed(SubjectLimit);
      }
      if token in sessions {
        return Failed(Invalid);
      }
      sessions := sessions[token := record];
      return Started(expires);
    }

    method Verify(now: int, token: Digest, csrf: Option<Digest>) returns (out: Outcome)
      modifies this
      ensures (sessions, out) == VerifyStep(old(sessions), now, token, csrf)
    {
      if token !in sessions {
        return Failed(Invalid);
      }
      var record := sessions[token];
      if record.expires <= now {
        sessions := sessions - {token};
        return Failed(Expired);
      }
      if !record.Valid(now) {
        return Failed(Expired);
      }
      if csrf.Some? && csrf.value != record.csrf {
        return Failed(Invalid);
      }
      return Verified(record.claims);
    }

    // The live sessions of the subject, each once, newest first.
    method ListForSubject(now: int, subject: Text, less: (Text, Text) -> bool) returns (out: Outcome, listing: seq<Info>)
      requires StrictOrder(less)
      modifies this
      ensures (sessions, out) == ListStep(old(sessions), now, subject)
      ensures Distinct(listing) && Elements(listing) == out.items && Ordered(listing, less)
    {
      CleanupLocked(now);
      var items := Inventory(Sha256(subject));
      listing := SortInfos(items, less);
      return Listed(items), listing;
    }

    method Inventory(subject: Digest) returns (items: set<Info>)
      ensures items == Infos(sessions, OfSubject(sessions, subject))
    {
      hide OfSubject, Infos, Met;
      ghost var all := OfSubject(sessions, subject);
      var todo := sessions.Keys;
      items := {};
      FirstMet(all, todo);
      InfosNone(sessions, subject);
      while todo != {}
        invariant todo <= sessions.Keys && Met(all, todo) <= sessions.Keys
        invariant items == Infos(sessions, Met(all, todo))
      {
        var t :| t in todo;
        NextMet(all, todo, t);
        IsOfSubject(sessions, subject, t);
        if sessions[t].subject == subject {
          InfosOneMore(sessions, Met(all, todo), t);
          items := items + {sessions[t].Public()};
        }
        todo := todo - {t};
      }
      AllMet(all);
    }

    // The first session, in any order, that the identifier names for the subject.
    method Find(subject: Digest, id: Digest) returns (found: Option<Digest>)
      ensures found.Some? ==> found.value in Matching(sessions, subject, id)
      ensures found.None? ==> Matching(sessions, subject, id) == {}
    {
      var todo := sessions.Keys;
      while todo != {}
        invariant todo <= sessions.Keys
        invariant forall t :: t in Matching(sessions, subject, id) ==> t in todo
      {
        var t :| t in todo;
        if sessions[t].subject == subject && Sha256(sessions[t].sessionId) == id {
          return Some(t);
        }
        todo := todo - {t};
      }
      return None;
    }

    // One session that the identifier names goes. With distinct identifiers there
    // is no other.
    method RevokeForSubject(now: int, subject: Text, id: Digest) returns (out: Outcome)
      modifies this
      ensures Matching(Live(old(sessions), now), Sha256(subject), id) == {} ==>
                sessions == Live(old(sessions), now) && out == Failed(Invalid)
      ensures Matching(Live(old(sessions), now), Sha256(subject), id) != {} ==>
                out == Done && exists t :: t in Matching(Live(old(sessions), now), Sha256(subject), id)
                                           && sessions == Live(old(sessions), now) - {t}
      ensures DistinctIds(old(sessions)) ==> (sessions, out) == RevokeStep(old(sessions), now, subject, id)
    {
      CleanupLocked(now);
      var found := Find(Sha256(subject), id);
      match found {
        case None =>
          assert sessions - {} == sessions;
          return Failed(Invalid);
        case Some(t) =>
          if DistinctIds(sessions) {
            MatchIsUnique(sessions, Sha256(subject), id, t);
          }
          sessions := sessions - {t};
          return Done;
      }
    }

    method RevokeAllForSubject(now: int, subject: Text) returns (out: Outcome)
      modifies this
      ensures (sessions, out) == RevokeAllStep(old(sessions), now, subject)
    {
      CleanupLocked(now);
      var deleted := DeleteSubject(Sha256(subject));
      return Count(deleted);
    }

    method DeleteSubject(subject: Digest) returns (deleted: nat)
      modifies this
      ensures sessions == old(sessions) - OfSubject(old(sessions), subject)
      ensures deleted == |OfSubject(old(sessions), subject)|
    {
      hide OfSubject, Met;
      ghost var before, all := sessions, OfSubject(sessions, subject);
      var todo := sessions.Keys;
      deleted := 0;
      FirstMet(all, todo);
      InfosNone(before, subject);
      while todo != {}
        invariant todo <= before.Keys && Met(all, todo) !! todo
        invariant deleted == |Met(all, todo)|
        invariant sessions == before - Met(all, todo)
      {
        var t :| t in todo;
        NextMet(all, todo, t);
        IsOfSubject(before, subject, t);
        if sessions[t].subject == subject {
          DropOneMore(before, Met(all, todo), t);
          sessions := sessions - {t};
          deleted := deleted + 1;
        }
        todo := todo - {t};
      }
      AllMet(all);
    }

    // One session that the identifier names gets the device name.
    method SetDeviceNameForSubject(now: int, subject: Text, id: Digest, device: DeviceName) returns (out: Outcome)
      modifies this
      ensures device.Unacceptable? ==> sessions == old(sessions) && out == Failed(DeviceNameInvalid)
      ensures !device.Unacceptable? && Matching(Live(old(sessions), now), Sha256(subject), id) == {} ==>
                sessions == Live(old(sessions), now) && out == Failed(Invalid)
      ensures !device.Unacceptable? && Matching(Live(old(sessions), now), Sha256(subject), id) != {} ==>
                out == Done && exists t :: t in Matching(Live(old(sessions), now), Sha256(subject), id)
                                           && sessions == Renamed(Live(old(sessions), now), {t}, device)
      ensures DistinctIds(old(sessions)) ==> (sessions, out) == RenameStep(old(sessions), now, subject, id, device)
    {
      if device.Unacceptable? {
        return Failed(DeviceNameInvalid);
      }
      CleanupLocked(now);
      var found := Find(Sha256(subject), id);
      match found {
        case None =>
          RenamedNone(sessions, device);
          return Failed(Invalid);
        case Some(t) =>
          if DistinctIds(sessions) {
            MatchIsUnique(sessions, Sha256(subject), id, t);
          }
          RenamedOne(sessions, t, device);
          sessions := sessions[t := sessions[t].(device := device)];
          return Done;
      }
    }

    method End(token: Digest) returns (out: Outcome)
      modifies this
      ensures (sessions, out) == EndStep(old(sessions), token)
    {
      if token !in sessions {
        return Failed(Invalid);
      }
      sessions := sessions - {token};
      return Done;
    }
  }

  // sortBrowserSessionInfo.
  method SortInfos(items: set<Info>, less: (Text, Text) -> bool) returns (listing: seq<Info>)
    requires StrictOrder(less)
    ensures Distinct(listing) && Elements(listing) == items && Ordered(listing, less)
  {
    listing := [];
    var rest := items;
    while rest != {}
      invariant Distinct(listing) && Ordered(listing, less)
      invariant rest !! Elements(listing) && rest + Elements(listing) == items
      invariant forall a, b :: a in listing && b in rest ==> !Before(b, a, less)
    {
      var first := FirstInfo(rest, less);
      AddElement(listing, first);
      listing := listing + [first];
      rest := rest - {first};
    }
  }

  method FirstInfo(rest: set<Info>, less: (Text, Text) -> bool) returns (first: Info)
    requires rest != {} && StrictOrder(less)
    ensures first in rest && forall b :: b in rest ==> !Before(b, first, less)
  {
    first :| first in rest;
    var todo := rest;
    while todo != {}
      invariant first in rest && todo <= rest
      invariant forall b :: b in rest && b !in todo ==> !Before(b, first, less)
    {
      var next :| next in todo;
      if Before(next, first, less) {
        first := next;
      }
      todo := todo - {next};
    }
  }

  // What a pass over all but todo has met.
  ghost function Met<T>(all: set<T>, todo: set<T>): set<T> {
    all - todo
  }

  lemma FirstMet<T>(all: set<T>, todo: set<T>)
    ensures Met(all, todo) !! todo
    ensures all <= todo ==> Met(all, todo) == {}
  {
  }

  lemma NextMet<T>(all: set<T>, todo: set<T>, t: T)
    requires t in todo
    ensures Met(all, todo - {t}) !! todo - {t}
    ensures Met(all, todo - {t}) == Met(all, todo) + if t in all then {t} else {}
    ensures |Met(all, todo - {t})| == |Met(all, todo)| + if t in all then 1 else 0
  {
  }

  lemma AllMet<T>(all: set<T>)
    ensures Met(all, {}) == all
  {
  }

  lemma DropOneMore(m: Sessions, met: set<Digest>, t: Digest)
    ensures m - met - {t} == m - (met + {t})
  {
  }

  lemma IsOfSubject(m: Sessions, subject: Digest, t: Digest)
    requires t in m
    ensures OfSubject(m, subject) <= m.Keys && (t in OfSubject(m, subject) <==> m[t].subject == subject)
  {
  }

  lemma InfosNone(m: Sessions, subject: Digest)
    ensures Infos(m, {}) == {} && OfSubject(m, subject) <= m.Keys && m - {} == m
  {
  }

  lemma InfosOneMore(m: Sessions, met: set<Digest>, t: Digest)
    requires met <= m.Keys && t in m
    ensures Infos(m, met + {t}) == Infos(m, met) + {m[t].Public()}
  {
  }
}
