// Runs of refresh-session calls on the in-memory manager, and what it promises
// about every run: a refresh token is accepted at most once, and a replay ends
// its whole family.

module RefreshRuns {
  import opened Hashing
  import opened RefreshTypes
  import opened RefreshMemory

  // A call together with the clock reading it observes.
  datatype Event = Event(now: int, request: Request)

  // The clock starts at one millisecond or later and never goes back.
  ghost predicate Clocked(run: seq<Event>) {
    && (forall i :: 0 <= i < |run| ==> run[i].now >= 1)
    && (forall i, j :: 0 <= i <= j < |run| ==> run[i].now <= run[j].now)
  }

  // states[i] is the manager state before call i.
  ghost predicate Trace(c: Config, run: seq<Event>, states: seq<Memory>) {
    && |states| == |run| + 1
    && states[0] == Empty
    && (forall i :: 0 <= i < |run| ==> states[i + 1] == Step(c, states[i], run[i].now, run[i].request).0)
  }

  function Result(c: Config, run: seq<Event>, states: seq<Memory>, i: nat): Outcome
    requires i < |run| && i < |states|
  {
    Step(c, states[i], run[i].now, run[i].request).1
  }

  // What the random source draws for a call was never held before.
  ghost predicate NeverHeld(request: Request, states: seq<Memory>) {
    forall j :: 0 <= j < |states| ==>
      NewTokens(request) !! states[j].tokens.Keys && NewIds(request) !! states[j].families.Keys
  }

  ghost predicate Fresh(run: seq<Event>, states: seq<Memory>)
    requires |states| == |run| + 1
  {
    forall i :: 0 <= i < |run| ==> NeverHeld(run[i].request, states[..i + 1])
  }

  ghost predicate Valid(c: Config, run: seq<Event>, states: seq<Memory>) {
    Trace(c, run, states) && Fresh(run, states)
  }

  lemma FreshAt(run: seq<Event>, states: seq<Memory>, i: nat, j: nat)
    requires |states| == |run| + 1 && Fresh(run, states) && j <= i < |run|
    ensures NewTokens(run[i].request) !! states[j].tokens.Keys
    ensures NewIds(run[i].request) !! states[j].families.Keys
  {
    assert NeverHeld(run[i].request, states[..i + 1]);
    assert states[..i + 1][j] == states[j];
  }

  // In every run the token map stays the disjoint union of the hashes the
  // families own.
  lemma {:induction false} EveryStateExact(c: Config, run: seq<Event>, states: seq<Memory>, i: nat)
    requires Valid(c, run, states) && i <= |run|
    ensures Inv(states[i])
  {
    if i > 0 {
      EveryStateExact(c, run, states, i - 1);
      FreshAt(run, states, i - 1, i - 1);
      hide Inv, Step, Fresh;
      StepKeepsInv(c, states[i - 1], run[i - 1].now, run[i - 1].request);
    }
  }

  // In every run at most MaxFamilies families of at most 1024 used hashes are
  // held.
  lemma {:induction false} EveryStateBounded(c: Config, run: seq<Event>, states: seq<Memory>, i: nat)
    requires c.Valid() && Trace(c, run, states) && i <= |run|
    ensures Bounded(c, states[i])
  {
    if i > 0 {
      EveryStateBounded(c, run, states, i - 1);
      hide Step, Bounded;
      StepKeepsBound(c, states[i - 1], run[i - 1].now, run[i - 1].request);
    }
  }

  // A family only gains used hashes and never becomes unrevoked.
  predicate Aged(f: Family, g: Family) {
    f.used <= g.used && (f.current == g.current || f.current in g.used) && (f.revoked ==> g.revoked)
  }

  ghost predicate Successor(m: Memory, n: Memory, request: Request) {
    && (forall id :: id in n.families ==>
          if id in m.families then Aged(m.families[id], n.families[id]) else id in NewIds(request))
    && (forall h :: h in n.tokens ==>
          if h in m.tokens then n.tokens[h] == m.tokens[h] else h in NewTokens(request))
  }

  lemma RotateIsSuccessor(c: Config, m: Memory, now: int, token: Digest, next: Digest)
    requires next !in m.tokens
    ensures Successor(m, RotateStep(c, m, now, token, next).0, Rotate(token, next))
  {
    var n := Cleanup(m, now);
    if Resolves(n, token) {
      var f := FamilyOf(n, token);
      assert Aged(f, Present(c, f, now, token, next).0);
    }
  }

  lemma RevokeFamilyIsSuccessor(m: Memory, now: int, token: Digest)
    ensures Successor(m, RevokeFamilyStep(m, now, token).0, RevokeFamily(token))
  {
  }

  lemma StepIsSuccessor(c: Config, m: Memory, now: int, request: Request)
    requires NewTokens(request) !! m.tokens.Keys && NewIds(request) !! m.families.Keys
    ensures Successor(m, Step(c, m, now, request).0, request)
  {
    match request
    case Rotate(token, next) => RotateIsSuccessor(c, m, now, token, next);
    case RevokeFamily(token) => RevokeFamilyIsSuccessor(m, now, token);
    case Start(_, _, _) =>
    case RevokeUser(_) =>
    case ActiveFamilies(_) =>
  }

  // Every call of a run draws new identifiers and hashes.
  ghost predicate DrawnOnce(run: seq<Event>) {
    forall i, j :: 0 <= i < j < |run| ==>
      NewTokens(run[i].request) !! NewTokens(run[j].request) && NewIds(run[i].request) !! NewIds(run[j].request)
  }

  // The states of the manager that gets these calls.
  function StateAt(c: Config, calls: seq<Event>, i: nat): Memory
    requires i <= |calls|
  {
    if i == 0 then Empty else Step(c, StateAt(c, calls, i - 1), calls[i - 1].now, calls[i - 1].request).0
  }

  function StatesOf(c: Config, calls: seq<Event>): (states: seq<Memory>)
    ensures |states| == |calls| + 1
  {
    seq(|calls| + 1, i requires 0 <= i <= |calls| => StateAt(c, calls, i))
  }

  lemma {:induction false} HeldWereDrawn(c: Config, calls: seq<Event>, i: nat)
    requires i <= |calls| && DrawnOnce(calls)
    ensures forall h :: h in StateAt(c, calls, i).tokens ==>
              exists k :: 0 <= k < i && h in NewTokens(calls[k].request)
    ensures forall id :: id in StateAt(c, calls, i).families ==>
              exists k :: 0 <= k < i && id in NewIds(calls[k].request)
  {
    if i > 0 {
      HeldWereDrawn(c, calls, i - 1);
      hide Step;
      var m := StateAt(c, calls, i - 1);
      StepIsSuccessor(c, m, calls[i - 1].now, calls[i - 1].request);
    }
  }

  // Distinct draws make a run: nothing that is drawn was held before.
  lemma DrawnRunIsValid(c: Config, calls: seq<Event>)
    requires DrawnOnce(calls)
    ensures Valid(c, calls, StatesOf(c, calls))
  {
    hide Step;
    var states := StatesOf(c, calls);
    forall i | 0 <= i < |calls| ensures NeverHeld(calls[i].request, states[..i + 1]) {
      forall j | 0 <= j <= i
        ensures NewTokens(calls[i].request) !! states[j].tokens.Keys && NewIds(calls[i].request) !! states[j].families.Keys
      {
        HeldWereDrawn(c, calls, j);
      }
    }
  }

  // The hash h was held by family id: whichever of the two is still there
  // agrees with that. Once used, h stays used; once revoked, id stays revoked.
  ghost predicate Bound(m: Memory, h: Digest, id: FamilyId, used: bool, revoked: bool) {
    && (h in m.tokens ==> m.tokens[h] == id)
    && (id in m.families ==>
          && m.families[id].Owns(h)
          && (used ==> h in m.families[id].used)
          && (revoked ==> m.families[id].revoked))
  }

  lemma {:induction false} StaysBound(c: Config, run: seq<Event>, states: seq<Memory>, i: nat, j: nat,
                                      h: Digest, id: FamilyId, used: bool, revoked: bool)
    requires Valid(c, run, states) && i <= j <= |run|
    requires exists k :: 0 <= k <= i && h in states[k].tokens && id in states[k].families
    requires Bound(states[i], h, id, used, revoked)
    ensures Bound(states[j], h, id, used, revoked)
  {
    hide Step, Fresh, Bound;
    if i < j {
      StaysBound(c, run, states, i, j - 1, h, id, used, revoked);
      var k :| 0 <= k <= i && h in states[k].tokens && id in states[k].families;
      FreshAt(run, states, j - 1, k);
      FreshAt(run, states, j - 1, j - 1);
      StepKeepsBinding(c, states[j - 1], run[j - 1].now, run[j - 1].request, h, id, used, revoked);
    }
  }

  lemma StepKeepsBinding(c: Config, m: Memory, now: int, request: Request, h: Digest, id: FamilyId, used: bool, revoked: bool)
    requires Bound(m, h, id, used, revoked) && h !in NewTokens(request) && id !in NewIds(request)
    requires NewTokens(request) !! m.tokens.Keys && NewIds(request) !! m.families.Keys
    ensures Bound(Step(c, m, now, request).0, h, id, used, revoked)
  {
    hide Step;
    StepIsSuccessor(c, m, now, request);
  }

  lemma AcceptanceUses(c: Config, m: Memory, now: int, token: Digest, next: Digest)
    requires Inv(m) && next !in m.tokens && RotateStep(c, m, now, token, next).1.Rotated?
    ensures Resolves(m, token) && token == FamilyOf(m, token).current && !FamilyOf(m, token).revoked
    ensures Bound(RotateStep(c, m, now, token, next).0, token, m.tokens[token], true, false)
  {
  }

  // A used hash is refused, and presenting it leaves its family revoked.
  lemma ReplayRevokes(c: Config, m: Memory, now: int, token: Digest, next: Digest, id: FamilyId)
    requires Inv(m) && next !in m.tokens && Bound(m, token, id, true, false)
    ensures !RotateStep(c, m, now, token, next).1.Rotated?
    ensures Bound(RotateStep(c, m, now, token, next).0, token, id, true, true)
  {
    if id in m.families {
      assert Registered(m, id, m.families[id]);
    }
  }

  lemma RevokedRefuses(c: Config, m: Memory, now: int, token: Digest, next: Digest, h: Digest, id: FamilyId)
    requires Bound(m, h, id, true, true) && (token in m.tokens ==> m.tokens[token] == id)
    ensures !RotateStep(c, m, now, token, next).1.Rotated?
  {
  }

  // Call i of the run is a Rotate presenting h, whose family is then id.
  ghost predicate Presents(run: seq<Event>, states: seq<Memory>, i: nat, h: Digest, id: FamilyId) {
    && i < |run| && i < |states|
    && run[i].request.Rotate? && run[i].request.token == h
    && (h in states[i].tokens ==> states[i].tokens[h] == id)
  }

  ghost predicate Accepts(c: Config, run: seq<Event>, states: seq<Memory>, i: nat, h: Digest, id: FamilyId) {
    && Presents(run, states, i, h, id)
    && h in states[i].tokens
    && Result(c, run, states, i).Rotated?
  }

  lemma AcceptedIsBound(c: Config, run: seq<Event>, states: seq<Memory>, i: nat, j: nat, h: Digest, id: FamilyId)
    requires Valid(c, run, states) && Accepts(c, run, states, i, h, id) && i < j <= |run|
    ensures Bound(states[j], h, id, true, false)
  {
    EveryStateExact(c, run, states, i);
    FreshAt(run, states, i, i);
    AcceptanceUses(c, states[i], run[i].now, h, run[i].request.next);
    hide RotateStep, Fresh, Inv;
    assert Bound(states[i + 1], h, id, true, false);
    StaysBound(c, run, states, i + 1, j, h, id, true, false);
  }

  // Each refresh token is accepted by at most one Rotate of a run, whatever
  // happens in between.
  lemma AcceptedAtMostOnce(c: Config, run: seq<Event>, states: seq<Memory>, i: nat, j: nat, h: Digest)
    requires Valid(c, run, states) && i < j < |run|
    requires run[i].request.Rotate? && run[i].request.token == h && Result(c, run, states, i).Rotated?
    requires run[j].request.Rotate? && run[j].request.token == h
    ensures !Result(c, run, states, j).Rotated?
  {
    EveryStateExact(c, run, states, i);
    EveryStateExact(c, run, states, j);
    FreshAt(run, states, i, i);
    FreshAt(run, states, j, j);
    AcceptanceUses(c, states[i], run[i].now, h, run[i].request.next);
    hide RotateStep, Fresh;
    var id := states[i].tokens[h];
    AcceptedIsBound(c, run, states, i, j, h, id);
    ReplayRevokes(c, states[j], run[j].now, h, run[j].request.next, id);
  }

  // Once an accepted token is presented again at call j, call j and every
  // later call refuse every token of its family.
  lemma ReplayEndsFamily(c: Config, run: seq<Event>, states: seq<Memory>, i: nat, j: nat, k: nat,
                         h: Digest, g: Digest, id: FamilyId)
    requires Valid(c, run, states) && i < j <= k < |run|
    requires Accepts(c, run, states, i, h, id)
    requires run[j].request.Rotate? && run[j].request.token == h
    requires Presents(run, states, k, g, id)
    ensures !Result(c, run, states, k).Rotated?
  {
    AcceptedIsBound(c, run, states, i, j, h, id);
    EveryStateExact(c, run, states, i);
    EveryStateExact(c, run, states, j);
    FreshAt(run, states, j, j);
    assert Resolves(states[i], h);
    ReplayRevokes(c, states[j], run[j].now, h, run[j].request.next, id);
    hide RotateStep, Fresh, Inv;
    if j < k {
      assert Bound(states[j + 1], h, id, true, true);
      StaysBound(c, run, states, j + 1, k, h, id, true, true);
      RevokedRefuses(c, states[k], run[k].now, g, run[k].request.next, h, id);
    }
  }
}
