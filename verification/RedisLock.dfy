// The distributed lock (Framework/sharedstate/redis.go) on one key: recycled
// local gates, owner tokens and a Redis lease, as a state machine over all
// interleavings of any number of processes and calls.
//
// A command that failed for the client may have taken effect or take effect
// later; processes crash. Owner tokens and gate objects are new when they are
// made.

module RedisLock {
  import opened Common

  type Process(==, !new)
  type Gate(==, !new)
  type CallId(==, !new)
  type Owner(==, !new)

  // Where a call of Lock is, up to the end of the Unlock that releases it.
  datatype Stage =
    | Waiting                                 // on the token channel of the gate
    | Trying(owner: Owner)                    // to set the lease
    | Acquired(owner: Owner, until: int)      // lease set, not yet in owners
    | Held(owner: Owner, until: int)          // Lock has returned nil
    | Unlocking(owner: Owner)                 // Unlock has taken it from owners
    | Releasing                               // the token is to be sent back
    | Leaving                                 // releaseGateRef is to run

  datatype Call = Call(process: Process, gate: Gate, stage: Stage) {
    // Between receiving the token and sending it back.
    predicate HasToken() {
      !stage.Waiting? && !stage.Leaving?
    }

    predicate HasOwner() {
      stage.Trying? || stage.Acquired? || stage.Held? || stage.Unlocking?
    }

    predicate HasLease() {
      stage.Acquired? || stage.Held?
    }
  }

  // A gate object: its reference count and whether the token is in its channel.
  datatype GateState = GateState(refs: int, token: bool)

  datatype Lease = Lease(owner: Owner, until: int)

  datatype System = System(
    now: int,
    current: map<Process, Gate>,   // the gate in each process's map
    gates: map<Gate, GateState>,   // all gate objects ever made
    calls: map<CallId, Call>,
    owners: map<Process, CallId>,
    lease: Option<Lease>,
    drawn: set<Owner>,             // owner tokens drawn so far
    lateSets: set<Owner>,          // SETNX commands that may still take effect
    lateUnlocks: set<Owner>)       // unlock scripts that may still take effect

  const Initial := System(0, map[], map[], map[], map[], None, {}, {}, {})

  // What becomes of a SETNX whose client sees an error.
  datatype Fate = TookEffect | Late | Lost

  datatype Event =
    | Tick(time: int)
    | Enter(call: CallId, process: Process, made: Gate)
    | TakeToken(call: CallId, owner: Owner)
    | GateTimesOut(call: CallId)
    | SetNX(call: CallId)
    | SetNXFails(call: CallId, fate: Fate)
    | GiveUp(call: CallId)
    | Register(call: CallId)
    | Unlock(process: Process)
    | UnlockScript(call: CallId, fate: Fate)
    | SendToken(call: CallId)
    | ReleaseRef(call: CallId)
    | LateSet(owner: Owner)
    | LateUnlock(owner: Owner)
    | Crash(process: Process)

  datatype Config = Config(ttl: int)

  predicate Free(s: System) {
    s.lease.None? || s.lease.value.until <= s.now
  }

  predicate At(s: System, call: CallId) {
    call in s.calls && s.calls[call].gate in s.gates
  }

  predicate Enabled(s: System, e: Event) {
    match e
    case Tick(time) => time > s.now
    case Enter(call, p, made) =>
      call !in s.calls && (if p in s.current then s.current[p] in s.gates else made !in s.gates)
    case TakeToken(call, owner) =>
      At(s, call) && s.calls[call].stage.Waiting? && s.gates[s.calls[call].gate].token && owner !in s.drawn
    case GateTimesOut(call) => At(s, call) && s.calls[call].stage.Waiting?
    case SetNX(call) => At(s, call) && s.calls[call].stage.Trying?
    case SetNXFails(call, _) => At(s, call) && s.calls[call].stage.Trying?
    case GiveUp(call) => At(s, call) && s.calls[call].stage.Trying?
    case Register(call) => At(s, call) && s.calls[call].stage.Acquired?
    case Unlock(p) => p in s.owners && s.owners[p] in s.calls && s.calls[s.owners[p]].stage.Held?
    case UnlockScript(call, _) => At(s, call) && s.calls[call].stage.Unlocking?
    case SendToken(call) => At(s, call) && s.calls[call].stage.Releasing? && !s.gates[s.calls[call].gate].token
    case ReleaseRef(call) => At(s, call) && s.calls[call].stage.Leaving?
    case LateSet(owner) => owner in s.lateSets
    case LateUnlock(owner) => owner in s.lateUnlocks
    case Crash(_) => true
  }

  function Move(s: System, call: CallId, stage: Stage): System
    requires call in s.calls
  {
    s.(calls := s.calls[call := s.calls[call].(stage := stage)])
  }

  function PutGate(s: System, gate: Gate, g: GateState): System {
    s.(gates := s.gates[gate := g])
  }

  // SET with NX: nothing happens while the key is held.
  function SetIfFree(c: Config, s: System, owner: Owner): (t: System)
    ensures t == s.(lease := t.lease)
  {
    if Free(s) then s.(lease := Some(Lease(owner, s.now + c.ttl))) else s
  }

  // The unlock script: only a lease with this owner token goes.
  function DeleteIfOwned(s: System, owner: Owner): (t: System)
    ensures t == s.(lease := t.lease)
  {
    if !Free(s) && s.lease.value.owner == owner then s.(lease := None) else s
  }

  function AfterEnter(s: System, call: CallId, p: Process, made: Gate): System
    requires Enabled(s, Enter(call, p, made))
  {
    if p in s.current then
      var gate := s.current[p];
      PutGate(s, gate, s.gates[gate].(refs := s.gates[gate].refs + 1)).(calls := s.calls[call := Call(p, gate, Waiting)])
    else
      PutGate(s, made, GateState(1, true)).(current := s.current[p := made], calls := s.calls[call := Call(p, made, Waiting)])
  }

  function AfterSetNX(c: Config, s: System, call: CallId): System
    requires call in s.calls && s.calls[call].stage.Trying?
  {
    var owner := s.calls[call].stage.owner;
    if Free(s) then Move(SetIfFree(c, s, owner), call, Acquired(owner, s.now + c.ttl)) else s
  }

  function AfterFailure(c: Config, s: System, call: CallId, fate: Fate): System
    requires call in s.calls && s.calls[call].stage.Trying?
  {
    var owner := s.calls[call].stage.owner;
    var t := Move(s, call, Releasing);
    match fate
    case TookEffect => SetIfFree(c, t, owner)
    case Late => t.(lateSets := t.lateSets + {owner})
    case Lost => t
  }

  function AfterUnlockScript(s: System, call: CallId, fate: Fate): System
    requires call in s.calls && s.calls[call].stage.Unlocking?
  {
    var owner := s.calls[call].stage.owner;
    var t := Move(s, call, Releasing);
    match fate
    case TookEffect => DeleteIfOwned(t, owner)
    case Late => t.(lateUnlocks := t.lateUnlocks + {owner})
    case Lost => t
  }

  // releaseGateRef: the last user takes the gate out of the map, if the map
  // still holds this gate.
  function AfterRelease(s: System, call: CallId): System
    requires At(s, call)
  {
    var c := s.calls[call];
    var g := s.gates[c.gate].(refs := s.gates[c.gate].refs - 1);
    var t := PutGate(s, c.gate, g).(calls := s.calls - {call});
    if g.refs == 0 && c.process in s.current && s.current[c.process] == c.gate
    then t.(current := t.current - {c.process}) else t
  }

  function AfterCrash(s: System, p: Process): System {
    s.(calls := map k | k in s.calls && s.calls[k].process != p :: s.calls[k],
       current := s.current - {p}, owners := s.owners - {p})
  }

  function Next(c: Config, s: System, e: Event): System
    requires Enabled(s, e)
  {
    match e
    case Tick(time) => s.(now := time)
    case Enter(call, p, made) => AfterEnter(s, call, p, made)
    case TakeToken(call, owner) =>
      PutGate(Move(s, call, Trying(owner)), s.calls[call].gate, s.gates[s.calls[call].gate].(token := false))
        .(drawn := s.drawn + {owner})
    case GateTimesOut(call) => Move(s, call, Leaving)
    case SetNX(call) => AfterSetNX(c, s, call)
    case SetNXFails(call, fate) => AfterFailure(c, s, call, fate)
    case GiveUp(call) => Move(s, call, Releasing)
    case Register(call) =>
      Move(s, call, Held(s.calls[call].stage.owner, s.calls[call].stage.until))
        .(owners := s.owners[s.calls[call].process := call])
    case Unlock(p) => Move(s, s.owners[p], Unlocking(s.calls[s.owners[p]].stage.owner)).(owners := s.owners - {p})
    case UnlockScript(call, fate) => AfterUnlockScript(s, call, fate)
    case SendToken(call) =>
      PutGate(Move(s, call, Leaving), s.calls[call].gate, s.gates[s.calls[call].gate].(token := true))
    case ReleaseRef(call) => AfterRelease(s, call)
    case LateSet(owner) => SetIfFree(c, s.(lateSets := s.lateSets - {owner}), owner)
    case LateUnlock(owner) => DeleteIfOwned(s.(lateUnlocks := s.lateUnlocks - {owner}), owner)
    case Crash(p) => AfterCrash(s, p)
  }

  ghost predicate Run(c: Config, events: seq<Event>, states: seq<System>) {
    && c.ttl > 0 && |states| == |events| + 1 && states[0] == Initial
    && (forall i :: 0 <= i < |events| ==> Enabled(states[i], events[i]) && states[i + 1] == Next(c, states[i], events[i]))
  }

  function Users(s: System, gate: Gate): set<CallId> {
    set k | k in s.calls && s.calls[k].gate == gate
  }

  // Every call uses the gate that its process has in the map, and no two
  // processes share a gate.
  ghost predicate GatesCurrent(s: System) {
    && (forall k :: k in s.calls ==> s.calls[k].process in s.current && s.current[s.calls[k].process] == s.calls[k].gate)
    && (forall p :: p in s.current ==> s.current[p] in s.gates)
    && (forall p, q :: p in s.current && q in s.current && s.current[p] == s.current[q] ==> p == q)
  }

  // The reference count is the number of users.
  ghost predicate RefsExact(s: System)
    requires GatesCurrent(s)
  {
    forall p :: p in s.current ==> s.gates[s.current[p]].refs == |Users(s, s.current[p])|
  }

  predicate HasToken(s: System, k: CallId, gate: Gate) {
    k in s.calls && s.calls[k].gate == gate && s.calls[k].HasToken()
  }

  // The token is in the channel exactly when no call has it, and at most one has.
  ghost predicate TokensExact(s: System)
    requires GatesCurrent(s)
  {
    && (forall p :: p in s.current ==> (s.gates[s.current[p]].token <==> forall k :: !HasToken(s, k, s.current[p])))
    && (forall g, k, l :: HasToken(s, k, g) && HasToken(s, l, g) ==> k == l)
  }

  ghost predicate OwnersExact(s: System) {
    && (forall p :: p in s.owners ==> s.owners[p] in s.calls && s.calls[s.owners[p]].stage.Held? && s.calls[s.owners[p]].process == p)
    && (forall k :: k in s.calls && s.calls[k].stage.Held? ==> s.calls[k].process in s.owners && s.owners[s.calls[k].process] == k)
  }

  predicate Owns(s: System, k: CallId, owner: Owner) {
    k in s.calls && s.calls[k].HasOwner() && s.calls[k].stage.owner == owner
  }

  // Each owner token was drawn, belongs to one call, and is in no command that
  // was left behind while the call has it.
  ghost predicate OwnersDrawn(s: System) {
    && s.lateSets <= s.drawn && s.lateUnlocks <= s.drawn
    && (s.lease.Some? ==> s.lease.value.owner in s.drawn)
    && (forall k, o :: Owns(s, k, o) ==> o in s.drawn && o !in s.lateSets && o !in s.lateUnlocks)
    && (forall k, l, o :: Owns(s, k, o) && Owns(s, l, o) ==> k == l)
  }

  // While its time to live lasts, the lease of a call is in Redis.
  ghost predicate LeasesKept(s: System) {
    forall k :: k in s.calls && s.calls[k].HasLease() && s.now < s.calls[k].stage.until ==>
      s.lease == Some(Lease(s.calls[k].stage.owner, s.calls[k].stage.until))
  }

  ghost predicate GateInv(s: System) {
    GatesCurrent(s) && RefsExact(s) && TokensExact(s)
  }

  ghost predicate LeaseInv(s: System) {
    OwnersDrawn(s) && LeasesKept(s)
  }

  // The step moves at most stages that do not touch the gate.
  ghost predicate SameGates(s: System, t: System) {
    && t.current == s.current && t.gates == s.gates && t.calls.Keys == s.calls.Keys
    && (forall k :: k in s.calls ==>
          && t.calls[k].process == s.calls[k].process && t.calls[k].gate == s.calls[k].gate
          && (t.calls[k].HasToken() <==> s.calls[k].HasToken()))
  }

  predicate Quiet(e: Event) {
    !e.Enter? && !e.TakeToken? && !e.SendToken? && !e.ReleaseRef? && !e.Crash?
  }

  lemma QuietStep(c: Config, s: System, e: Event)
    requires Enabled(s, e) && Quiet(e)
    ensures SameGates(s, Next(c, s, e))
  {
    hide SetIfFree, DeleteIfOwned, Free;
  }

  lemma SameGatesKeep(s: System, t: System)
    requires GateInv(s) && SameGates(s, t)
    ensures GateInv(t)
  {
    forall p | p in t.current ensures Users(t, t.current[p]) == Users(s, s.current[p]) {
    }
    assert forall k, g :: HasToken(t, k, g) == HasToken(s, k, g);
    hide HasToken;
  }

  // One more call that waits on a gate.
  lemma CallAdded(s: System, t: System, call: CallId, p: Process, gate: Gate)
    requires call !in s.calls && t.calls == s.calls[call := Call(p, gate, Waiting)]
    ensures forall k, g :: HasToken(t, k, g) == HasToken(s, k, g)
    ensures forall g :: Users(t, g) == if g == gate then Users(s, g) + {call} else Users(s, g)
    ensures |Users(t, gate)| == |Users(s, gate)| + 1
  {
    forall g ensures Users(t, g) == if g == gate then Users(s, g) + {call} else Users(s, g) {
    }
  }

  lemma EnterKeepsGates(c: Config, s: System, call: CallId, p: Process, made: Gate)
    requires GateInv(s) && Enabled(s, Enter(call, p, made))
    ensures GateInv(AfterEnter(s, call, p, made))
  {
    hide HasToken, Users;
    var t := AfterEnter(s, call, p, made);
    CallAdded(s, t, call, p, t.calls[call].gate);
    if p !in s.current {
      NoUsers(s, made);
    }
  }

  lemma NoUsers(s: System, gate: Gate)
    requires GatesCurrent(s) && gate !in s.gates
    ensures Users(s, gate) == {} && forall k :: !HasToken(s, k, gate)
  {
  }

  lemma SameUsers(s: System, t: System)
    requires t.calls.Keys == s.calls.Keys && forall k :: k in s.calls ==> t.calls[k].gate == s.calls[k].gate
    ensures forall g :: Users(t, g) == Users(s, g)
  {
  }

  lemma TokenStep(c: Config, s: System, e: Event)
    requires GateInv(s) && Enabled(s, e) && (e.TakeToken? || e.SendToken?)
    ensures GateInv(Next(c, s, e))
  {
    var t := Next(c, s, e);
    SameUsers(s, t);
    var gate := s.calls[e.call].gate;
    assert forall k, g :: k != e.call ==> HasToken(t, k, g) == HasToken(s, k, g);
    assert HasToken(s, e.call, gate) <==> e.SendToken?;
    assert HasToken(t, e.call, gate) <==> e.TakeToken?;
    assert forall g :: g != gate ==> !HasToken(t, e.call, g) && !HasToken(s, e.call, g);
    hide HasToken, Users;
  }

  lemma ReleaseKeepsGates(c: Config, s: System, call: CallId)
    requires GateInv(s) && Enabled(s, ReleaseRef(call))
    ensures GateInv(AfterRelease(s, call))
  {
    var t := AfterRelease(s, call);
    var gate := s.calls[call].gate;
    assert forall k, g :: HasToken(t, k, g) == HasToken(s, k, g);
    assert Users(t, gate) == Users(s, gate) - {call} && call in Users(s, gate);
    forall g | g != gate ensures Users(t, g) == Users(s, g) {
    }
    forall k | k in t.calls && t.calls[k].gate == gate ensures k in Users(t, gate) {
    }
    assert |Users(t, gate)| == |Users(s, gate)| - 1;
    hide HasToken, Users;
    assert GatesCurrent(t);
    assert RefsExact(t);
  }

  lemma CrashKeepsGates(s: System, p: Process)
    requires GateInv(s)
    ensures GateInv(AfterCrash(s, p))
  {
    var t := AfterCrash(s, p);
    forall q | q in t.current ensures Users(t, t.current[q]) == Users(s, s.current[q]) {
    }
    assert forall k, q :: q in t.current ==> HasToken(t, k, t.current[q]) == HasToken(s, k, t.current[q]);
    assert forall k, g :: HasToken(t, k, g) ==> HasToken(s, k, g);
    hide HasToken, Users;
  }

  lemma StepKeepsGates(c: Config, s: System, e: Event)
    requires GateInv(s) && Enabled(s, e)
    ensures GateInv(Next(c, s, e))
  {
    hide GateInv, SameGates, AfterEnter, AfterRelease, AfterCrash, AfterSetNX, AfterFailure, AfterUnlockScript, SetIfFree, DeleteIfOwned;
    if Quiet(e) {
      QuietStep(c, s, e);
      SameGatesKeep(s, Next(c, s, e));
    } else if e.TakeToken? || e.SendToken? {
      TokenStep(c, s, e);
    } else {
      match e
      case Enter(call, p, made) => EnterKeepsGates(c, s, call, p, made);
      case ReleaseRef(call) => ReleaseKeepsGates(c, s, call);
      case Crash(p) => CrashKeepsGates(s, p);
      case _ => assert false;
    }
  }

  // Deleting the lease of an owner that no call with a lease has.
  lemma DeleteKeepsLeases(s: System, owner: Owner)
    requires LeasesKept(s) && forall k :: k in s.calls && s.calls[k].HasLease() ==> s.calls[k].stage.owner != owner
    ensures LeasesKept(DeleteIfOwned(s, owner))
  {
  }

  lemma SetKeepsLeases(c: Config, s: System, owner: Owner)
    requires LeasesKept(s)
    ensures LeasesKept(SetIfFree(c, s, owner))
  {
  }

  // Moving one call to a stage without a lease.
  lemma MoveKeepsLeases(s: System, call: CallId, stage: Stage)
    requires LeasesKept(s) && call in s.calls && !stage.Acquired? && !stage.Held?
    ensures LeasesKept(Move(s, call, stage))
  {
  }

  lemma ScriptKeepsLeases(s: System, call: CallId, fate: Fate)
    requires LeaseInv(s) && Enabled(s, UnlockScript(call, fate))
    ensures LeasesKept(AfterUnlockScript(s, call, fate))
  {
    var owner := s.calls[call].stage.owner;
    var t := Move(s, call, Releasing);
    MoveKeepsLeases(s, call, Releasing);
    forall k | k in t.calls && t.calls[k].HasLease() ensures t.calls[k].stage.owner != owner {
      assert Owns(s, call, owner) && Owns(s, k, s.calls[k].stage.owner);
    }
    hide LeasesKept, DeleteIfOwned;
    DeleteKeepsLeases(t, owner);
    LateKeepsLeases(t, t.(lateUnlocks := t.lateUnlocks + {owner}));
  }

  lemma LateKeepsLeases(s: System, t: System)
    requires LeasesKept(s) && t.now == s.now && t.calls == s.calls && t.lease == s.lease
    ensures LeasesKept(t)
  {
  }

  lemma FailureKeepsLeases(c: Config, s: System, call: CallId, fate: Fate)
    requires LeasesKept(s) && Enabled(s, SetNXFails(call, fate))
    ensures LeasesKept(AfterFailure(c, s, call, fate))
  {
    hide LeasesKept, SetIfFree;
    var owner := s.calls[call].stage.owner;
    var t := Move(s, call, Releasing);
    MoveKeepsLeases(s, call, Releasing);
    SetKeepsLeases(c, t, owner);
    LateKeepsLeases(t, t.(lateSets := t.lateSets + {owner}));
  }

  lemma LateStepKeepsLeases(c: Config, s: System, e: Event)
    requires LeaseInv(s) && Enabled(s, e) && (e.LateSet? || e.LateUnlock?)
    ensures LeasesKept(Next(c, s, e))
  {
    hide LeasesKept, SetIfFree, DeleteIfOwned;
    match e
    case LateSet(owner) =>
      var t := s.(lateSets := s.lateSets - {owner});
      LateKeepsLeases(s, t);
      SetKeepsLeases(c, t, owner);
    case LateUnlock(owner) =>
      var t := s.(lateUnlocks := s.lateUnlocks - {owner});
      LateKeepsLeases(s, t);
      assert forall k :: k in s.calls && s.calls[k].HasLease() ==> Owns(s, k, s.calls[k].stage.owner);
      DeleteKeepsLeases(t, owner);
    case _ => assert false;
  }

  lemma StepKeepsLeases(c: Config, s: System, e: Event)
    requires LeaseInv(s) && Enabled(s, e)
    ensures LeasesKept(Next(c, s, e))
  {
    hide SetIfFree, DeleteIfOwned, AfterFailure, AfterUnlockScript;
    match e
    case LateSet(_) => LateStepKeepsLeases(c, s, e);
    case LateUnlock(_) => LateStepKeepsLeases(c, s, e);
    case SetNXFails(call, fate) => FailureKeepsLeases(c, s, call, fate);
    case UnlockScript(call, fate) => ScriptKeepsLeases(s, call, fate);
    case SetNX(call) => SetNXKeepsLeases(c, s, call);
    case _ =>
  }

  lemma SetNXKeepsLeases(c: Config, s: System, call: CallId)
    requires LeasesKept(s) && Enabled(s, SetNX(call))
    ensures LeasesKept(AfterSetNX(c, s, call))
  {
  }

  // Owner tokens come from a draw, and a command left behind belongs to a call
  // that has given its token up.
  lemma OwnersComeFrom(c: Config, s: System, e: Event)
    requires Enabled(s, e)
    ensures
      var t := Next(c, s, e);
      && (forall k, o :: Owns(t, k, o) ==> Owns(s, k, o) || (e.TakeToken? && k == e.call && o == e.owner))
      && s.drawn <= t.drawn && (e.TakeToken? ==> e.owner !in s.drawn && e.owner in t.drawn)
  {
    hide SetIfFree, DeleteIfOwned, Free;
  }

  lemma LeftBehind(c: Config, s: System, e: Event)
    requires Enabled(s, e)
    ensures
      var t := Next(c, s, e);
      && (forall o :: o in t.lateSets && o !in s.lateSets ==> e.SetNXFails? && Owns(s, e.call, o) && !Owns(t, e.call, o))
      && (forall o :: o in t.lateUnlocks && o !in s.lateUnlocks ==> e.UnlockScript? && Owns(s, e.call, o) && !Owns(t, e.call, o))
  {
    hide SetIfFree, DeleteIfOwned, Free;
  }

  lemma LeaseComesFrom(c: Config, s: System, e: Event)
    requires Enabled(s, e)
    ensures
      var t := Next(c, s, e);
      t.lease == s.lease || t.lease == None
      || t.lease.value.owner in s.lateSets || exists k :: Owns(s, k, t.lease.value.owner)
  {
    if e.SetNX? || e.SetNXFails? {
      assert Owns(s, e.call, s.calls[e.call].stage.owner);
    }
  }

  // The owner tokens of calls stay their own.
  lemma StepKeepsOwnersDrawn(c: Config, s: System, e: Event)
    requires OwnersDrawn(s) && Enabled(s, e)
    ensures OwnersDrawn(Next(c, s, e))
  {
    hide Enabled, Next, Owns;
    var t := Next(c, s, e);
    OwnersComeFrom(c, s, e);
    LeftBehind(c, s, e);
    LeaseComesFrom(c, s, e);
    forall o | (o in t.lateSets && o !in s.lateSets) || (o in t.lateUnlocks && o !in s.lateUnlocks)
      ensures o in t.drawn && forall k :: !Owns(t, k, o)
    {
      assert Owns(s, e.call, o);
      forall k ensures !Owns(t, k, o) {
        assert k != e.call ==> !Owns(s, k, o);
      }
    }
    assert forall k, o :: Owns(t, k, o) ==> o in t.drawn && o !in t.lateSets && o !in t.lateUnlocks;
    assert t.lateSets <= t.drawn && t.lateUnlocks <= t.drawn;
    forall k, l, o | Owns(t, k, o) && Owns(t, l, o) ensures k == l {
      if e.TakeToken? && o == e.owner {
        assert !Owns(s, k, o) && !Owns(s, l, o);
      }
    }
  }

  // Registering finds no other owner: it would have the token of the same gate.
  lemma RegisterKeepsOwners(c: Config, s: System, call: CallId)
    requires GatesCurrent(s) && TokensExact(s) && OwnersExact(s) && Enabled(s, Register(call))
    ensures s.calls[call].process !in s.owners && OwnersExact(Next(c, s, Register(call)))
  {
    var p, gate := s.calls[call].process, s.calls[call].gate;
    assert HasToken(s, call, gate);
    forall k | k in s.calls && s.calls[k].stage.Held? ensures s.calls[k].process != p {
      assert s.calls[k].gate == gate ==> HasToken(s, k, gate);
    }
    hide HasToken, GatesCurrent, TokensExact;
  }

  // The step neither makes nor ends a held call.
  ghost predicate SameHeld(s: System, t: System) {
    && t.owners == s.owners
    && (forall k :: k in t.calls && t.calls[k].stage.Held? ==> k in s.calls && s.calls[k] == t.calls[k])
    && (forall k :: k in s.calls && s.calls[k].stage.Held? ==> k in t.calls && t.calls[k] == s.calls[k])
  }

  lemma SameHeldStep(c: Config, s: System, e: Event)
    requires Enabled(s, e) && !e.Register? && !e.Unlock? && !e.Crash?
    ensures SameHeld(s, Next(c, s, e))
  {
    hide SetIfFree, DeleteIfOwned, Free;
  }

  lemma SameHeldKeeps(s: System, t: System)
    requires OwnersExact(s) && SameHeld(s, t)
    ensures OwnersExact(t)
  {
  }

  lemma OtherKeepsOwners(c: Config, s: System, e: Event)
    requires OwnersExact(s) && Enabled(s, e) && !e.Register?
    ensures OwnersExact(Next(c, s, e))
  {
    hide SameHeld, AfterEnter, AfterRelease, AfterSetNX, AfterFailure, AfterUnlockScript, SetIfFree, DeleteIfOwned, Free;
    if !e.Unlock? && !e.Crash? {
      SameHeldStep(c, s, e);
      SameHeldKeeps(s, Next(c, s, e));
    }
  }

  lemma StepKeepsOwners(c: Config, s: System, e: Event)
    requires GateInv(s) && OwnersExact(s) && Enabled(s, e)
    ensures OwnersExact(Next(c, s, e))
  {
    hide Next, Enabled, OwnersExact, RefsExact, TokensExact, GatesCurrent;
    if e.Register? {
      RegisterKeepsOwners(c, s, e.call);
    } else {
      OtherKeepsOwners(c, s, e);
    }
  }

  ghost predicate Inv(s: System) {
    GateInv(s) && OwnersExact(s) && LeaseInv(s)
  }

  lemma StepKeepsInv(c: Config, s: System, e: Event)
    requires Inv(s) && Enabled(s, e)
    ensures Inv(Next(c, s, e))
  {
    hide Next, Enabled, GateInv, OwnersExact, OwnersDrawn, LeasesKept;
    StepKeepsGates(c, s, e);
    StepKeepsOwners(c, s, e);
    StepKeepsOwnersDrawn(c, s, e);
    StepKeepsLeases(c, s, e);
  }

  lemma {:induction false} EveryState(c: Config, events: seq<Event>, states: seq<System>, i: nat)
    requires Run(c, events, states) && i <= |events|
    ensures Inv(states[i])
  {
    if i > 0 {
      EveryState(c, events, states, i - 1);
      hide Next, Inv;
      StepKeepsInv(c, states[i - 1], events[i - 1]);
    }
  }

  // In one process at most one call is between a successful Lock and the end of
  // its Unlock, even when its lease has lapsed and however often gates come and
  // go; the reference count is the number of users; and sending the token back
  // never blocks.
  lemma OneHolderPerProcess(c: Config, events: seq<Event>, states: seq<System>, i: nat, k: CallId, l: CallId)
    requires Run(c, events, states) && i <= |events|
    requires k in states[i].calls && l in states[i].calls
    requires states[i].calls[k].HasToken() && states[i].calls[l].HasToken()
    requires states[i].calls[k].process == states[i].calls[l].process
    ensures k == l
    ensures states[i].calls[k].stage.Releasing? ==> Enabled(states[i], SendToken(k))
    ensures
      var s := states[i];
      s.calls[k].gate in s.gates && s.gates[s.calls[k].gate].refs == |Users(s, s.calls[k].gate)|
  {
    EveryState(c, events, states, i);
    hide RefsExact, OwnersExact, LeaseInv, Users;
    var s := states[i];
    assert HasToken(s, k, s.calls[k].gate) && HasToken(s, l, s.calls[k].gate);
    assert RefsExact(s);
    RefsOf(s, s.calls[k].process);
  }

  lemma RefsOf(s: System, p: Process)
    requires GatesCurrent(s) && RefsExact(s) && p in s.current
    ensures s.gates[s.current[p]].refs == |Users(s, s.current[p])|
  {
  }

  // Two processes hold the lock together only after the time to live of one of
  // their leases has lapsed.
  lemma OverlapNeedsLapse(c: Config, events: seq<Event>, states: seq<System>, i: nat, k: CallId, l: CallId)
    requires Run(c, events, states) && i <= |events| && k != l
    requires k in states[i].calls && l in states[i].calls
    requires states[i].calls[k].HasLease() && states[i].calls[l].HasLease()
    ensures states[i].calls[k].stage.until <= states[i].now || states[i].calls[l].stage.until <= states[i].now
  {
    EveryState(c, events, states, i);
    hide GateInv, OwnersExact;
    var s := states[i];
    assert Owns(s, k, s.calls[k].stage.owner) && Owns(s, l, s.calls[l].stage.owner);
  }

  // A lease that has not lapsed is removed by the unlock script of its own owner
  // and by nothing else, and is never replaced.
  lemma OnlyOwnerUnlocks(c: Config, s: System, e: Event)
    requires Enabled(s, e) && !Free(s) && Next(c, s, e).lease != s.lease
    ensures Next(c, s, e).lease == None
    ensures
      var owner := s.lease.value.owner;
      e == LateUnlock(owner) || (e.UnlockScript? && Owns(s, e.call, owner))
  {
  }

  // A waiting call can take the token exactly when no other call of its process
  // has it.
  lemma TokenIsFree(c: Config, events: seq<Event>, states: seq<System>, i: nat, k: CallId, owner: Owner)
    requires Run(c, events, states) && i <= |events| && owner !in states[i].drawn
    requires k in states[i].calls && states[i].calls[k].stage.Waiting?
    ensures
      var s := states[i];
      Enabled(s, TakeToken(k, owner)) <==>
        forall l :: l in s.calls && s.calls[l].process == s.calls[k].process ==> !s.calls[l].HasToken()
  {
    EveryState(c, events, states, i);
    var s := states[i];
    var gate := s.calls[k].gate;
    assert forall l :: l in s.calls && s.calls[l].process == s.calls[k].process && s.calls[l].HasToken() ==> HasToken(s, l, gate);
    assert forall l :: HasToken(s, l, gate) ==> s.calls[l].process == s.calls[k].process;
    hide RefsExact, OwnersExact, LeaseInv;
  }

  // The states after each of these events, which can all happen in turn.
  ghost predicate Follow(c: Config, s: System, events: seq<Event>, states: seq<System>) {
    && |states| == |events| + 1 && states[0] == s
    && (forall i :: 0 <= i < |events| ==> Enabled(states[i], events[i]) && states[i + 1] == Next(c, states[i], events[i]))
  }

  function Locking(k: CallId, p: Process, made: Gate, owner: Owner): seq<Event> {
    [Enter(k, p, made), TakeToken(k, owner), SetNX(k), Register(k)]
  }

  function Releases(k: CallId, p: Process): seq<Event> {
    [Unlock(p), UnlockScript(k, TookEffect), SendToken(k), ReleaseRef(k)]
  }

  lemma EntersAndTakes(c: Config, s: System, k: CallId, p: Process, made: Gate, owner: Owner) returns (t: System)
    requires GateInv(s) && k !in s.calls && made !in s.gates && owner !in s.drawn
    requires forall l :: l in s.calls ==> s.calls[l].process != p
    ensures Enabled(s, Enter(k, p, made))
    ensures
      var u := Next(c, s, Enter(k, p, made));
      Enabled(u, TakeToken(k, owner)) && t == Next(c, u, TakeToken(k, owner))
    ensures At(t, k) && t.calls[k].process == p && t.calls[k].stage == Trying(owner)
    ensures t.lease == s.lease && t.now == s.now
  {
    if p in s.current {
      assert forall l :: !HasToken(s, l, s.current[p]);
    }
    hide RefsExact;
    t := Next(c, Next(c, s, Enter(k, p, made)), TakeToken(k, owner));
  }

  // A lock that is free, in a process that does not use it, can be taken: Lock
  // gets through and holds a lease for the whole time to live.
  lemma FreeLockCanBeTaken(c: Config, events: seq<Event>, states: seq<System>, i: nat,
                           k: CallId, p: Process, made: Gate, owner: Owner) returns (next: seq<System>)
    requires Run(c, events, states) && i <= |events| && Free(states[i])
    requires forall l :: l in states[i].calls ==> states[i].calls[l].process != p
    requires k !in states[i].calls && made !in states[i].gates && owner !in states[i].drawn
    ensures Follow(c, states[i], Locking(k, p, made, owner), next)
    ensures
      var t, until := next[4], states[i].now + c.ttl;
      && k in t.calls && t.calls[k].process == p && t.calls[k].stage == Held(owner, until)
      && t.lease == Some(Lease(owner, until)) && until > t.now
      && p in t.owners && t.owners[p] == k
  {
    EveryState(c, events, states, i);
    hide GateInv, OwnersExact, LeaseInv;
    var s := states[i];
    var u := EntersAndTakes(c, s, k, p, made, owner);
    var v := Next(c, u, SetNX(k));
    assert Enabled(v, Register(k));
    next := [s, Next(c, s, Enter(k, p, made)), u, v, Next(c, v, Register(k))];
  }

  lemma UnlocksAndSends(c: Config, s: System, k: CallId) returns (t: System)
    requires GateInv(s) && OwnersExact(s) && k in s.calls && s.calls[k].stage.Held?
    ensures Enabled(s, Unlock(s.calls[k].process))
    ensures
      var u := Next(c, s, Unlock(s.calls[k].process));
      && Enabled(u, UnlockScript(k, TookEffect))
      && var v := Next(c, u, UnlockScript(k, TookEffect));
         Enabled(v, SendToken(k)) && t == Next(c, v, SendToken(k))
    ensures At(t, k) && t.calls == s.calls[k := s.calls[k].(stage := Leaving)] && t.drawn == s.drawn
    ensures t.gates == s.gates[s.calls[k].gate := s.gates[s.calls[k].gate].(token := true)]
    ensures t.owners == s.owners - {s.calls[k].process} && t.now == s.now
    ensures t.lease == if !Free(s) && s.lease.value.owner == s.calls[k].stage.owner then None else s.lease
  {
    assert HasToken(s, k, s.calls[k].gate);
    hide RefsExact;
    var u := Next(c, s, Unlock(s.calls[k].process));
    t := Next(c, Next(c, u, UnlockScript(k, TookEffect)), SendToken(k));
  }

  // After that the reference is released, and a waiting call finds the token.
  lemma ReleasesRef(c: Config, s: System, t: System, k: CallId) returns (u: System)
    requires GatesCurrent(s) && k in s.calls && At(t, k)
    requires t.calls == s.calls[k := s.calls[k].(stage := Leaving)] && t.drawn == s.drawn
    requires t.gates == s.gates[s.calls[k].gate := s.gates[s.calls[k].gate].(token := true)]
    ensures Enabled(t, ReleaseRef(k)) && u == Next(c, t, ReleaseRef(k))
    ensures k !in u.calls && u.owners == t.owners && u.lease == t.lease && u.now == t.now
    ensures forall l, owner ::
              l in s.calls && l != k && s.calls[l].process == s.calls[k].process && s.calls[l].stage.Waiting? && owner !in s.drawn ==>
              Enabled(u, TakeToken(l, owner))
  {
    u := Next(c, t, ReleaseRef(k));
  }

  // A holder can unlock: Unlock gets through, the lease is gone if it was still
  // its own, the call is over, and the next waiting call can take the token.
  lemma HolderCanUnlock(c: Config, events: seq<Event>, states: seq<System>, i: nat, k: CallId) returns (next: seq<System>)
    requires Run(c, events, states) && i <= |events| && k in states[i].calls && states[i].calls[k].stage.Held?
    ensures Follow(c, states[i], Releases(k, states[i].calls[k].process), next)
    ensures
      var s, t := states[i], next[4];
      var p := s.calls[k].process;
      && k !in t.calls && p !in t.owners
      && (s.now < s.calls[k].stage.until ==> Free(t))
      && forall l, owner :: l in s.calls && l != k && s.calls[l].process == p && s.calls[l].stage.Waiting? && owner !in s.drawn ==>
           Enabled(t, TakeToken(l, owner))
  {
    EveryState(c, events, states, i);
    hide Run, Next, RefsExact, OwnersExact, TokensExact, OwnersDrawn;
    var s := states[i];
    var p := s.calls[k].process;
    var t := UnlocksAndSends(c, s, k);
    var v := Next(c, s, Unlock(p));
    var u := ReleasesRef(c, s, t, k);
    hide GatesCurrent, Enabled;
    next := [s, v, Next(c, v, UnlockScript(k, TookEffect)), t, u];
  }
}
