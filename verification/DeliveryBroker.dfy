// Reliable delivery over JetStream as a state machine of the broker, the
// workers and the settlements of the adapter
// (Framework/queueclient/natsjetstream/adapter.go,
// Framework/queueclient/worker.go, Framework/queueclient/client.go).
//
// A worker may stop waiting for a settlement that goes on without it; requests
// that have been sent reach the broker later, more than once or never; every
// unacknowledged message may be delivered again at any time; processes crash.

module DeliveryBroker {
  import opened DeadLetterIds
  import opened DeliveryRuns

  type DeliveryId(==, !new)

  datatype Worker = Worker(meta: Meta, endings: seq<Ending>)

  datatype Task =
    | Acknowledging(meta: Meta, sent: bool)
    | Publishing(meta: Meta, sent: bool)   // a dead letter before its confirmation
    | Confirming(meta: Meta)               // published; its source is being acknowledged

  datatype Record = Record(id: Id, source: Meta)

  // A request on its way, with the settlement that sent it.
  datatype Publish = Publish(task: DeliveryId, source: Meta)

  datatype System = System(
    appended: set<Meta>,           // all messages of the stream so far, per consumer
    malformed: set<Meta>,          // those the adapter cannot convert
    acked: set<Meta>,
    records: seq<Record>,          // the dead-letter stream
    remembered: set<Id>,           // the deduplication window
    handled: set<Meta>,            // some handler returned nil within its budget
    workers: map<DeliveryId, Worker>,
    tasks: map<DeliveryId, Task>,
    publishes: set<Publish>,       // on the way to the broker
    confirmations: set<Publish>,   // on the way back
    acks: set<Meta>)               // on the way to the broker

  const Initial := System({}, {}, {}, [], {}, {}, map[], map[], {}, {}, {})

  datatype Event =
    | Append(meta: Meta, wellFormed: bool)
    | Deliver(delivery: DeliveryId, received: Meta)
    | AttemptEnds(attempted: DeliveryId, ending: Ending)
    | Settle(settled: DeliveryId, settlement: Settlement)
    | WorkerStops(stopped: DeliveryId)
    | SendAck(acking: DeliveryId)
    | SendPublish(publishing: DeliveryId)
    | StorePublish(stored: Publish)
    | LosePublish(lost: Publish)
    | ReceiveConfirmation(confirmed: Publish)
    | LoseConfirmation(unconfirmed: Publish)
    | ApplyAck(applied: Meta)
    | LoseAck(dropped: Meta)
    | TaskEnds(ended: DeliveryId)
    | Crash(deliveries: set<DeliveryId>)
    | Forget(id: Id)

  datatype Setting = Setting(bounds: Bounds, unboundedWindow: bool)

  predicate Enabled(c: Setting, s: System, e: Event) {
    match e
    case Append(meta, _) => meta.Named() && meta !in s.appended
    case Deliver(d, meta) => meta in s.appended && meta !in s.acked && d !in s.workers && d !in s.tasks
    case AttemptEnds(d, _) =>
      d in s.workers && |s.workers[d].endings| < c.bounds.retry.maxAttempts && AllFailedOnce(s.workers[d].endings)
    case Settle(d, k) => d in s.workers && d !in s.tasks && Justified(c.bounds, s.workers[d].endings, k)
    case WorkerStops(d) => d in s.workers
    case SendAck(d) => d in s.tasks && s.tasks[d].Acknowledging? && !s.tasks[d].sent
    case SendPublish(d) => d in s.tasks && s.tasks[d].Publishing? && !s.tasks[d].sent && s.tasks[d].meta.Complete()
    case StorePublish(p) => p in s.publishes
    case LosePublish(p) => p in s.publishes
    case ReceiveConfirmation(p) => p in s.confirmations && p.task in s.tasks && s.tasks[p.task] == Publishing(p.source, true)
    case LoseConfirmation(p) => p in s.confirmations
    case ApplyAck(meta) => meta in s.acks
    case LoseAck(meta) => meta in s.acks
    case TaskEnds(d) => d in s.tasks
    case Crash(_) => true
    case Forget(_) => !c.unboundedWindow
  }

  // A message that cannot be converted is quarantined without a handler.
  function AfterDeliver(s: System, d: DeliveryId, meta: Meta): System {
    if meta in s.malformed then s.(tasks := s.tasks[d := Publishing(meta, false)])
    else s.(workers := s.workers[d := Worker(meta, [])])
  }

  function AfterAttempt(s: System, d: DeliveryId, ending: Ending): System
    requires d in s.workers
  {
    var w := s.workers[d];
    s.(workers := s.workers[d := w.(endings := w.endings + [ending])],
       handled := if ending.Succeeded? then s.handled + {w.meta} else s.handled)
  }

  function AfterSettle(s: System, d: DeliveryId, k: Settlement): System
    requires d in s.workers
  {
    var meta := s.workers[d].meta;
    s.(workers := s.workers - {d},
       tasks := s.tasks[d := if k.Acknowledge? then Acknowledging(meta, false) else Publishing(meta, false)])
  }

  // The broker stores a record unless it remembers its identifier, and confirms
  // either way.
  function AfterStore(s: System, p: Publish): System {
    var id := DeadLetterId(p.source);
    s.(records := if id in s.remembered then s.records else s.records + [Record(id, p.source)],
       remembered := s.remembered + {id},
       confirmations := s.confirmations + {p})
  }

  function Next(c: Setting, s: System, e: Event): System
    requires Enabled(c, s, e)
  {
    match e
    case Append(meta, wellFormed) =>
      s.(appended := s.appended + {meta}, malformed := if wellFormed then s.malformed else s.malformed + {meta})
    case Deliver(d, meta) => AfterDeliver(s, d, meta)
    case AttemptEnds(d, ending) => AfterAttempt(s, d, ending)
    case Settle(d, k) => AfterSettle(s, d, k)
    case WorkerStops(d) => s.(workers := s.workers - {d})
    case SendAck(d) => s.(tasks := s.tasks[d := Acknowledging(s.tasks[d].meta, true)], acks := s.acks + {s.tasks[d].meta})
    case SendPublish(d) =>
      s.(tasks := s.tasks[d := Publishing(s.tasks[d].meta, true)], publishes := s.publishes + {Publish(d, s.tasks[d].meta)})
    case StorePublish(p) => AfterStore(s, p)
    case LosePublish(p) => s.(publishes := s.publishes - {p})
    case ReceiveConfirmation(p) =>
      s.(tasks := s.tasks[p.task := Confirming(p.source)], confirmations := s.confirmations - {p}, acks := s.acks + {p.source})
    case LoseConfirmation(p) => s.(confirmations := s.confirmations - {p})
    case ApplyAck(meta) => s.(acked := s.acked + {meta})
    case LoseAck(meta) => s.(acks := s.acks - {meta})
    case TaskEnds(d) => s.(tasks := s.tasks - {d})
    case Crash(ds) => s.(workers := s.workers - ds, tasks := s.tasks - ds)
    case Forget(id) => s.(remembered := s.remembered - {id})
  }

  ghost predicate Steps(c: Setting, s: System, t: System) {
    exists e :: Enabled(c, s, e) && t == Next(c, s, e)
  }

  ghost predicate Run(c: Setting, states: seq<System>) {
    && |states| > 0 && states[0] == Initial
    && (forall i :: 0 <= i < |states| - 1 ==> Steps(c, states[i], states[i + 1]))
  }

  ghost predicate Stored(s: System, meta: Meta) {
    exists i :: 0 <= i < |s.records| && s.records[i].source == meta
  }

  // The message can be forgotten: it was handled or its dead letter is stored.
  ghost predicate Safe(s: System, meta: Meta) {
    meta in s.handled || Stored(s, meta)
  }

  ghost predicate KnownNames(s: System) {
    && (forall m :: m in s.appended ==> m.Named())
    && (forall d :: d in s.workers ==> s.workers[d].meta in s.appended)
    && (forall d :: d in s.tasks ==> s.tasks[d].meta in s.appended)
    && (forall p :: p in s.publishes ==> p.source in s.appended)
    && s.acks <= s.appended && s.acked <= s.appended
  }

  ghost predicate RecordsKnown(s: System) {
    && (forall i :: 0 <= i < |s.records| ==>
          s.records[i].source in s.appended && s.records[i].id == DeadLetterId(s.records[i].source))
    && (forall id :: id in s.remembered ==> exists i :: 0 <= i < |s.records| && s.records[i].id == id)
  }

  // Whatever leads to an acknowledgement rests on a handled or stored message.
  ghost predicate AcksJustified(s: System) {
    CallersHonest(s) && RequestsHonest(s)
  }

  ghost predicate CallersHonest(s: System) {
    && (forall d :: d in s.workers && Succeeded in s.workers[d].endings ==> s.workers[d].meta in s.handled)
    && (forall d :: d in s.tasks && s.tasks[d].Acknowledging? ==> s.tasks[d].meta in s.handled)
  }

  ghost predicate RequestsHonest(s: System) {
    && (forall p :: p in s.confirmations ==> Stored(s, p.source) && p.source in s.appended)
    && (forall m :: m in s.acks || m in s.acked ==> Safe(s, m))
  }

  ghost predicate Inv(s: System) {
    KnownNames(s) && RecordsKnown(s) && AcksJustified(s)
  }

  ghost predicate NoDuplicates(s: System) {
    && (forall i :: 0 <= i < |s.records| ==> s.records[i].id in s.remembered)
    && (forall i, j :: 0 <= i < j < |s.records| ==> s.records[i].source != s.records[j].source)
  }

  lemma StepKeepsNames(c: Setting, s: System, e: Event)
    requires KnownNames(s) && AcksJustified(s) && Enabled(c, s, e)
    ensures KnownNames(Next(c, s, e))
  {
    hide Safe, Stored, Justified, DeadLetterId;
  }

  lemma StoreKeepsRecords(s: System, p: Publish)
    requires RecordsKnown(s) && p.source in s.appended
    ensures RecordsKnown(AfterStore(s, p))
  {
    hide DeadLetterId;
    var t := AfterStore(s, p);
    forall id | id in t.remembered ensures exists i :: 0 <= i < |t.records| && t.records[i].id == id {
      if id in s.remembered {
        var i :| 0 <= i < |s.records| && s.records[i].id == id;
        assert t.records[i].id == id;
      } else {
        assert t.records[|s.records|].id == id;
      }
    }
  }

  lemma StepKeepsRecords(c: Setting, s: System, e: Event)
    requires Inv(s) && Enabled(c, s, e)
    ensures RecordsKnown(Next(c, s, e))
  {
    hide AcksJustified, AfterStore, Justified, DeadLetterId;
    if e.StorePublish? {
      StoreKeepsRecords(s, e.stored);
    }
  }

  // A confirmation means the record is there, even when the broker only
  // remembered its identifier: names never collide.
  lemma ConfirmedIsStored(s: System, p: Publish)
    requires KnownNames(s) && RecordsKnown(s) && p.source in s.appended
    ensures Stored(AfterStore(s, p), p.source)
    ensures forall m :: Stored(s, m) ==> Stored(AfterStore(s, p), m)
  {
    hide DeadLetterId;
    var t := AfterStore(s, p);
    forall m | Stored(s, m) ensures Stored(t, m) {
      var i :| 0 <= i < |s.records| && s.records[i].source == m;
      assert t.records[i].source == m;
    }
    if DeadLetterId(p.source) in s.remembered {
      var i :| 0 <= i < |s.records| && s.records[i].id == DeadLetterId(p.source);
      IdIsInjective(s.records[i].source, p.source);
      assert t.records[i].source == p.source;
    } else {
      assert t.records[|s.records|].source == p.source;
    }
  }

  lemma StoreKeepsAcks(s: System, p: Publish)
    requires Inv(s) && p.source in s.appended
    ensures AcksJustified(AfterStore(s, p))
  {
    ConfirmedIsStored(s, p);
    hide Stored, KnownNames, RecordsKnown, DeadLetterId;
  }

  lemma StepKeepsCallers(c: Setting, s: System, e: Event)
    requires CallersHonest(s) && Enabled(c, s, e)
    ensures CallersHonest(Next(c, s, e))
  {
    hide RequestsHonest, DeadLetterId;
  }

  lemma StepKeepsRequests(c: Setting, s: System, e: Event)
    requires AcksJustified(s) && Enabled(c, s, e) && !e.StorePublish?
    ensures RequestsHonest(Next(c, s, e))
  {
    hide AfterStore, Stored, Safe, DeadLetterId, Justified, AllFailedOnce;
    var t := Next(c, s, e);
    SafeStays(s, t);
    if e.SendAck? {
      HandledIsSafe(s, s.tasks[e.acking].meta);
    } else if e.ReceiveConfirmation? {
      StoredIsSafe(s, e.confirmed.source);
    }
  }

  lemma HandledIsSafe(s: System, m: Meta)
    ensures m in s.handled ==> Safe(s, m)
  {
  }

  lemma StoredIsSafe(s: System, m: Meta)
    ensures Stored(s, m) ==> Safe(s, m)
  {
  }

  lemma SafeStays(s: System, t: System)
    requires s.records == t.records && s.handled <= t.handled
    ensures forall m :: Stored(t, m) == Stored(s, m)
    ensures forall m :: Safe(s, m) ==> Safe(t, m)
  {
  }

  lemma StepKeepsAcks(c: Setting, s: System, e: Event)
    requires Inv(s) && Enabled(c, s, e)
    ensures AcksJustified(Next(c, s, e))
  {
    if e.StorePublish? {
      StoreKeepsAcks(s, e.stored);
    } else {
      StepKeepsCallers(c, s, e);
      StepKeepsRequests(c, s, e);
      hide CallersHonest, RequestsHonest, Next, Enabled, KnownNames, RecordsKnown;
    }
  }

  lemma {:induction false} EveryState(c: Setting, states: seq<System>, i: nat)
    requires Run(c, states) && i < |states|
    ensures Inv(states[i])
  {
    if i > 0 {
      EveryState(c, states, i - 1);
      assert Steps(c, states[i - 1], states[i]);
      hide KnownNames, RecordsKnown, AcksJustified, Enabled, Next;
      var e :| Enabled(c, states[i - 1], e) && states[i] == Next(c, states[i - 1], e);
      StepKeepsNames(c, states[i - 1], e);
      StepKeepsRecords(c, states[i - 1], e);
      StepKeepsAcks(c, states[i - 1], e);
    }
  }

  // No message is lost: a message of the stream is acknowledged only when some
  // handler returned nil within its budget or its dead letter is stored, and
  // otherwise it can be delivered again.
  lemma NoLoss(c: Setting, states: seq<System>, i: nat, meta: Meta, d: DeliveryId)
    requires Run(c, states) && i < |states| && meta in states[i].appended
    ensures meta in states[i].acked ==> Safe(states[i], meta)
    ensures !Safe(states[i], meta) && d !in states[i].workers && d !in states[i].tasks ==> Enabled(c, states[i], Deliver(d, meta))
  {
    EveryState(c, states, i);
  }

  lemma StoreKeepsUnique(s: System, p: Publish)
    requires Inv(s) && NoDuplicates(s) && p.source in s.appended
    ensures NoDuplicates(AfterStore(s, p))
  {
    hide DeadLetterId, AcksJustified;
    var t := AfterStore(s, p);
    forall i, j | 0 <= i < j < |t.records| ensures t.records[i].source != t.records[j].source {
      if j == |s.records| {
        assert DeadLetterId(t.records[i].source) in s.remembered;
      }
    }
  }

  lemma StepKeepsUnique(c: Setting, s: System, e: Event)
    requires c.unboundedWindow && Inv(s) && NoDuplicates(s) && Enabled(c, s, e)
    ensures NoDuplicates(Next(c, s, e))
  {
    hide AfterStore, Justified, AcksJustified, RecordsKnown;
    if e.StorePublish? {
      StoreKeepsUnique(s, e.stored);
    }
  }

  lemma {:induction false} EveryStateUnique(c: Setting, states: seq<System>, i: nat)
    requires c.unboundedWindow && Run(c, states) && i < |states|
    ensures NoDuplicates(states[i])
  {
    if i > 0 {
      EveryStateUnique(c, states, i - 1);
      EveryState(c, states, i - 1);
      assert Steps(c, states[i - 1], states[i]);
      hide Inv, NoDuplicates, Enabled, Next;
      var e :| Enabled(c, states[i - 1], e) && states[i] == Next(c, states[i - 1], e);
      StepKeepsUnique(c, states[i - 1], e);
    }
  }

  // When the broker never forgets an identifier, each message has at most one
  // dead letter, however often it is delivered and published.
  lemma OneDeadLetterEach(c: Setting, states: seq<System>, i: nat, j: nat, k: nat)
    requires c.unboundedWindow && Run(c, states) && i < |states|
    requires j < |states[i].records| && k < |states[i].records| && states[i].records[j].source == states[i].records[k].source
    ensures j == k
  {
    EveryStateUnique(c, states, i);
  }

  // The states after each of these events, which can all happen in turn.
  ghost predicate Follow(c: Setting, s: System, events: seq<Event>, states: seq<System>) {
    && |states| == |events| + 1 && states[0] == s
    && (forall i :: 0 <= i < |events| ==> Enabled(c, states[i], events[i]) && states[i + 1] == Next(c, states[i], events[i]))
  }

  function Handling(d: DeliveryId, meta: Meta): seq<Event> {
    [Deliver(d, meta), Event.AttemptEnds(d, Succeeded), Event.Settle(d, Acknowledge), SendAck(d), ApplyAck(meta)]
  }

  // A message that cannot be converted needs no handler.
  function Rejecting(s: System, d: DeliveryId, meta: Meta): seq<Event> {
    if meta in s.malformed then [Deliver(d, meta)] else [Deliver(d, meta), Event.AttemptEnds(d, FailedForGood), Event.Settle(d, DeadLetter)]
  }

  function Quarantining(d: DeliveryId, meta: Meta): seq<Event> {
    [SendPublish(d), StorePublish(Publish(d, meta)), ReceiveConfirmation(Publish(d, meta)), ApplyAck(meta)]
  }

  lemma DeliverAndEnd(c: Setting, s: System, meta: Meta, d: DeliveryId, ending: Ending)
    requires c.bounds.retry.maxAttempts >= 1 && meta in s.appended && meta !in s.acked && meta !in s.malformed
    requires d !in s.workers && d !in s.tasks
    ensures Enabled(c, s, Deliver(d, meta))
    ensures
      var t := Next(c, s, Deliver(d, meta));
      && Enabled(c, t, Event.AttemptEnds(d, ending))
      && Next(c, t, Event.AttemptEnds(d, ending))
         == s.(workers := s.workers[d := Worker(meta, [ending])],
               handled := if ending.Succeeded? then s.handled + {meta} else s.handled)
  {
    var none: seq<Ending> := [];
    assert none + [ending] == [ending];
    assert s.workers[d := Worker(meta, [])][d := Worker(meta, [ending])] == s.workers[d := Worker(meta, [ending])];
    hide Justified, AfterSettle, AfterStore;
  }

  lemma SettleOnce(c: Setting, s: System, d: DeliveryId, k: Settlement)
    requires c.bounds.retry.maxAttempts >= 1 && d in s.workers && d !in s.tasks
    requires s.workers[d].endings == [if k.Acknowledge? then Succeeded else FailedForGood]
    ensures Enabled(c, s, Event.Settle(d, k))
    ensures
      var t := Next(c, s, Event.Settle(d, k));
      && t.tasks == s.tasks[d := if k.Acknowledge? then Acknowledging(s.workers[d].meta, false) else Publishing(s.workers[d].meta, false)]
      && t.handled == s.handled
  {
    hide AfterDeliver, AfterAttempt, AfterStore;
  }

  lemma SendAndApply(c: Setting, s: System, d: DeliveryId)
    requires d in s.tasks && s.tasks[d].Acknowledging? && !s.tasks[d].sent
    ensures Enabled(c, s, SendAck(d))
    ensures
      var t := Next(c, s, SendAck(d));
      && Enabled(c, t, ApplyAck(s.tasks[d].meta))
      && var u := Next(c, t, ApplyAck(s.tasks[d].meta));
         s.tasks[d].meta in u.acked && u.handled == s.handled
  {
    hide AfterDeliver, AfterAttempt, AfterSettle, AfterStore;
  }

  // At any time a message that is not yet acknowledged can be delivered again,
  // handled and acknowledged.
  lemma CanBeHandled(c: Setting, states: seq<System>, i: nat, meta: Meta, d: DeliveryId) returns (next: seq<System>)
    requires Run(c, states) && i < |states| && c.bounds.retry.maxAttempts >= 1
    requires meta in states[i].appended && meta !in states[i].acked && meta !in states[i].malformed
    requires d !in states[i].workers && d !in states[i].tasks
    ensures Follow(c, states[i], Handling(d, meta), next)
    ensures meta in next[5].handled && meta in next[5].acked
  {
    hide Run, Enabled, Next;
    var s := states[i];
    DeliverAndEnd(c, s, meta, d, Succeeded);
    var s1 := Next(c, s, Deliver(d, meta));
    var s2 := Next(c, s1, Event.AttemptEnds(d, Succeeded));
    SettleOnce(c, s2, d, Acknowledge);
    var s3 := Next(c, s2, Event.Settle(d, Acknowledge));
    SendAndApply(c, s3, d);
    var s4 := Next(c, s3, SendAck(d));
    next := [s, s1, s2, s3, s4, Next(c, s4, ApplyAck(meta))];
  }

  // Or it can be given up: a worker that fails for good, or the adapter that
  // cannot convert it, leads to a task that publishes its dead letter.
  lemma CanBeRejected(c: Setting, states: seq<System>, i: nat, meta: Meta, d: DeliveryId) returns (next: seq<System>)
    requires Run(c, states) && i < |states| && c.bounds.retry.maxAttempts >= 1
    requires meta in states[i].appended && meta !in states[i].acked
    requires d !in states[i].workers && d !in states[i].tasks
    ensures Follow(c, states[i], Rejecting(states[i], d, meta), next)
    ensures
      var t := next[|next| - 1];
      d in t.tasks && t.tasks[d] == Publishing(meta, false)
  {
    hide Run, Next, Enabled;
    var s := states[i];
    DeliverIsEnabled(c, s, meta, d);
    var s1 := Next(c, s, Deliver(d, meta));
    if meta in s.malformed {
      DeliverMalformed(c, s, meta, d);
      next := [s, s1];
    } else {
      DeliverAndEnd(c, s, meta, d, FailedForGood);
      var s2 := Next(c, s1, Event.AttemptEnds(d, FailedForGood));
      SettleOnce(c, s2, d, DeadLetter);
      next := [s, s1, s2, Next(c, s2, Event.Settle(d, DeadLetter))];
    }
  }

  lemma DeliverIsEnabled(c: Setting, s: System, meta: Meta, d: DeliveryId)
    requires meta in s.appended && meta !in s.acked && d !in s.workers && d !in s.tasks
    ensures Enabled(c, s, Deliver(d, meta))
  {
  }

  lemma DeliverMalformed(c: Setting, s: System, meta: Meta, d: DeliveryId)
    requires meta in s.appended && meta !in s.acked && meta in s.malformed && d !in s.workers && d !in s.tasks
    ensures Enabled(c, s, Deliver(d, meta))
    ensures Next(c, s, Deliver(d, meta)).tasks == s.tasks[d := Publishing(meta, false)]
  {
  }

  // The publication reaches the broker.
  lemma PublishAndStore(c: Setting, s: System, d: DeliveryId, meta: Meta)
    requires Inv(s) && meta.Complete() && d in s.tasks && s.tasks[d] == Publishing(meta, false)
    ensures Enabled(c, s, SendPublish(d))
    ensures
      var t := Next(c, s, SendPublish(d));
      && Enabled(c, t, StorePublish(Publish(d, meta)))
      && var u := Next(c, t, StorePublish(Publish(d, meta)));
         && d in u.tasks && u.tasks[d] == Publishing(meta, true) && Publish(d, meta) in u.confirmations
         && Stored(u, meta)
  {
    hide AcksJustified, Stored, AfterDeliver, AfterAttempt, AfterSettle, DeadLetterId;
    var t := Next(c, s, SendPublish(d));
    ConfirmedIsStored(s, Publish(d, meta));
    SameRecordsStored(AfterStore(s, Publish(d, meta)), AfterStore(t, Publish(d, meta)), meta);
  }

  lemma SameRecordsStored(s: System, t: System, meta: Meta)
    requires s.records == t.records
    ensures Stored(s, meta) == Stored(t, meta)
  {
  }

  lemma ConfirmAndApply(c: Setting, s: System, d: DeliveryId, meta: Meta)
    requires d in s.tasks && s.tasks[d] == Publishing(meta, true) && Publish(d, meta) in s.confirmations
    ensures Enabled(c, s, ReceiveConfirmation(Publish(d, meta)))
    ensures
      var t := Next(c, s, ReceiveConfirmation(Publish(d, meta)));
      && Enabled(c, t, ApplyAck(meta))
      && var u := Next(c, t, ApplyAck(meta));
         meta in u.acked && u.records == s.records
  {
    hide AfterDeliver, AfterAttempt, AfterSettle, AfterStore;
  }

  // Such a task can store the dead letter and acknowledge the message.
  lemma CanBeQuarantined(c: Setting, states: seq<System>, i: nat, meta: Meta, d: DeliveryId) returns (next: seq<System>)
    requires Run(c, states) && i < |states| && meta.Complete()
    requires d in states[i].tasks && states[i].tasks[d] == Publishing(meta, false)
    ensures Follow(c, states[i], Quarantining(d, meta), next)
    ensures Stored(next[4], meta) && meta in next[4].acked
  {
    EveryState(c, states, i);
    hide Run, Inv, Stored, Next, Enabled;
    var s := states[i];
    PublishAndStore(c, s, d, meta);
    var s1 := Next(c, s, SendPublish(d));
    var s2 := Next(c, s1, StorePublish(Publish(d, meta)));
    ConfirmAndApply(c, s2, d, meta);
    var s3 := Next(c, s2, ReceiveConfirmation(Publish(d, meta)));
    var s4 := Next(c, s3, ApplyAck(meta));
    SameRecordsStored(s2, s4, meta);
    next := [s, s1, s2, s3, s4];
  }
}
