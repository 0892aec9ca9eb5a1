// Browser sessions as the Redis store keeps them
// (Framework/sharedstate/browser_session_store.go): a payload, its metadata and
// a public-identifier mapping per session, a global and a per-subject index,
// and what each Lua script, taken as one atomic step, does to them.

module BrowserScripts {
  import opened Common
  import opened Hashing
  import opened RedisKeys
  import opened BrowserTypes
  import M = BrowserMemory

  // A member of an index: a 64-digit hash or some other string.
  datatype Member = Hex64(token: Digest) | Other(raw: Text)

  // A metadata or mapping string: two 64-digit hashes with a colon, or not.
  datatype Link = Pair(owner: Digest, other: Digest) | Garbled(raw: Text)

  // A payload string: the JSON form of a record, or no such form.
  datatype Payload = Json(record: Record) | Malformed(raw: Text)

  type Index = map<Member, int>

  datatype Store = Store(
    payload: map<Digest, Expiring<Payload>>,
    metadata: map<Digest, Expiring<Link>>,
    id: map<Digest, Expiring<Link>>,
    global: Index,
    subject: map<Digest, Index>)

  const Empty := Store(map[], map[], map[], map[], map[])

  function SubjectIndex(s: Store, owner: Digest): Index {
    if owner in s.subject then s.subject[owner] else map[]
  }

  // ZREMRANGEBYSCORE up to now.
  function Unexpired(index: Index, now: int): Index {
    map r | r in index && index[r] > now :: index[r]
  }

  function DropExpired(s: Store, now: int, owner: Digest): Store {
    DropExpiredOf(s.(global := Unexpired(s.global, now)), now, owner)
  }

  function DropExpiredOf(s: Store, now: int, owner: Digest): Store {
    if owner in s.subject then s.(subject := s.subject[owner := Unexpired(s.subject[owner], now)]) else s
  }

  // Some key or index entry of the new session is taken.
  predicate Taken(s: Store, now: int, token: Digest, owner: Digest, id: Digest) {
    || Get(s.payload, token, now).Some? || Get(s.id, id, now).Some? || Get(s.metadata, token, now).Some?
    || Hex64(token) in s.global || Hex64(token) in SubjectIndex(s, owner)
  }

  function Insert(s: Store, expires: int, payload: Payload, token: Digest, owner: Digest, id: Digest): Store {
    Store(s.payload[token := Expiring(payload, expires)],
          s.metadata[token := Expiring(Pair(owner, id), expires)],
          s.id[id := Expiring(Pair(owner, token), expires)],
          s.global[Hex64(token) := expires],
          s.subject[owner := SubjectIndex(s, owner)[Hex64(token) := expires]])
  }

  predicate CreateArguments(now: int, expires: int, maximum: int, subjectMaximum: int) {
    1 <= now < expires && expires - now <= MAX_TTL && 1 <= subjectMaximum <= maximum <= MAX_INVENTORY
  }

  function Create(s: Store, now: int, expires: int, maximum: int, subjectMaximum: int, payload: Payload,
                  token: Digest, owner: Digest, id: Digest): (Store, int)
  {
    if !CreateArguments(now, expires, maximum, subjectMaximum) then (s, 5)
    else if |s.global| > MAX_INVENTORY || |SubjectIndex(s, owner)| > MAX_INVENTORY then (s, 5)
    else
      var p := DropExpired(s, now, owner);
      if Taken(p, now, token, owner, id) then (p, 2)
      else if |p.global| >= maximum then (p, 1)
      else if |SubjectIndex(p, owner)| >= subjectMaximum then (p, 4)
      else (Insert(p, expires, payload, token, owner, id), 0)
  }

  // What the read scripts hand back of one session.
  datatype Snapshot = Snapshot(payload: Payload, token: Digest, owner: Digest, id: Digest,
                               globalScore: int, subjectScore: int)

  // Payload, both links and both scores of a session, when all are in place.
  function Look(s: Store, now: int, token: Digest, owner: Digest, id: Digest): Option<Snapshot> {
    if Get(s.payload, token, now).Some?
       && Get(s.metadata, token, now) == Some(Pair(owner, id)) && Get(s.id, id, now) == Some(Pair(owner, token))
       && Hex64(token) in s.global && Hex64(token) in SubjectIndex(s, owner)
    then
      Some(Snapshot(s.payload[token].value, token, owner, id,
                    s.global[Hex64(token)], SubjectIndex(s, owner)[Hex64(token)]))
    else None
  }

  function Read(s: Store, now: int, token: Digest): Option<Snapshot> {
    var link: Option<Link> := Get(s.metadata, token, now);
    match link
    case Some(Pair(owner, id)) => Look(s, now, token, owner, id)
    case _ => None
  }

  function ReadForUpdate(s: Store, now: int, owner: Digest, id: Digest): Option<Snapshot> {
    if now < 1 then None
    else
      var link: Option<Link> := Get(s.id, id, now);
      match link
      case Some(Pair(o, token)) => if o == owner then Look(s, now, token, owner, id) else None
      case _ => None
  }

  predicate Decodes(r: Record) {
    1 <= r.created < r.expires && !r.device.Unacceptable? && r.subject == Sha256(r.claims.subject)
  }

  // The checks on a snapshot: a well-formed record that agrees with its links
  // and with both scores.
  function Decode(snap: Snapshot): Option<Record> {
    match snap.payload
    case Malformed(_) => None
    case Json(r) =>
      if Decodes(r) && r.expires >= 1 && snap.globalScore == snap.subjectScore == r.expires
         && snap.owner == r.subject && snap.id == Sha256(r.sessionId)
      then Some(r) else None
  }

  // All five objects of one session go.
  function Remove(s: Store, token: Digest, owner: Digest, id: Digest): Store {
    Store(s.payload - {token}, s.metadata - {token}, s.id - {id}, s.global - {Hex64(token)},
          if owner in s.subject then s.subject[owner := s.subject[owner] - {Hex64(token)}] else s.subject)
  }

  function Delete(s: Store, now: int, token: Digest): (Store, int) {
    var link: Option<Link> := Get(s.metadata, token, now);
    match link
    case Some(Pair(owner, id)) =>
      if Get(s.id, id, now) != Some(Pair(owner, token)) then (s, 0)
      else (Remove(s, token, owner, id), if Get(s.payload, token, now).Some? then 1 else 0)
    case _ => (s, 0)
  }

  function DeleteByID(s: Store, now: int, owner: Digest, id: Digest): (Store, int) {
    var link: Option<Link> := Get(s.id, id, now);
    match link
    case Some(Pair(o, token)) =>
      if o != owner || Get(s.metadata, token, now) != Some(Pair(owner, id)) then (s, 0)
      else (Remove(s, token, owner, id), if Get(s.payload, token, now).Some? then 1 else 0)
    case _ => (s, 0)
  }

  // The compare-and-swap of a rename. The clock of Redis has moved on to now
  // since the caller read its own clock at readAt.
  function Swap(s: Store, now: int, readAt: int, snap: Snapshot, updated: Payload): (Store, int) {
    if readAt < 1 || snap.globalScore < 1 || snap.globalScore != snap.subjectScore || snap.globalScore <= readAt then (s, 0)
    else if Look(s, now, snap.token, snap.owner, snap.id) != Some(snap) then (s, 0)
    else (s.(payload := s.payload[snap.token := Expiring(updated, s.payload[snap.token].until)]), 1)
  }

  // An index entry that subject-wide deletion accepts, and its identifier.
  function EntryId(s: Store, now: int, owner: Digest, r: Member): Option<Digest> {
    match r
    case Other(_) => None
    case Hex64(token) =>
      var link: Option<Link> := Get(s.metadata, token, now);
      match link
      case Some(Pair(o, id)) =>
        if o == owner && Get(s.id, id, now) == Some(Pair(owner, token)) then Some(id) else None
      case _ => None
  }

  function Tokens(members: set<Member>): set<Digest> {
    set r | r in members && r.Hex64? :: r.token
  }

  function EntryIds(s: Store, now: int, owner: Digest, members: set<Member>): set<Digest> {
    set r | r in members && EntryId(s, now, owner, r).Some? :: EntryId(s, now, owner, r).value
  }

  // All objects of the given sessions but their entries in the subject index.
  function RemoveAll(s: Store, members: set<Member>, ids: set<Digest>): Store {
    Store(s.payload - Tokens(members), s.metadata - Tokens(members), s.id - ids, s.global - members, s.subject)
  }

  function DeleteForSubject(s: Store, now: int, owner: Digest, maximum: int): (Store, int) {
    if maximum < 1 || |SubjectIndex(s, owner)| > maximum then (s, -1)
    else
      var p := DropExpiredOf(s, now, owner);
      var members := SubjectIndex(p, owner).Keys;
      if exists r :: r in members && EntryId(s, now, owner, r).None? then (p, -1)
      else
        var n := RemoveAll(p, members, EntryIds(s, now, owner, members));
        (n.(subject := n.subject - {owner}), |members|)
  }

  // ZRANGE up to a limit: the members with the lowest scores. Ties are broken
  // by a string order that is not modelled.
  ghost predicate Lowest(index: Index, limit: nat, picked: set<Member>) {
    && picked <= index.Keys
    && |picked| == Min(limit, |index|)
    && (forall r, q :: r in picked && q in index && q !in picked ==> index[r] <= index[q])
  }

  // A listing entry: the session must have all five objects.
  function Entry(s: Store, now: int, owner: Digest, r: Member): Option<Snapshot> {
    match r
    case Other(_) => None
    case Hex64(token) =>
      var link: Option<Link> := Get(s.metadata, token, now);
      match link
      case Some(Pair(o, id)) => if o == owner then Look(s, now, token, owner, id) else None
      case _ => None
  }

  // The listing script and the decoding of its reply.
  predicate Listable(s: Store, now: int, owner: Digest, r: Member) {
    && Entry(s, now, owner, r).Some?
    && Decode(Entry(s, now, owner, r).value).Some?
    && Decode(Entry(s, now, owner, r).value).value.expires > now
  }

  function ListedInfo(s: Store, now: int, owner: Digest, r: Member): Info
    requires Listable(s, now, owner, r)
  {
    Decode(Entry(s, now, owner, r).value).value.Public()
  }

  function ListInventory(s: Store, now: int, owner: Digest, limit: int, picked: set<Member>): (Store, Option<set<Info>>) {
    if now < 1 || limit < 1 || limit > MAX_INVENTORY || |SubjectIndex(s, owner)| > MAX_INVENTORY then (s, None)
    else
      var p := DropExpiredOf(s, now, owner);
      (p, if forall r :: r in picked ==> Listable(p, now, owner, r)
          then Some(set r | r in picked :: ListedInfo(p, now, owner, r)) else None)
  }

  // A rename between its read and its compare-and-swap.
  datatype Pending = Pending(readAt: int, snap: Snapshot, record: Record, device: DeviceName)

  function BeginRename(s: Store, now: int, owner: Digest, id: Digest, device: DeviceName): Option<Pending> {
    if now < 1 || device.Unacceptable? then None
    else
      match ReadForUpdate(s, now, owner, id)
      case None => None
      case Some(snap) =>
        match Decode(snap)
        case None => None
        case Some(r) => if r.expires <= now || r.created > now then None else Some(Pending(now, snap, r, device))
  }

  function FinishRename(s: Store, now: int, p: Pending): (Store, int) {
    Swap(s, now, p.readAt, p.snap, Json(p.record.(device := p.device)))
  }

  // What BrowserSessionManager answers when this store is configured: the Go
  // wrapper around each script, and the manager around the wrapper.

  function StartOn(c: Config, s: Store, now: int, claims: Claims, token: Digest, csrf: Digest,
                   sessionId: Text): (Store, Outcome)
  {
    if !claims.Valid(now) then (s, Failed(Invalid))
    else
      var r := M.NewRecord(c, now, claims, csrf, sessionId);
      if r.expires <= now then (s, Failed(Expired))
      else
        var (n, code) := Create(s, now, r.expires, c.maxSessions, c.maxPerSubject, Json(r), token, r.subject, Sha256(sessionId));
        (n, if code == 0 then Started(r.expires) else if code == 1 then Failed(Limit)
            else if code == 4 then Failed(SubjectLimit) else Failed(Invalid))
  }

  function VerifyOn(s: Store, now: int, token: Digest, csrf: Option<Digest>): (Store, Outcome) {
    match Read(s, now, token)
    case None => (s, Failed(Invalid))
    case Some(snap) =>
      match Decode(snap)
      case None => (s, Failed(Invalid))
      case Some(r) =>
        if r.expires <= now then (Delete(s, now, token).0, Failed(Expired)) else (s, M.Checked(r, now, csrf))
  }

  function ListOn(c: Config, s: Store, now: int, owner: Digest, picked: set<Member>): (Store, Outcome) {
    var (n, items) := ListInventory(s, now, owner, c.maxPerSubject, picked);
    (n, if items.Some? && forall item :: item in items.value ==> item.created <= now then Listed(items.value)
        else Failed(Invalid))
  }

  function DoneIf(deleted: int): Outcome {
    if deleted == 1 then Done else Failed(Invalid)
  }

  function RevokeAllOn(s: Store, now: int, owner: Digest): (Store, Outcome) {
    var (n, count) := DeleteForSubject(s, now, owner, MAX_INVENTORY);
    (n, if 0 <= count <= MAX_INVENTORY then Count(count) else Failed(Invalid))
  }

  // A rename whose read and compare-and-swap happen with nothing in between.
  function RenameOn(s: Store, now: int, owner: Digest, id: Digest, device: DeviceName): (Store, Outcome) {
    if device.Unacceptable? then (s, Failed(DeviceNameInvalid))
    else
      match BeginRename(s, now, owner, id, device)
      case None => (s, Failed(Invalid))
      case Some(p) => (FinishRename(s, now, p).0, DoneIf(FinishRename(s, now, p).1))
  }

  // picked is what ZRANGE hands to a listing.
  function Step(c: Config, s: Store, now: int, request: Request, picked: set<Member>): (Store, Outcome) {
    match request
    case Start(claims, token, csrf, sessionId) => StartOn(c, s, now, claims, token, csrf, sessionId)
    case Verify(token, csrf) => VerifyOn(s, now, token, csrf)
    case List(subject) => ListOn(c, s, now, Sha256(subject), picked)
    case Revoke(subject, id) => (DeleteByID(s, now, Sha256(subject), id).0, DoneIf(DeleteByID(s, now, Sha256(subject), id).1))
    case RevokeAll(subject) => RevokeAllOn(s, now, Sha256(subject))
    case Rename(subject, id, device) => RenameOn(s, now, Sha256(subject), id, device)
    case End(token) => (Delete(s, now, token).0, DoneIf(Delete(s, now, token).1))
  }

  // From any store, even a corrupted one: two entries that subject-wide deletion
  // accepts never share an identifier.
  lemma EntryIdsDistinct(s: Store, now: int, owner: Digest, a: Member, b: Member)
    requires EntryId(s, now, owner, a).Some? && EntryId(s, now, owner, a) == EntryId(s, now, owner, b)
    ensures a == b
  {
  }

  lemma {:induction false} EntryIdsSize(s: Store, now: int, owner: Digest, members: set<Member>)
    requires forall r :: r in members ==> EntryId(s, now, owner, r).Some?
    ensures |EntryIds(s, now, owner, members)| == |members| == |Tokens(members)|
  {
    if members == {} {
      assert EntryIds(s, now, owner, members) == {} && Tokens(members) == {};
    } else {
      var r :| r in members;
      var rest := members - {r};
      EntryIdsSize(s, now, owner, rest);
      hide EntryId;
      forall q | q in rest ensures EntryId(s, now, owner, q) != EntryId(s, now, owner, r) {
        if EntryId(s, now, owner, q) == EntryId(s, now, owner, r) {
          EntryIdsDistinct(s, now, owner, q, r);
        }
      }
      assert r.Hex64? by { IsHex(s, now, owner, r); }
      assert EntryIds(s, now, owner, members) == EntryIds(s, now, owner, rest) + {EntryId(s, now, owner, r).value};
      assert Tokens(members) == Tokens(rest) + {r.token};
    }
  }

  lemma IsHex(s: Store, now: int, owner: Digest, r: Member)
    requires EntryId(s, now, owner, r).Some?
    ensures r.Hex64?
  {
  }

  // Metadata and identifier mapping of a session point at each other.
  predicate OwnsBoth(s: Store, now: int, owner: Digest, token: Digest, id: Digest) {
    Get(s.metadata, token, now) == Some(Pair(owner, id)) && Get(s.id, id, now) == Some(Pair(owner, token))
  }

  lemma EntryIsPair(s: Store, now: int, owner: Digest, r: Member)
    requires EntryId(s, now, owner, r).Some?
    ensures r.Hex64? && OwnsBoth(s, now, owner, r.token, EntryId(s, now, owner, r).value)
  {
  }

  // Nothing but expired entries of one subject index is gone.
  ghost predicate OnlyExpiredGone(s: Store, t: Store, now: int, owner: Digest) {
    && t == s.(subject := t.subject)
    && (forall o :: o != owner ==> SubjectIndex(t, o) == SubjectIndex(s, o))
    && (SubjectIndex(t, owner) == SubjectIndex(s, owner) || SubjectIndex(t, owner) == Unexpired(SubjectIndex(s, owner), now))
  }

  // Exactly the unexpired sessions of one subject index are gone, each of which
  // owned both of its links.
  ghost predicate AllGone(s: Store, t: Store, now: int, owner: Digest, tokens: set<Digest>, ids: set<Digest>) {
    && (forall r :: r in Unexpired(SubjectIndex(s, owner), now) <==> r.Hex64? && r.token in tokens)
    && (forall a :: a in tokens ==> exists i :: i in ids && OwnsBoth(s, now, owner, a, i))
    && (forall i :: i in ids ==> exists a :: a in tokens && OwnsBoth(s, now, owner, a, i))
    && t.payload == s.payload - tokens && t.metadata == s.metadata - tokens && t.id == s.id - ids
    && t.global == s.global - Unexpired(SubjectIndex(s, owner), now).Keys
    && t.subject == s.subject - {owner}
  }

  // From any store: a refused subject-wide deletion loses expired index entries
  // at most; an accepted one deletes as many sessions as it reports, each with
  // its own identifier, and leaves everything else in place.
  lemma DeleteForSubjectAllOrNothing(s: Store, now: int, owner: Digest, maximum: int)
    ensures
      var (t, count) := DeleteForSubject(s, now, owner, maximum);
      if count < 0 then OnlyExpiredGone(s, t, now, owner)
      else exists tokens, ids :: AllGone(s, t, now, owner, tokens, ids) && |tokens| == |ids| == count
  {
    hide EntryId, OnlyExpiredGone, AllGone, RemoveAll;
    var p := DropExpiredOf(s, now, owner);
    var members := SubjectIndex(p, owner).Keys;
    DroppedIndex(s, now, owner);
    if 1 <= maximum && |SubjectIndex(s, owner)| <= maximum && forall r :: r in members ==> EntryId(s, now, owner, r).Some? {
      EntryIdsSize(s, now, owner, members);
      AcceptedDeletesAll(s, now, owner, members);
      assert AllGone(s, DeleteForSubject(s, now, owner, maximum).0, now, owner, Tokens(members), EntryIds(s, now, owner, members));
    }
  }

  lemma DroppedIndex(s: Store, now: int, owner: Digest)
    ensures
      var p := DropExpiredOf(s, now, owner);
      && SubjectIndex(p, owner) == Unexpired(SubjectIndex(s, owner), now)
      && p.subject - {owner} == s.subject - {owner} && p == s.(subject := p.subject)
      && OnlyExpiredGone(s, p, now, owner) && OnlyExpiredGone(s, s, now, owner)
  {
  }

  lemma AcceptedDeletesAll(s: Store, now: int, owner: Digest, members: set<Member>)
    requires members == SubjectIndex(DropExpiredOf(s, now, owner), owner).Keys
    requires forall r :: r in members ==> EntryId(s, now, owner, r).Some?
    ensures
      var n := RemoveAll(DropExpiredOf(s, now, owner), members, EntryIds(s, now, owner, members));
      AllGone(s, n.(subject := n.subject - {owner}), now, owner, Tokens(members), EntryIds(s, now, owner, members))
  {
    hide EntryId, OwnsBoth, OnlyExpiredGone, DropExpiredOf, SubjectIndex;
    DroppedIndex(s, now, owner);
    forall r | r in members ensures r.Hex64? && OwnsBoth(s, now, owner, r.token, EntryId(s, now, owner, r).value) {
      EntryIsPair(s, now, owner, r);
    }
  }
}
