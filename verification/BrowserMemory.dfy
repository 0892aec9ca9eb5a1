// Browser sessions as the in-memory BrowserSessionManager keeps them
// (Framework/auth/browser_session.go): the values it stores and the effect of
// each operation on them.

module BrowserTypes {
  import opened Common
  import opened Hashing
  import opened RedisKeys

  const MAX_INVENTORY := 10000
  const MAX_TTL := 24 * 60 * 60 * 1000
  const CLOCK_LEEWAY := 5 * 1000

  // A device name, sorted by the validator that callers and stores apply to it.
  datatype DeviceName = Unnamed | Named(name: Text) | Unacceptable(raw: Text)

  // Every claim that no operation looks into is part of the details.
  datatype Details = Complete(details: Text) | Incomplete(raw: Text)

  datatype Claims = Claims(subject: Text, issued: int, expires: int, details: Details) {
    predicate Valid(now: int) {
      details.Complete? && expires > now && expires > issued && issued <= now + CLOCK_LEEWAY
    }
  }

  datatype Record = Record(sessionId: Text, subject: Digest, claims: Claims, csrf: Digest, device: DeviceName,
                           created: int, expires: int)
  {
    function Public(): Info {
      Info(sessionId, created, expires, device)
    }

    predicate Valid(now: int) {
      && subject == Sha256(claims.subject) && created <= now && created < expires && now < expires
      && !device.Unacceptable? && claims.Valid(now) && expires <= claims.expires
    }
  }

  datatype Info = Info(sessionId: Text, created: int, expires: int, device: DeviceName)

  // The order of listings: newest first, then by public identifier. The order of
  // strings is a parameter.
  predicate Before(a: Info, b: Info, less: (Text, Text) -> bool) {
    a.created > b.created || (a.created == b.created && less(a.sessionId, b.sessionId))
  }

  ghost predicate StrictOrder(less: (Text, Text) -> bool) {
    && (forall a :: !less(a, a))
    && (forall a, b, c :: less(a, b) && less(b, c) ==> less(a, c))
  }

  ghost predicate Ordered(items: seq<Info>, less: (Text, Text) -> bool) {
    forall i, j :: 0 <= i < j < |items| ==> !Before(items[j], items[i], less)
  }

  datatype Failure = Invalid | Expired | Limit | SubjectLimit | DeviceNameInvalid

  datatype Outcome =
    | Started(startExpires: int)
    | Verified(verified: Claims)
    | Listed(items: set<Info>)
    | Done
    | Count(count: int)
    | Failed(failure: Failure)

  datatype Config = Config(ttl: int, maxSessions: int, maxPerSubject: int) {
    predicate Valid() {
      0 < ttl <= 86400000 && 0 < maxPerSubject <= maxSessions <= 10000
    }
  }

  // One call on a manager. The random source draws the token, the CSRF secret
  // and the public session identifier, so they are part of the call.
  datatype Request =
    | Start(claims: Claims, token: Digest, csrf: Digest, sessionId: Text)
    | Verify(presented: Digest, csrfSent: Option<Digest>)
    | List(owner: Text)
    | Revoke(revoker: Text, id: Digest)
    | RevokeAll(leaver: Text)
    | Rename(user: Text, named: Digest, device: DeviceName)
    | End(ended: Digest)
}

module BrowserMemory {
  import opened Common
  import opened Hashing
  import opened RedisKeys
  import opened BrowserTypes

  type Sessions = map<Digest, Record>

  function Live(m: Sessions, now: int): Sessions {
    map t | t in m && m[t].expires > now :: m[t]
  }

  function OfSubject(m: Sessions, subject: Digest): set<Digest> {
    set t | t in m && m[t].subject == subject
  }

  // The sessions a public identifier names for a subject.
  function Matching(m: Sessions, subject: Digest, id: Digest): set<Digest> {
    set t | t in m && m[t].subject == subject && Sha256(m[t].sessionId) == id
  }

  // Public identifiers come from the random source, so they are all different.
  ghost predicate DistinctIds(m: Sessions) {
    forall t, u :: t in m && u in m && m[t].sessionId == m[u].sessionId ==> t == u
  }

  function NewRecord(c: Config, now: int, claims: Claims, csrf: Digest, sessionId: Text): Record {
    Record(sessionId, Sha256(claims.subject), claims, csrf, Unnamed, now, Min(now + c.ttl, claims.expires))
  }

  function StartStep(c: Config, m: Sessions, now: int, claims: Claims, token: Digest, csrf: Digest,
                     sessionId: Text): (Sessions, Outcome)
  {
    if !claims.Valid(now) then (m, Failed(Invalid))
    else
      var r := NewRecord(c, now, claims, csrf, sessionId);
      var n := Live(m, now);
      if r.expires <= now then (m, Failed(Expired))
      else if |n| >= c.maxSessions then (n, Failed(Limit))
      else if |OfSubject(n, r.subject)| >= c.maxPerSubject then (n, Failed(SubjectLimit))
      else if token in n then (n, Failed(Invalid))
      else (n[token := r], Started(r.expires))
  }

  // What Verify makes of the record it has read.
  function Checked(r: Record, now: int, csrf: Option<Digest>): Outcome {
    if !r.Valid(now) then Failed(Expired)
    else if csrf.Some? && csrf.value != r.csrf then Failed(Invalid)
    else Verified(r.claims)
  }

  function VerifyStep(m: Sessions, now: int, token: Digest, csrf: Option<Digest>): (Sessions, Outcome) {
    if token !in m then (m, Failed(Invalid))
    else if m[token].expires <= now then (m - {token}, Failed(Expired))
    else (m, Checked(m[token], now, csrf))
  }

  function Infos(m: Sessions, tokens: set<Digest>): set<Info>
    requires tokens <= m.Keys
  {
    set t | t in tokens :: m[t].Public()
  }

  function ListStep(m: Sessions, now: int, subject: Text): (Sessions, Outcome) {
    var n := Live(m, now);
    (n, Listed(Infos(n, OfSubject(n, Sha256(subject)))))
  }

  function RevokeStep(m: Sessions, now: int, subject: Text, id: Digest): (Sessions, Outcome) {
    var n := Live(m, now);
    var found := Matching(n, Sha256(subject), id);
    (n - found, if found == {} then Failed(Invalid) else Done)
  }

  function RevokeAllStep(m: Sessions, now: int, subject: Text): (Sessions, Outcome) {
    var n := Live(m, now);
    var found := OfSubject(n, Sha256(subject));
    (n - found, Count(|found|))
  }

  function Renamed(m: Sessions, tokens: set<Digest>, device: DeviceName): Sessions {
    map t | t in m :: if t in tokens then m[t].(device := device) else m[t]
  }

  function RenameStep(m: Sessions, now: int, subject: Text, id: Digest, device: DeviceName): (Sessions, Outcome) {
    if device.Unacceptable? then (m, Failed(DeviceNameInvalid))
    else
      var n := Live(m, now);
      var found := Matching(n, Sha256(subject), id);
      (Renamed(n, found, device), if found == {} then Failed(Invalid) else Done)
  }

  function EndStep(m: Sessions, token: Digest): (Sessions, Outcome) {
    if token in m then (m - {token}, Done) else (m, Failed(Invalid))
  }

  function Step(c: Config, m: Sessions, now: int, request: Request): (Sessions, Outcome) {
    match request
    case Start(claims, token, csrf, sessionId) => StartStep(c, m, now, claims, token, csrf, sessionId)
    case Verify(token, csrf) => VerifyStep(m, now, token, csrf)
    case List(subject) => ListStep(m, now, subject)
    case Revoke(subject, id) => RevokeStep(m, now, subject, id)
    case RevokeAll(subject) => RevokeAllStep(m, now, subject)
    case Rename(subject, id, device) => RenameStep(m, now, subject, id, device)
    case End(token) => EndStep(m, token)
  }

  lemma MatchIsUnique(m: Sessions, subject: Digest, id: Digest, t: Digest)
    requires DistinctIds(m) && t in Matching(m, subject, id)
    ensures Matching(m, subject, id) == {t}
  {
  }

  // Every call keeps public identifiers distinct and inserts nothing but the
  // session it starts.
  lemma StepKeepsIds(c: Config, m: Sessions, now: int, request: Request)
    requires DistinctIds(m)
    requires request.Start? ==> forall t :: t in m ==> m[t].sessionId != request.sessionId
    ensures DistinctIds(Step(c, m, now, request).0)
    ensures forall t :: t in Step(c, m, now, request).0 ==> t in m || (request.Start? && t == request.token)
  {
  }

  lemma RenamedNone(m: Sessions, device: DeviceName)
    ensures Renamed(m, {}, device) == m
  {
  }

  lemma RenamedOne(m: Sessions, t: Digest, device: DeviceName)
    requires t in m
    ensures Renamed(m, {t}, device) == m[t := m[t].(device := device)]
  {
  }
}
