// Refresh-session families as the Redis store keeps them
// (Framework/sharedstate/session_store.go): four kinds of keys plus two expiry
// indexes, and what each Lua script, taken as one atomic step, does to them.

module RefreshScripts {
  import opened Common
  import opened Hashing
  import opened RefreshTypes
  import opened RedisKeys

  // A Redis string, sorted by the validators the scripts apply to it. Number
  // stands for every string that reads as an integer.
  datatype Raw = Hex64(digest: Digest) | Hex32(id: FamilyId) | Number(value: int) | Other

  datatype FamilyHash = FamilyHash(userHash: Raw, absolute: Raw, expires: Raw, current: Raw, revoked: Raw, expired: Raw)

  datatype Store = Store(
    family: map<FamilyId, Expiring<FamilyHash>>,
    used: map<FamilyId, Expiring<set<Raw>>>,
    token: map<Digest, Expiring<Raw>>,
    global: map<FamilyId, int>,
    user: map<Digest, map<Raw, int>>)

  datatype RotateReply = Code(code: int) | Next(expires: int)

  const Empty := Store(map[], map[], map[], map[], map[])

  function Members(s: Store, id: FamilyId, now: int): set<Raw> {
    match Get(s.used, id, now)
    case None => {}
    case Some(members) => members
  }

  function UserIndex(s: Store, owner: Digest): map<Raw, int> {
    if owner in s.user then s.user[owner] else map[]
  }

  predicate Positive(r: Raw) {
    r.Number? && r.value >= 1
  }

  predicate Flag(r: Raw) {
    r == Number(0) || r == Number(1)
  }

  predicate WellFormed(f: FamilyHash) {
    && f.userHash.Hex64? && Positive(f.absolute) && Positive(f.expires) && f.expires.value <= f.absolute.value
    && f.current.Hex64? && Flag(f.revoked) && Flag(f.expired)
    && (f.expired == Number(1) ==> f.revoked == Number(1))
  }

  predicate MapsTo(s: Store, now: int, r: Raw, id: FamilyId) {
    r.Hex64? && Get(s.token, r.digest, now) == Some(Hex32(id))
  }

  predicate Indexed(s: Store, owner: Digest, id: FamilyId, absolute: int) {
    && id in s.global && s.global[id] == absolute
    && Hex32(id) in UserIndex(s, owner) && UserIndex(s, owner)[Hex32(id)] == absolute
  }

  // Everything that rotation and family revocation check before they look at
  // the state of the family.
  predicate Consistent(s: Store, now: int, id: FamilyId, f: FamilyHash, presented: Digest, maximum: int) {
    && WellFormed(f)
    && |Members(s, id, now)| <= maximum
    && (forall u :: u in Members(s, id, now) ==> u.Hex64? && u != f.current && MapsTo(s, now, u, id))
    && MapsTo(s, now, f.current, id)
    && (Hex64(presented) == f.current || Hex64(presented) in Members(s, id, now))
    && (f.absolute.value > now ==> Indexed(s, f.userHash.digest, id, f.absolute.value))
  }

  function HashSet(s: Store, id: FamilyId, f: FamilyHash): Store
    requires id in s.family
  {
    s.(family := s.family[id := Expiring(f, s.family[id].until)])
  }

  function DropExpired(s: Store, now: int): Store {
    s.(global := map i | i in s.global && s.global[i] > now :: s.global[i])
  }

  // The five writes of a successful creation.
  function Insert(s: Store, absolute: int, expires: int, owner: Digest, id: FamilyId, token: Digest): Store {
    Store(s.family[id := Expiring(FamilyHash(Hex64(owner), Number(absolute), Number(expires), Hex64(token),
                                             Number(0), Number(0)), absolute)],
          s.used,
          s.token[token := Expiring(Hex32(id), absolute)],
          s.global[id := absolute],
          s.user[owner := UserIndex(s, owner)[Hex32(id) := absolute]])
  }

  function Create(s: Store, now: int, absolute: int, expires: int, maxFamilies: int,
                  owner: Digest, id: FamilyId, token: Digest): (Store, int)
  {
    var p := DropExpired(s, now);
    if |p.global| >= maxFamilies then (p, 5)
    else if Get(s.family, id, now).Some? then (p, 6)
    else if absolute - now < 1 then (p, 2)
    else (Insert(p, absolute, expires, owner, id, token), 0)
  }

  // The rotation itself, once every check has passed.
  function Advance(s: Store, now: int, id: FamilyId, f: FamilyHash, token: Digest, next: Digest, expires: int): Store
    requires id in s.family && f.absolute.Number?
  {
    var until := f.absolute.value;
    Store(s.family[id := Expiring(f.(current := Hex64(next), expires := Number(expires)), s.family[id].until)],
          s.used[id := Expiring(Members(s, id, now) + {Hex64(token)}, until)],
          s.token[next := Expiring(Hex32(id), until)],
          s.global,
          s.user)
  }

  function RotateLive(s: Store, now: int, id: FamilyId, f: FamilyHash, token: Digest, next: Digest,
                      refreshTTL: int, maximum: int): (Store, RotateReply)
    requires id in s.family && WellFormed(f)
  {
    if f.absolute.value <= now then (s, Code(2))
    else if f.revoked == Number(1) then (s, Code(if f.current != Hex64(token) then 4 else 3))
    else if f.current != Hex64(token) then (HashSet(s, id, f.(revoked := Number(1))), Code(4))
    else if f.expires.value <= now then (HashSet(s, id, f.(revoked := Number(1), expired := Number(1))), Code(2))
    else if |Members(s, id, now)| >= maximum then (HashSet(s, id, f.(revoked := Number(1))), Code(5))
    else if Get(s.token, next, now).Some? then (s, Code(1))
    else
      var expires := Min(now + refreshTTL, f.absolute.value);
      (Advance(s, now, id, f, token, next, expires), Next(expires))
  }

  function Rotate(s: Store, now: int, token: Digest, next: Digest, refreshTTL: int, maximum: int): (Store, RotateReply) {
    if now < 1 || refreshTTL < 1 || maximum < 1 || maximum > MAX_TOKENS_PER_FAMILY then (s, Code(1))
    else
      var mapping: Option<Raw> := Get(s.token, token, now);
      match mapping
      case Some(Hex32(id)) =>
        (match Get(s.family, id, now)
         case None => (s, Code(2))
         case Some(f) =>
           if !Consistent(s, now, id, f, token, maximum) then (s, Code(1))
           else RotateLive(s, now, id, f, token, next, refreshTTL, maximum))
      case _ => (s, Code(1))
  }

  function RevokeFamily(s: Store, now: int, token: Digest, maximum: int): (Store, int) {
    if now < 1 || maximum < 1 || maximum > MAX_TOKENS_PER_FAMILY then (s, 1)
    else
      var mapping: Option<Raw> := Get(s.token, token, now);
      match mapping
      case Some(Hex32(id)) =>
        (match Get(s.family, id, now)
         case None => (s, 2)
         case Some(f) =>
           if !Consistent(s, now, id, f, token, maximum) then (s, 1)
           else if f.absolute.value <= now then (s, 2)
           else if f.revoked == Number(1) then (s, 3)
           else (HashSet(s, id, f.(revoked := Number(1))), 0))
      case _ => (s, 1)
  }

  // An entry of a user index that the user-wide scripts accept.
  predicate EntryValid(s: Store, now: int, owner: Digest, r: Raw)
    requires r in UserIndex(s, owner)
  {
    && r.Hex32?
    && match Get(s.family, r.id, now)
       case None => true
       case Some(f) =>
         && f.userHash == Hex64(owner) && Positive(f.absolute) && Positive(f.expires)
         && f.expires.value <= f.absolute.value && Flag(f.revoked)
         && UserIndex(s, owner)[r] == f.absolute.value
         && (f.absolute.value > now ==> r.id in s.global && s.global[r.id] == f.absolute.value)
  }

  predicate UserValid(s: Store, now: int, owner: Digest, maximum: int) {
    && 1 <= maximum <= MAX_FAMILY_INVENTORY
    && |UserIndex(s, owner)| <= maximum
    && (forall r :: r in UserIndex(s, owner) ==> EntryValid(s, now, owner, r))
  }

  predicate Stale(s: Store, now: int, id: FamilyId) {
    match Get(s.family, id, now)
    case None => true
    case Some(f) => f.absolute.Number? && f.absolute.value <= now
  }

  predicate Usable(s: Store, now: int, id: FamilyId) {
    match Get(s.family, id, now)
    case None => false
    case Some(f) =>
      f.absolute.Number? && f.expires.Number? && f.absolute.value > now && f.revoked != Number(1) && f.expires.value > now
  }

  function StaleEntries(s: Store, now: int, owner: Digest): set<Raw> {
    set r | r in UserIndex(s, owner) && r.Hex32? && Stale(s, now, r.id)
  }

  function UsableEntries(s: Store, now: int, owner: Digest): set<Raw> {
    set r | r in UserIndex(s, owner) && r.Hex32? && Usable(s, now, r.id)
  }

  // ZREM of some entries of a user, from both indexes.
  function DropEntries(s: Store, owner: Digest, entries: set<Raw>): Store {
    s.(user := if owner in s.user then s.user[owner := s.user[owner] - entries] else s.user,
       global := map i | i in s.global && Hex32(i) !in entries :: s.global[i])
  }

  function DropEmpty(s: Store, owner: Digest): Store {
    if |UserIndex(s, owner)| == 0 then s.(user := s.user - {owner}) else s
  }

  // Both user-wide scripts drop the stale entries of the user.
  function Prune(s: Store, now: int, owner: Digest): Store {
    DropEmpty(DropEntries(s, owner, StaleEntries(s, now, owner)), owner)
  }

  function MarkRevoked(s: Store, entries: set<Raw>): Store {
    s.(family := map i | i in s.family ::
         if Hex32(i) in entries then Expiring(s.family[i].value.(revoked := Number(1)), s.family[i].until)
         else s.family[i])
  }

  function RevokeUser(s: Store, now: int, owner: Digest, maximum: int): (Store, int) {
    if !UserValid(s, now, owner, maximum) then (s, -1)
    else
      var usable := UsableEntries(s, now, owner);
      (MarkRevoked(Prune(s, now, owner), usable), |usable|)
  }

  function ActiveFamilies(s: Store, now: int, owner: Digest, maximum: int): (Store, int) {
    if !UserValid(s, now, owner, maximum) then (s, -1)
    else (Prune(s, now, owner), |UsableEntries(s, now, owner)|)
  }

  // What SessionManager answers when this store is configured: the Go wrapper
  // around each script, and the manager around the wrapper.
  function Step(c: Config, s: Store, now: int, request: Request): (Store, Outcome) {
    match request
    case Start(user, id, first) =>
      var absolute := now + c.absoluteTTL;
      var expires := Min(now + c.refreshTTL, absolute);
      if absolute <= now || expires <= now then (s, Failed(Expired))
      else
        var (n, code) := Create(s, now, absolute, expires, c.maxFamilies, Sha256(user), id, first);
        (n, if code == 0 then Started(expires) else if code == 2 then Failed(Expired)
            else if code == 5 then Failed(Limit) else Failed(Collision))
    case Rotate(token, next) =>
      if token == next || c.refreshTTL <= 0 then (s, Failed(Invalid))
      else
        var (n, reply) := Rotate(s, now, token, next, c.refreshTTL, MAX_TOKENS_PER_FAMILY);
        (n, match reply
            case Next(expires) => Rotated(expires)
            case Code(2) => Failed(Expired)
            case Code(3) => Failed(Revoked)
            case Code(4) => Failed(Reuse)
            case Code(5) => Failed(Limit)
            case Code(_) => Failed(Invalid))
    case RevokeFamily(token) =>
      var (n, code) := RevokeFamily(s, now, token, MAX_TOKENS_PER_FAMILY);
      (n, if code == 0 then Done else if code == 2 then Failed(Expired)
          else if code == 3 then Failed(Revoked) else Failed(Invalid))
    case RevokeUser(user) =>
      var (n, count) := RevokeUser(s, now, Sha256(user), MAX_FAMILY_INVENTORY);
      (n, Count(if count < 0 || count > MAX_FAMILY_INVENTORY then 0 else count))
    case ActiveFamilies(user) =>
      var (n, count) := ActiveFamilies(s, now, Sha256(user), MAX_FAMILY_INVENTORY);
      (n, Count(if count < 0 || count > MAX_FAMILY_INVENTORY then 0 else count))
  }

  // t differs from s at most in the hash and used set of one family and in one
  // token mapping, and no revoked family has come back.
  ghost predicate Contained(s: Store, t: Store, id: FamilyId, next: Digest) {
    && t.global == s.global && t.user == s.user && t.family.Keys == s.family.Keys
    && t.token - {next} == s.token - {next}
    && t.family - {id} == s.family - {id} && t.used - {id} == s.used - {id}
    && (id in s.family && s.family[id].value.revoked == Number(1) ==> t.family[id].value.revoked == Number(1))
  }

  // The token was the current one of an unrevoked, unexpired family, and has
  // been exchanged for the next.
  predicate Exchanged(s: Store, t: Store, now: int, id: FamilyId, token: Digest, next: Digest) {
    && id in s.family && id in t.family
    && s.family[id].value.revoked == Number(0) && s.family[id].value.current == Hex64(token)
    && s.family[id].value.expires.Number? && now < s.family[id].value.expires.value
    && t.family[id].value.current == Hex64(next) && Hex64(token) in Members(t, id, now)
    && Get(t.token, next, now) == Some(Hex32(id))
  }

  lemma UnchangedIsContained(s: Store, id: FamilyId, next: Digest)
    ensures Contained(s, s, id, next)
  {
  }

  lemma HashSetIsContained(s: Store, id: FamilyId, f: FamilyHash, next: Digest)
    requires id in s.family && f.revoked == Number(1)
    ensures Contained(s, HashSet(s, id, f), id, next)
  {
  }

  lemma AdvanceIsContained(s: Store, now: int, id: FamilyId, f: FamilyHash, token: Digest, next: Digest, expires: int)
    requires id in s.family && s.family[id].value == f && WellFormed(f)
    requires f.revoked != Number(1) && f.current == Hex64(token) && now < f.expires.value
    ensures Contained(s, Advance(s, now, id, f, token, next, expires), id, next)
    ensures Exchanged(s, Advance(s, now, id, f, token, next, expires), now, id, token, next)
  {
  }

  lemma RotateLiveIsContained(s: Store, now: int, id: FamilyId, f: FamilyHash, token: Digest, next: Digest,
                              refreshTTL: int, maximum: int)
    requires id in s.family && s.family[id].value == f && WellFormed(f)
    ensures
      var (t, reply) := RotateLive(s, now, id, f, token, next, refreshTTL, maximum);
      && Contained(s, t, id, next)
      && (reply == Code(1) ==> t == s)
      && (reply.Next? ==> Exchanged(s, t, now, id, token, next))
  {
    hide Contained, Exchanged, HashSet, Advance;
    UnchangedIsContained(s, id, next);
    HashSetIsContained(s, id, f.(revoked := Number(1)), next);
    HashSetIsContained(s, id, f.(revoked := Number(1), expired := Number(1)), next);
    var expires := Min(now + refreshTTL, f.absolute.value);
    if f.revoked != Number(1) && f.current == Hex64(token) && now < f.expires.value {
      AdvanceIsContained(s, now, id, f, token, next, expires);
    }
  }

  // From any store, even a corrupted one, rotation is contained: a refusal for
  // inconsistent state writes nothing, and nothing changes but the family behind
  // the token and the mapping of the next token.
  lemma RotateIsContained(s: Store, now: int, token: Digest, next: Digest, refreshTTL: int, maximum: int)
    ensures
      var (t, reply) := Rotate(s, now, token, next, refreshTTL, maximum);
      && (reply == Code(1) ==> t == s)
      && (t != s ==> exists id :: Get(s.token, token, now) == Some(Hex32(id)) && Contained(s, t, id, next))
      && (reply.Next? ==> exists id :: Get(s.token, token, now) == Some(Hex32(id)) && Exchanged(s, t, now, id, token, next))
  {
    hide RotateLive, Contained, Exchanged;
    var mapping: Option<Raw> := Get(s.token, token, now);
    match mapping
    case Some(Hex32(id)) =>
      if id in s.family && Consistent(s, now, id, s.family[id].value, token, maximum) {
        RotateLiveIsContained(s, now, id, s.family[id].value, token, next, refreshTTL, maximum);
      }
    case _ =>
  }
}
