// The fingerprint of an idempotent request (Framework/httpapi/
// idempotency_fingerprint.go): a hash of length-prefixed parts, built in a fixed
// buffer when they are small and streamed into the hash otherwise.

module FingerprintEncoding {
  newtype byte = x: int | 0 <= x < 256

  type Bytes = seq<byte>

  // Strings of the platform are shorter than 2^63 bytes.
  const MAX_LENGTH := 0x7FFF_FFFF_FFFF_FFFF

  datatype Header = Header(name: Bytes, value: Bytes)

  datatype Request = Request(verb: Bytes, url: Bytes, principal: Bytes, mediaType: Bytes, headers: seq<Header>, body: Bytes)

  // A SHA-256 value; hashing is collision-free.
  datatype Digest = Sha256(of: Bytes)

  function Lower(c: byte): byte {
    if 65 <= c <= 90 then c + 32 else c
  }

  function ToLower(s: Bytes): (r: Bytes)
    ensures |r| == |s|
  {
    seq(|s|, i requires 0 <= i < |s| => Lower(s[i]))
  }

  const IF_MATCH: Bytes := [73, 102, 45, 77, 97, 116, 99, 104]
  const IF_MATCH_LOWER: Bytes := [105, 102, 45, 109, 97, 116, 99, 104]

  // The shortcut for If-Match gives what lower-casing gives.
  function NormalizedHeaderName(name: Bytes): (r: Bytes)
    ensures r == ToLower(name)
  {
    if name == IF_MATCH then
      assert ToLower(IF_MATCH) == IF_MATCH_LOWER;
      IF_MATCH_LOWER
    else ToLower(name)
  }

  // The last `count` bytes of a number, most significant first.
  function BigEndian(n: nat, count: nat): (r: Bytes)
    ensures |r| == count
  {
    if count == 0 then [] else BigEndian(n / 256, count - 1) + [(n % 256) as byte]
  }

  function Part(p: Bytes): Bytes {
    BigEndian(|p|, 8) + p
  }

  function Encode(parts: seq<Bytes>): Bytes {
    if parts == [] then [] else Encode(parts[..|parts| - 1]) + Part(parts[|parts| - 1])
  }

  function HeaderParts(headers: seq<Header>): seq<Bytes> {
    if headers == [] then []
    else
      var last := headers[|headers| - 1];
      HeaderParts(headers[..|headers| - 1]) + [NormalizedHeaderName(last.name), last.value]
  }

  function Parts(r: Request): seq<Bytes> {
    [r.verb, r.url, r.principal, r.mediaType] + HeaderParts(r.headers) + [r.body]
  }

  predicate Sized(parts: seq<Bytes>) {
    forall i :: 0 <= i < |parts| ==> |parts[i]| <= MAX_LENGTH
  }

  function Power(count: nat): nat {
    if count == 0 then 1 else 256 * Power(count - 1)
  }

  lemma {:induction false} BigEndianIsInjective(m: nat, n: nat, count: nat)
    requires m < Power(count) && n < Power(count) && BigEndian(m, count) == BigEndian(n, count)
    ensures m == n
  {
    if count > 0 {
      var a, b := BigEndian(m, count), BigEndian(n, count);
      assert a[..count - 1] == BigEndian(m / 256, count - 1) && b[..count - 1] == BigEndian(n / 256, count - 1);
      assert a[count - 1] == b[count - 1];
      BigEndianIsInjective(m / 256, n / 256, count - 1);
    }
  }

  // A part ends where its length says.
  lemma PartIsPrefixFree(p: Bytes, q: Bytes, x: Bytes, y: Bytes)
    requires |p| <= MAX_LENGTH && |q| <= MAX_LENGTH && Part(p) + x == Part(q) + y
    ensures p == q && x == y
  {
    var whole := Part(p) + x;
    assert whole[..8] == BigEndian(|p|, 8) && whole[..8] == BigEndian(|q|, 8);
    assert Power(8) == 0x1_0000_0000_0000_0000 by { PowerEight(); }
    BigEndianIsInjective(|p|, |q|, 8);
    assert whole[8..8 + |p|] == p && whole[8..8 + |p|] == q;
    assert whole[8 + |p|..] == x && whole[8 + |p|..] == y;
  }

  lemma PowerEight()
    ensures Power(8) == 0x1_0000_0000_0000_0000
  {
    assert Power(4) == 0x1_0000_0000;
    assert Power(8) == 256 * (256 * (256 * (256 * Power(4))));
  }

  lemma {:induction false} EncodeFromFront(parts: seq<Bytes>)
    requires parts != []
    ensures Encode(parts) == Part(parts[0]) + Encode(parts[1..])
  {
    if |parts| > 1 {
      var before := parts[..|parts| - 1];
      EncodeFromFront(before);
      assert before[1..] == parts[1..][..|parts| - 2];
    } else {
      assert parts[..0] == [] && parts[1..] == [];
    }
  }

  // The encoding is uniquely decodable.
  lemma {:induction false} EncodeIsInjective(a: seq<Bytes>, b: seq<Bytes>)
    requires Sized(a) && Sized(b) && Encode(a) == Encode(b)
    ensures a == b
    decreases |a|
  {
    if a != [] {
      EncodeFromFront(a);
    }
    if b != [] {
      EncodeFromFront(b);
    }
    if a != [] && b != [] {
      PartIsPrefixFree(a[0], b[0], Encode(a[1..]), Encode(b[1..]));
      EncodeIsInjective(a[1..], b[1..]);
      assert a == [a[0]] + a[1..] && b == [b[0]] + b[1..];
    }
  }

  function Normalized(headers: seq<Header>): seq<Header> {
    seq(|headers|, i requires 0 <= i < |headers| => Header(ToLower(headers[i].name), headers[i].value))
  }

  // Requests with the same parts agree in every field, but for the case of the
  // header names.
  lemma PartsAreFields(r: Request, s: Request)
    requires Parts(r) == Parts(s)
    ensures r.verb == s.verb && r.url == s.url && r.principal == s.principal && r.mediaType == s.mediaType && r.body == s.body
    ensures Normalized(r.headers) == Normalized(s.headers)
  {
    var a, b := Parts(r), Parts(s);
    assert a[0] == b[0] && a[1] == b[1] && a[2] == b[2] && a[3] == b[3] && a[|a| - 1] == b[|b| - 1];
    assert HeaderParts(r.headers) == a[4..|a| - 1] && HeaderParts(s.headers) == b[4..|b| - 1];
    HeaderPartsAreHeaders(r.headers, s.headers);
  }

  lemma {:induction false} HeaderPartsSize(headers: seq<Header>)
    ensures |HeaderParts(headers)| == 2 * |headers|
  {
    if headers != [] {
      HeaderPartsSize(headers[..|headers| - 1]);
    }
  }

  lemma {:induction false} HeaderPartsAreHeaders(h: seq<Header>, k: seq<Header>)
    requires HeaderParts(h) == HeaderParts(k)
    ensures Normalized(h) == Normalized(k)
    decreases |h|
  {
    HeaderPartsSize(h);
    HeaderPartsSize(k);
    if h != [] {
      var m, n := |h| - 1, |k| - 1;
      var a, b := HeaderParts(h), HeaderParts(k);
      HeaderPartsSize(h[..m]);
      HeaderPartsSize(k[..n]);
      assert a[..2 * m] == HeaderParts(h[..m]) && b[..2 * n] == HeaderParts(k[..n]);
      assert a[2 * m] == b[2 * n] && a[2 * m + 1] == b[2 * n + 1];
      HeaderPartsAreHeaders(h[..m], k[..n]);
      assert Normalized(h) == Normalized(h[..m]) + [Header(ToLower(h[m].name), h[m].value)];
      assert Normalized(k) == Normalized(k[..n]) + [Header(ToLower(k[n].name), k[n].value)];
    }
  }

  // Equal fingerprints mean equal requests.
  lemma FingerprintIsInjective(r: Request, s: Request)
    requires Sized(Parts(r)) && Sized(Parts(s)) && Sha256(Encode(Parts(r))) == Sha256(Encode(Parts(s)))
    ensures r.verb == s.verb && r.url == s.url && r.principal == s.principal && r.mediaType == s.mediaType && r.body == s.body
    ensures Normalized(r.headers) == Normalized(s.headers)
  {
    hide Encode, Parts;
    EncodeIsInjective(Parts(r), Parts(s));
    PartsAreFields(r, s);
  }
}

module FingerprintPaths {
  import opened FingerprintEncoding

  const INLINE_CAPACITY := 4096

  // binary.BigEndian.PutUint64 followed by copy: the part goes to the offset, and
  // nothing is written beyond it.
  method AppendFingerprint(target: array<byte>, offset: nat, value: Bytes) returns (end: nat)
    requires offset + 8 + |value| <= target.Length
    modifies target
    ensures end == offset + 8 + |value|
    ensures target[..end] == old(target[..offset]) + Part(value)
    ensures target[end..] == old(target[end..])
  {
    var length := BigEndian(|value|, 8);
    for i := 0 to 8
      invariant target[..offset] == old(target[..offset]) && target[offset..offset + i] == length[..i]
      invariant target[offset + i..] == old(target[offset + i..])
    {
      target[offset + i] := length[i];
    }
    assert target[..offset + 8] == old(target[..offset]) + length;
    for i := 0 to |value|
      invariant target[..offset + 8] == old(target[..offset]) + length
      invariant target[offset + 8..offset + 8 + i] == value[..i]
      invariant target[offset + 8 + i..] == old(target[offset + 8 + i..])
    {
      target[offset + 8 + i] := value[i];
    }
    end := offset + 8 + |value|;
  }

  lemma EncodeAppends(parts: seq<Bytes>, p: Bytes)
    ensures Encode(parts + [p]) == Encode(parts) + Part(p)
  {
    assert (parts + [p])[..|parts|] == parts;
  }

  lemma HeaderPartsAppend(headers: seq<Header>, i: nat)
    requires i < |headers|
    ensures HeaderParts(headers[..i + 1])
            == HeaderParts(headers[..i]) + [NormalizedHeaderName(headers[i].name)] + [headers[i].value]
  {
    assert headers[..i + 1][..i] == headers[..i];
  }

  // How long the encoding of some parts is, and that of more of them is longer.
  lemma {:induction false} EncodeGrows(parts: seq<Bytes>, i: nat)
    requires i <= |parts|
    ensures |Encode(parts[..i])| <= |Encode(parts)|
    ensures i < |parts| ==> |Encode(parts[..i])| + 8 + |parts[i]| <= |Encode(parts)|
    decreases |parts|
  {
    if i < |parts| {
      var before := parts[..|parts| - 1];
      EncodeGrows(before, if i < |before| then i else |before|);
      if i < |before| {
        assert before[..i] == parts[..i];
      } else {
        assert before[..|before|] == parts[..i];
      }
    } else {
      assert parts[..i] == parts;
    }
  }

  // One more of the parts of a request into the fixed buffer. All of them fit,
  // so this one does.
  method AppendPart(target: array<byte>, offset: nat, ghost parts: seq<Bytes>, ghost i: nat, value: Bytes) returns (end: nat)
    requires i < |parts| && value == parts[i]
    requires |Encode(parts)| <= target.Length && offset <= target.Length
    requires offset == |Encode(parts[..i])| && target[..offset] == Encode(parts[..i])
    modifies target
    ensures end == |Encode(parts[..i + 1])| && end <= target.Length && target[..end] == Encode(parts[..i + 1])
  {
    EncodeGrows(parts, i);
    end := AppendFingerprint(target, offset, value);
    EncodeAppends(parts[..i], value);
    assert parts[..i + 1] == parts[..i] + [value];
  }

  // The running hash: what has been written to it.
  class Hash {
    var written: Bytes

    constructor ()
      ensures written == []
    {
      written := [];
    }

    method Write(p: Bytes)
      modifies this
      ensures written == old(written) + p
    {
      written := written + p;
    }

    method WritePart(value: Bytes)
      modifies this
      ensures written == old(written) + Part(value)
    {
      Write(BigEndian(|value|, 8));
      Write(value);
    }
  }

  function PartSize(value: Bytes): nat {
    8 + |value|
  }

  // The sum that decides for the fixed buffer is the length of the encoding.
  method TotalSize(r: Request) returns (total: nat)
    ensures total == |Encode(Parts(r))|
  {
    hide Encode, HeaderParts;
    total := PartSize(r.verb) + PartSize(r.url) + PartSize(r.principal) + PartSize(r.mediaType) + PartSize(r.body);
    FourParts(r);
    for i := 0 to |r.headers|
      invariant total == |Encode(Fixed(r) + HeaderParts(r.headers[..i]))| + PartSize(r.body)
    {
      var name := NormalizedHeaderName(r.headers[i].name);
      TwoMoreParts(Fixed(r), r.headers, i);
      total := total + PartSize(name) + PartSize(r.headers[i].value);
    }
    assert r.headers[..|r.headers|] == r.headers;
    EncodeAppends(Fixed(r) + HeaderParts(r.headers), r.body);
  }

  function Fixed(r: Request): seq<Bytes> {
    [r.verb, r.url, r.principal, r.mediaType]
  }

  lemma FourParts(r: Request)
    ensures Encode(Fixed(r) + HeaderParts(r.headers[..0])) == Part(r.verb) + Part(r.url) + Part(r.principal) + Part(r.mediaType)
    ensures Encode([]) == []
    ensures Fixed(r) + HeaderParts(r.headers[..0]) == [] + [r.verb] + [r.url] + [r.principal] + [r.mediaType]
  {
    hide Encode;
    var none: seq<Bytes> := [];
    assert Encode(none) == [] by { NoParts(); }
    EncodeAppends(none, r.verb);
    EncodeAppends([r.verb], r.url);
    EncodeAppends([r.verb, r.url], r.principal);
    EncodeAppends([r.verb, r.url, r.principal], r.mediaType);
    assert none + [r.verb] == [r.verb] && [r.verb] + [r.url] == [r.verb, r.url];
    assert [r.verb, r.url] + [r.principal] == [r.verb, r.url, r.principal];
    assert [r.verb, r.url, r.principal] + [r.mediaType] == Fixed(r);
    assert Fixed(r) + HeaderParts(r.headers[..0]) == Fixed(r);
  }

  lemma NoParts()
    ensures Encode([]) == []
  {
  }

  lemma TwoMoreParts(before: seq<Bytes>, headers: seq<Header>, i: nat)
    requires i < |headers|
    ensures
      var name := NormalizedHeaderName(headers[i].name);
      Encode(before + HeaderParts(headers[..i + 1])) == Encode(before + HeaderParts(headers[..i])) + Part(name) + Part(headers[i].value)
  {
    hide Encode, HeaderParts;
    var name := NormalizedHeaderName(headers[i].name);
    HeaderPartsAppend(headers, i);
    var parts := before + HeaderParts(headers[..i]);
    EncodeAppends(parts, name);
    EncodeAppends(parts + [name], headers[i].value);
    assert parts + [name] + [headers[i].value] == before + HeaderParts(headers[..i + 1]);
  }

  // Both paths hash the same bytes, and the fixed buffer is never overrun.
  method RequestFingerprint(r: Request) returns (digest: Digest)
    ensures digest == Sha256(Encode(Parts(r)))
  {
    if |r.headers| <= 4 {
      var total := TotalSize(r);
      if total <= INLINE_CAPACITY {
        digest := InlineFingerprint(r);
        return;
      }
    }
    digest := StreamedFingerprint(r);
  }

  method StreamedFingerprint(r: Request) returns (digest: Digest)
    ensures digest == Sha256(Encode(Parts(r)))
  {
    hide Encode, HeaderParts, Part;
    var hash := new Hash();
    hash.WritePart(r.verb);
    hash.WritePart(r.url);
    hash.WritePart(r.principal);
    hash.WritePart(r.mediaType);
    FourParts(r);
    for i := 0 to |r.headers|
      invariant hash.written == Encode(Fixed(r) + HeaderParts(r.headers[..i]))
    {
      TwoMoreParts(Fixed(r), r.headers, i);
      hash.WritePart(NormalizedHeaderName(r.headers[i].name));
      hash.WritePart(r.headers[i].value);
    }
    assert r.headers[..|r.headers|] == r.headers;
    EncodeAppends(Fixed(r) + HeaderParts(r.headers), r.body);
    hash.WritePart(r.body);
    return Sha256(hash.written);
  }

  method InlineFingerprint(r: Request) returns (digest: Digest)
    requires |r.headers| <= 4 && |Encode(Parts(r))| <= INLINE_CAPACITY
    ensures digest == Sha256(Encode(Parts(r)))
  {
    hide Encode, HeaderParts, Part;
    ghost var parts := Parts(r);
    var encoded := new byte[INLINE_CAPACITY];
    var offset := 0;
    NoParts();
    PartAt(r);
    assert parts[..0] == [];
    offset := AppendPart(encoded, offset, parts, 0, r.verb);
    offset := AppendPart(encoded, offset, parts, 1, r.url);
    offset := AppendPart(encoded, offset, parts, 2, r.principal);
    offset := AppendPart(encoded, offset, parts, 3, r.mediaType);
    for i := 0 to |r.headers|
      invariant offset == |Encode(parts[..4 + 2 * i])| && offset <= INLINE_CAPACITY
      invariant encoded[..offset] == Encode(parts[..4 + 2 * i])
    {
      offset := AppendPart(encoded, offset, parts, 4 + 2 * i, NormalizedHeaderName(r.headers[i].name));
      offset := AppendPart(encoded, offset, parts, 5 + 2 * i, r.headers[i].value);
    }
    offset := AppendPart(encoded, offset, parts, |parts| - 1, r.body);
    assert parts[..|parts|] == parts;
    return Sha256(encoded[..offset]);
  }

  // Where each part of a request stands.
  lemma PartAt(r: Request)
    ensures
      var parts := Parts(r);
      && |parts| == 5 + 2 * |r.headers| && parts[|parts| - 1] == r.body
      && (forall i :: 0 <= i < |r.headers| ==>
            parts[4 + 2 * i] == NormalizedHeaderName(r.headers[i].name) && parts[5 + 2 * i] == r.headers[i].value)
  {
    HeaderPartsSize(r.headers);
    forall i | 0 <= i < |r.headers|
      ensures HeaderParts(r.headers)[2 * i] == NormalizedHeaderName(r.headers[i].name)
      ensures HeaderParts(r.headers)[2 * i + 1] == r.headers[i].value
    {
      HeaderPartAt(r.headers, i);
    }
    hide HeaderParts;
  }

  lemma {:induction false} HeaderPartAt(headers: seq<Header>, i: nat)
    requires i < |headers|
    ensures |HeaderParts(headers)| == 2 * |headers|
    ensures HeaderParts(headers)[2 * i] == NormalizedHeaderName(headers[i].name)
    ensures HeaderParts(headers)[2 * i + 1] == headers[i].value
    decreases |headers|
  {
    var before := headers[..|headers| - 1];
    HeaderPartsSize(before);
    if i < |before| {
      HeaderPartAt(before, i);
    }
  }
}

// The in-memory registry that binds an idempotency key to the fingerprint of its
// first request.

module FingerprintBinding {
  import opened Common
  import opened FingerprintEncoding

  type Key(==, !new)

  const MINUTE := 60_000_000_000

  datatype Entry = Entry(digest: Digest, expiresAt: int)

  datatype Attempt = Attempt(now: int, key: Key, digest: Digest, lifetime: int)

  // The lifetime outlasts that of the response by a minute, unless that would
  // overflow.
  function FingerprintLifetime(lifetime: int): int {
    if lifetime > 0x7FFF_FFFF_FFFF_FFFF - MINUTE then lifetime else lifetime + MINUTE
  }

  function Binding(entries: map<Key, Entry>, a: Attempt): (map<Key, Entry>, bool) {
    if a.key in entries && a.now < entries[a.key].expiresAt then (entries, entries[a.key].digest == a.digest)
    else (entries[a.key := Entry(a.digest, a.now + FingerprintLifetime(a.lifetime))], true)
  }

  class Registry {
    var entries: map<Key, Entry>

    constructor ()
      ensures entries == map[]
    {
      entries := map[];
    }

    method Bind(now: int, key: Key, digest: Digest, lifetime: int) returns (ok: bool)
      modifies this
      ensures (entries, ok) == Binding(old(entries), Attempt(now, key, digest, lifetime))
    {
      if key in entries && now < entries[key].expiresAt {
        return entries[key].digest == digest;
      }
      entries := entries[key := Entry(digest, now + FingerprintLifetime(lifetime))];
      return true;
    }
  }

  ghost predicate Run(attempts: seq<Attempt>, states: seq<map<Key, Entry>>) {
    && |states| == |attempts| + 1 && states[0] == map[]
    && (forall i :: 0 <= i < |attempts| ==> states[i + 1] == Binding(states[i], attempts[i]).0)
    && (forall i, j :: 0 <= i <= j < |attempts| ==> attempts[i].now <= attempts[j].now)
  }

  lemma {:induction false} BindingLasts(attempts: seq<Attempt>, states: seq<map<Key, Entry>>, i: nat, j: nat, key: Key)
    requires Run(attempts, states) && i <= j < |attempts| && key in states[i] && attempts[j].now < states[i][key].expiresAt
    ensures key in states[j] && states[j][key] == states[i][key]
  {
    if i < j {
      BindingLasts(attempts, states, i, j - 1, key);
    }
  }

  // While a binding lasts, its key is granted again exactly to requests that are
  // the same.
  lemma SameKeySameRequest(attempts: seq<Attempt>, states: seq<map<Key, Entry>>, i: nat, j: nat, r: Request, s: Request)
    requires Run(attempts, states) && i < j < |attempts| && attempts[i].key == attempts[j].key
    requires Sized(Parts(r)) && Sized(Parts(s))
    requires attempts[i].digest == Sha256(Encode(Parts(r))) && attempts[j].digest == Sha256(Encode(Parts(s)))
    requires Binding(states[i], attempts[i]).1 && attempts[j].now < states[i + 1][attempts[i].key].expiresAt
    ensures Binding(states[j], attempts[j]).1 <==> Parts(r) == Parts(s)
  {
    hide Encode, Parts;
    BindingLasts(attempts, states, i + 1, j, attempts[i].key);
    if Sha256(Encode(Parts(r))) == Sha256(Encode(Parts(s))) {
      EncodeIsInjective(Parts(r), Parts(s));
    }
  }

  // When a binding made by this attempt ends.
  function BindingEnd(a: Attempt): int {
    a.now + a.lifetime + if a.lifetime <= 0x7FFF_FFFF_FFFF_FFFF - 60_000_000_000 then 60_000_000_000 else 0
  }

  // The attempt before attempt j that bound the key last: the first one, or one
  // that came when the binding before it had ended.
  function Binder(attempts: seq<Attempt>, j: nat, key: Key): (i: Option<nat>)
    requires j <= |attempts|
    ensures i.Some? ==> i.value < j && attempts[i.value].key == key
  {
    if j == 0 then None
    else
      var before := Binder(attempts, j - 1, key);
      if attempts[j - 1].key == key && (before == None || BindingEnd(attempts[before.value]) <= attempts[j - 1].now)
      then Some(j - 1) else before
  }

  ghost predicate Bound(attempts: seq<Attempt>, j: nat, key: Key, entries: map<Key, Entry>)
    requires j <= |attempts|
  {
    match Binder(attempts, j, key)
    case None => key !in entries
    case Some(i) => key in entries && entries[key] == Entry(attempts[i].digest, BindingEnd(attempts[i]))
  }

  lemma {:induction false} EveryKeyBound(attempts: seq<Attempt>, states: seq<map<Key, Entry>>, j: nat, key: Key)
    requires Run(attempts, states) && j <= |attempts|
    ensures Bound(attempts, j, key, states[j])
  {
    if j > 0 {
      EveryKeyBound(attempts, states, j - 1, key);
    }
  }

  // In every run a request is refused exactly when the attempt that bound its key
  // had another fingerprint and its lifetime and a minute are not yet over.
  lemma GrantedExactly(attempts: seq<Attempt>, states: seq<map<Key, Entry>>, j: nat)
    requires Run(attempts, states) && j < |attempts|
    ensures
      var a := attempts[j];
      Binding(states[j], a).1 <==>
        match Binder(attempts, j, a.key)
        case None => true
        case Some(i) => attempts[i].digest == a.digest || BindingEnd(attempts[i]) <= a.now
  {
    EveryKeyBound(attempts, states, j, attempts[j].key);
    hide Binder;
  }
}
