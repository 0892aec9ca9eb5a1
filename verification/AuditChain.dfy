// The hash-chained audit log (Framework/httpapi/security_audit_chain.go): the
// sink that links records by digests, and the verifier that reads them back.

module AuditRecords {
  // Go strings: Unicode characters and bytes that are no valid UTF-8.
  datatype Character = Scalar(c: char) | BadByte(b: bv8)

  type Str = seq<Character>

  // A character in a JSON string, written as it is or as an escape.
  datatype JsonCharacter = Raw(c: char) | Escaped(c: char)

  type JsonString = seq<JsonCharacter>

  const REPLACEMENT: char := '\U{FFFD}'
  // The first instant, in nanoseconds from the zero time, whose year has five digits.
  const YEAR_10000 := 315_537_897_600_000_000_000

  // Event, outcome, reason and target of a valid record come from a table.
  datatype Record = Record(timestamp: int, event: string, outcome: string, reason: string, target: string,
                           requestId: Str, traceId: Str, spanId: Str, actorId: Str)

  datatype JsonRecord = JsonRecord(timestamp: int, event: string, outcome: string, reason: string, target: string,
                                   requestId: JsonString, traceId: JsonString, spanId: JsonString, actorId: JsonString)

  predicate NeedsEscape(c: char) {
    c < ' ' || c in {'"', '\\', '<', '>', '&', '\U{2028}', '\U{2029}'}
  }

  // An invalid byte is written as an escaped replacement character.
  function EncodeCharacter(c: Character): JsonCharacter {
    match c
    case BadByte(_) => Escaped(REPLACEMENT)
    case Scalar(c) => if NeedsEscape(c) then Escaped(c) else Raw(c)
  }

  function EncodeString(s: Str): JsonString {
    seq(|s|, i requires 0 <= i < |s| => EncodeCharacter(s[i]))
  }

  function DecodeString(j: JsonString): Str {
    seq(|j|, i requires 0 <= i < |j| => Scalar(j[i].c))
  }

  function Encode(r: Record): JsonRecord {
    JsonRecord(r.timestamp, r.event, r.outcome, r.reason, r.target,
               EncodeString(r.requestId), EncodeString(r.traceId), EncodeString(r.spanId), EncodeString(r.actorId))
  }

  function Decode(j: JsonRecord): Record {
    Record(j.timestamp, j.event, j.outcome, j.reason, j.target,
           DecodeString(j.requestId), DecodeString(j.traceId), DecodeString(j.spanId), DecodeString(j.actorId))
  }

  predicate Utf8(s: Str) {
    forall i :: 0 <= i < |s| ==> s[i].Scalar?
  }

  predicate Clean(r: Record) {
    Utf8(r.requestId) && Utf8(r.traceId) && Utf8(r.spanId) && Utf8(r.actorId)
  }

  function Bytes(c: Character): nat {
    match c
    case BadByte(_) => 1
    case Scalar(c) =>
      if c < '\U{80}' then 1 else if c < '\U{800}' then 2 else if c < '\U{10000}' then 3 else 4
  }

  function Length(s: Str): nat {
    if s == [] then 0 else Length(s[..|s| - 1]) + Bytes(s[|s| - 1])
  }

  predicate Bounded(s: Str) {
    Length(s) <= 128 && forall i :: 0 <= i < |s| && s[i].Scalar? ==> s[i].c >= ' ' && s[i].c != '\U{7F}'
  }

  predicate ReasonAllowed(r: Record) {
    match r.event
    case "login" =>
      || (r.outcome == "success" && r.reason in {"credentials_valid", "oidc_started", "oidc_callback_valid", "oidc_session_started"})
      || (r.outcome == "failure" && r.reason in {"invalid_credentials", "token_issue_failed", "oidc_start_failed",
                                                 "oidc_callback_invalid", "oidc_exchange_failed", "oidc_session_failed"})
      || (r.outcome == "limited" && r.reason == "rate_limited")
    case "bearer" => r.outcome == "failure" && r.reason in {"token_missing", "token_invalid"}
    case "session" =>
      || (r.outcome == "success" && r.reason == "session_revoked")
      || (r.outcome == "failure" && r.reason in {"session_missing", "session_invalid", "session_revoke_failed"})
    case "authorization" => r.outcome == "failure" && r.reason in {"role_required", "resource_invalid", "resource_denied"}
    case "diagnostics" =>
      (r.outcome == "success" && r.reason == "token_valid") || (r.outcome == "failure" && r.reason == "token_invalid")
    case _ => false
  }

  predicate TargetAllowed(r: Record) {
    r.target in {"demo_auth", "oidc_browser", "api", "application_query", "application_command", "metrics", "pprof"}
  }

  // validateAuditChainRecord; the entries of the table are within the bounds.
  predicate Valid(r: Record) {
    && r.timestamp != 0 && r.requestId != []
    && Bounded(r.requestId) && Bounded(r.traceId) && Bounded(r.spanId) && Bounded(r.actorId)
    && ReasonAllowed(r) && TargetAllowed(r)
    && (r.actorId != [] ==> r.event == "login" && r.outcome == "success")
  }

  // What json.Marshal accepts of a time.
  predicate Formattable(timestamp: int) {
    -366 * 86_400_000_000_000 <= timestamp < YEAR_10000
  }

  lemma StringRoundTrip(s: Str)
    ensures Utf8(s) ==> DecodeString(EncodeString(s)) == s
    ensures EncodeString(DecodeString(EncodeString(s))) == EncodeString(s) <==> Utf8(s)
  {
    if i :| 0 <= i < |s| && s[i].BadByte? {
      assert EncodeString(s)[i] == Escaped(REPLACEMENT);
      assert EncodeString(DecodeString(EncodeString(s)))[i] == Raw(REPLACEMENT);
    }
  }

  // Writing a record, reading it and writing it again gives the same text
  // exactly when all its strings are valid UTF-8.
  lemma RecordRoundTrip(r: Record)
    ensures Clean(r) ==> Decode(Encode(r)) == r
    ensures Encode(Decode(Encode(r))) == Encode(r) <==> Clean(r)
  {
    hide EncodeString, DecodeString, Utf8;
    StringRoundTrip(r.requestId);
    StringRoundTrip(r.traceId);
    StringRoundTrip(r.spanId);
    StringRoundTrip(r.actorId);
  }

  lemma StringsInjective(j: JsonString, k: JsonString)
    requires EncodeString(DecodeString(j)) == EncodeString(DecodeString(k))
    ensures DecodeString(j) == DecodeString(k)
  {
    var s, t := DecodeString(j), DecodeString(k);
    assert |s| == |EncodeString(s)| && |t| == |EncodeString(t)|;
    forall i | 0 <= i < |s| ensures s[i] == t[i] {
      assert EncodeString(s)[i] == EncodeString(t)[i];
    }
  }

  lemma RecordsInjective(j: JsonRecord, k: JsonRecord)
    requires Encode(Decode(j)) == Encode(Decode(k))
    ensures Decode(j) == Decode(k)
  {
    hide EncodeString, DecodeString;
    StringsInjective(j.requestId, k.requestId);
    StringsInjective(j.traceId, k.traceId);
    StringsInjective(j.spanId, k.spanId);
    StringsInjective(j.actorId, k.actorId);
  }
}

module AuditChain {
  import opened Common
  import opened AuditRecords

  const MAX_RECORD_BYTES := 0x10_0000

  datatype Payload = Payload(sequence: nat, previous: Digest, record: JsonRecord)

  // The digest before the first record is zero; any other is the collision-free
  // hash of the digest before it and the payload.
  datatype Digest = Zero | Chained(before: Digest, payload: Payload)

  // The text of a digest: 64 hexadecimal digits, or anything else.
  datatype HashText = Hex(digest: Digest) | Other(raw: string)

  datatype Envelope = Envelope(sequence: nat, previous: HashText, record: JsonRecord, hash: HashText)

  // A line of the log, if it is one JSON envelope, and its length in bytes.
  datatype Line = Line(envelope: Option<Envelope>, length: nat)

  datatype Error = Canceled | RecordInvalid | RecordTooLarge | WriteFailed

  function LineOf(sequence: nat, previous: Digest, r: Record, length: nat): Line {
    var payload := Payload(sequence, previous, Encode(r));
    Line(Some(Envelope(sequence, Hex(previous), Encode(r), Hex(Chained(previous, payload)))), length)
  }

  datatype Chain = Chain(count: nat, previous: Digest)

  // The checks on one line.
  predicate Accepts(v: Chain, line: Line) {
    && line.envelope.Some?
    && var e := line.envelope.value;
       && e.sequence == v.count + 1
       && Valid(Decode(e.record))
       && e.previous == Hex(v.previous)
       && e.hash == Hex(DigestOf(v, e))
  }

  // The verifier marshals the decoded record anew.
  function DigestOf(v: Chain, e: Envelope): Digest {
    Chained(v.previous, Payload(e.sequence, v.previous, Encode(Decode(e.record))))
  }

  function Verify(v: Chain, lines: seq<Line>): (Chain, bool)
    decreases |lines|
  {
    if lines == [] then (v, true)
    else if lines[0].length == 0 || lines[0].length > MAX_RECORD_BYTES || !Accepts(v, lines[0]) then (v, false)
    else Verify(Chain(v.count + 1, DigestOf(v, lines[0].envelope.value)), lines[1..])
  }

  const Genesis := Chain(0, Zero)

  // A call of the sink: whether the context is done, the length of the envelope
  // and whether the writer succeeds are up to the surroundings.
  datatype Attempt = Attempt(record: Record, canceled: bool, size: nat, writes: bool)

  datatype Sink = Sink(log: seq<Line>, sequence: nat, previous: Digest)

  predicate Succeeds(maxBytes: int, a: Attempt) {
    !a.canceled && Valid(a.record) && Formattable(a.record.timestamp) && a.size + 1 <= maxBytes && a.writes
  }

  // A rejected call changes nothing.
  function AfterWrite(maxBytes: int, s: Sink, a: Attempt): Sink {
    if Succeeds(maxBytes, a) then
      Sink(s.log + [LineOf(s.sequence + 1, s.previous, a.record, a.size)], s.sequence + 1,
           Chained(s.previous, Payload(s.sequence + 1, s.previous, Encode(a.record))))
    else s
  }

  class HashChainSink {
    const maxBytes: int
    var log: seq<Line>
    var sequence: nat
    var previous: Digest

    constructor (maxBytes: int)
      requires 512 <= maxBytes <= 0x10_0000
      ensures this.maxBytes == maxBytes && log == [] && sequence == 0 && previous == Zero
    {
      this.maxBytes := maxBytes;
      log, sequence, previous := [], 0, Zero;
    }

    ghost function View(): Sink
      reads this
    {
      Sink(log, sequence, previous)
    }

    // size is the length of the marshalled envelope; the writer writes a line
    // completely or not at all.
    method WriteSecurityAudit(record: Record, canceled: bool, size: nat, writes: bool) returns (error: Option<Error>)
      modifies this
      ensures error.None? <==> Succeeds(maxBytes, Attempt(record, canceled, size, writes))
      ensures View() == AfterWrite(maxBytes, old(View()), Attempt(record, canceled, size, writes))
    {
      hide Valid, Encode;
      if canceled {
        return Some(Canceled);
      }
      if !Valid(record) {
        return Some(RecordInvalid);
      }
      var next := sequence + 1;
      if !Formattable(record.timestamp) {
        return Some(RecordInvalid);
      }
      var payload := Payload(next, previous, Encode(record));
      var digest := Chained(previous, payload);
      var envelope := Envelope(next, Hex(previous), Encode(record), Hex(digest));
      if size + 1 > maxBytes {
        return Some(RecordTooLarge);
      }
      if !writes {
        return Some(WriteFailed);
      }
      log := log + [Line(Some(envelope), size)];
      sequence := next;
      previous := digest;
      return None;
    }
  }

  class ChainVerifier {
    var count: nat
    var previous: Digest

    constructor ()
      ensures Chain(count, previous) == Genesis
    {
      count, previous := 0, Zero;
    }

    method VerifyLine(line: Line) returns (ok: bool)
      modifies this
      ensures ok == Accepts(old(Chain(count, previous)), line)
      ensures Chain(count, previous) == if ok then Chain(old(count) + 1, DigestOf(old(Chain(count, previous)), line.envelope.value))
                                        else old(Chain(count, previous))
    {
      hide Valid, Encode, Decode;
      if line.envelope.None? || line.envelope.value.sequence != count + 1 {
        return false;
      }
      var envelope := line.envelope.value;
      if !Valid(Decode(envelope.record)) || envelope.previous != Hex(previous) {
        return false;
      }
      var digest := Chained(previous, Payload(envelope.sequence, previous, Encode(Decode(envelope.record))));
      if envelope.hash != Hex(digest) {
        return false;
      }
      previous := digest;
      count := count + 1;
      return true;
    }
  }

  method VerifyHashChain(lines: seq<Line>) returns (count: nat, ok: bool)
    ensures (count, ok) == (Verify(Genesis, lines).0.count, Verify(Genesis, lines).1)
  {
    hide Accepts, DigestOf;
    var verifier := new ChainVerifier();
    var i := 0;
    assert lines[0..] == lines;
    while i < |lines|
      invariant 0 <= i <= |lines|
      invariant Verify(Genesis, lines) == Verify(Chain(verifier.count, verifier.previous), lines[i..])
    {
      var line := lines[i];
      if line.length == 0 || line.length > MAX_RECORD_BYTES {
        return verifier.count, false;
      }
      var accepted := verifier.VerifyLine(line);
      if !accepted {
        return verifier.count, false;
      }
      i := i + 1;
    }
    return verifier.count, true;
  }

  function Run(maxBytes: int, attempts: seq<Attempt>): Sink {
    if attempts == [] then Sink([], 0, Zero)
    else AfterWrite(maxBytes, Run(maxBytes, attempts[..|attempts| - 1]), attempts[|attempts| - 1])
  }

  function Successes(maxBytes: int, attempts: seq<Attempt>): nat {
    if attempts == [] then 0
    else Successes(maxBytes, attempts[..|attempts| - 1]) + if Succeeds(maxBytes, attempts[|attempts| - 1]) then 1 else 0
  }

  // Every record that was written is valid UTF-8.
  predicate AllClean(maxBytes: int, attempts: seq<Attempt>) {
    forall i :: 0 <= i < |attempts| && Succeeds(maxBytes, attempts[i]) ==> Clean(attempts[i].record)
  }

  lemma {:induction false} VerifyAppends(v: Chain, lines: seq<Line>, line: Line)
    ensures
      var (w, ok) := Verify(v, lines);
      Verify(v, lines + [line]) ==
        if !ok || line.length == 0 || line.length > MAX_RECORD_BYTES || !Accepts(w, line) then (w, false)
        else (Chain(w.count + 1, DigestOf(w, line.envelope.value)), true)
    decreases |lines|
  {
    hide Accepts, DigestOf;
    if lines == [] {
      assert lines + [line] == [line] && [line][1..] == lines;
    } else {
      assert (lines + [line])[0] == lines[0] && (lines + [line])[1..] == lines[1..] + [line];
      if lines[0].length != 0 && lines[0].length <= MAX_RECORD_BYTES && Accepts(v, lines[0]) {
        AcceptedIsEnvelope(v, lines[0]);
        VerifyAppends(Chain(v.count + 1, DigestOf(v, lines[0].envelope.value)), lines[1..], line);
      }
    }
  }

  lemma AcceptedIsEnvelope(v: Chain, line: Line)
    requires Accepts(v, line)
    ensures line.envelope.Some?
  {
  }

  // The verifier accepts what the sink has just appended exactly when the record
  // is valid UTF-8.
  lemma LineIsAccepted(v: Chain, r: Record, length: nat)
    requires Valid(r)
    ensures
      var line := LineOf(v.count + 1, v.previous, r, length);
      && (Accepts(v, line) <==> Clean(r))
      && (Clean(r) ==> DigestOf(v, line.envelope.value) == Chained(v.previous, Payload(v.count + 1, v.previous, Encode(r))))
  {
    hide Valid, Encode, Decode, Clean;
    RecordRoundTrip(r);
  }

  // The log of any sequence of calls, rejected ones included, is accepted
  // exactly when every written record is valid UTF-8, and then the count is that
  // of the successful calls.
  lemma {:induction false} LogIsAccepted(maxBytes: int, attempts: seq<Attempt>)
    requires maxBytes <= 0x10_0000 && forall i :: 0 <= i < |attempts| ==> attempts[i].size > 0
    ensures
      var s := Run(maxBytes, attempts);
      && s.sequence == |s.log| == Successes(maxBytes, attempts)
      && (Verify(Genesis, s.log).1 <==> AllClean(maxBytes, attempts))
      && (AllClean(maxBytes, attempts) ==> Verify(Genesis, s.log).0 == Chain(s.sequence, s.previous))
    decreases |attempts|
  {
    if attempts != [] {
      var before, last := attempts[..|attempts| - 1], attempts[|attempts| - 1];
      LogIsAccepted(maxBytes, before);
      CleanSoFar(maxBytes, attempts);
      hide Valid, Clean, AllClean, Verify, AfterWrite;
      WriteIsAccepted(maxBytes, Run(maxBytes, before), last);
    }
  }

  lemma WriteIsAccepted(maxBytes: int, s: Sink, a: Attempt)
    requires maxBytes <= 0x10_0000 && a.size > 0 && s.sequence == |s.log|
    requires Verify(Genesis, s.log).1 ==> Verify(Genesis, s.log).0 == Chain(s.sequence, s.previous)
    ensures
      var t := AfterWrite(maxBytes, s, a);
      && t.sequence == |t.log| == s.sequence + (if Succeeds(maxBytes, a) then 1 else 0)
      && (Verify(Genesis, t.log).1 <==> Verify(Genesis, s.log).1 && (Succeeds(maxBytes, a) ==> Clean(a.record)))
      && (Verify(Genesis, t.log).1 ==> Verify(Genesis, t.log).0 == Chain(t.sequence, t.previous))
  {
    hide Valid, Clean, Accepts, DigestOf, Verify;
    if Succeeds(maxBytes, a) {
      VerifyAppends(Genesis, s.log, LineOf(s.sequence + 1, s.previous, a.record, a.size));
      LineIsAccepted(Chain(s.sequence, s.previous), a.record, a.size);
    }
  }

  lemma CleanSoFar(maxBytes: int, attempts: seq<Attempt>)
    requires attempts != []
    ensures
      var last := attempts[|attempts| - 1];
      AllClean(maxBytes, attempts) <==>
        AllClean(maxBytes, attempts[..|attempts| - 1]) && (Succeeds(maxBytes, last) ==> Clean(last.record))
  {
    hide Succeeds, Clean;
    var before := attempts[..|attempts| - 1];
    assert forall i :: 0 <= i < |before| ==> before[i] == attempts[i];
  }

  // The records of an accepted log.
  function Records(lines: seq<Line>): seq<Record> {
    seq(|lines|, i requires 0 <= i < |lines| =>
      if lines[i].envelope.Some? then Decode(lines[i].envelope.value.record)
      else Record(0, "", "", "", "", [], [], [], []))
  }

  // The digest after these records have been written.
  function LastDigest(records: seq<Record>): Digest {
    if records == [] then Zero
    else
      var n := |records| - 1;
      var before := LastDigest(records[..n]);
      Chained(before, Payload(n + 1, before, Encode(records[n])))
  }

  // The line is what a sink writes for the valid record that it holds, when it
  // has written so many with that last digest; strings may be spelled otherwise.
  predicate WrittenAs(line: Line, count: nat, previous: Digest) {
    && 0 < line.length <= 0x10_0000
    && match line.envelope
       case None => false
       case Some(e) =>
         && Valid(Decode(e.record))
         && Line(Some(e.(record := Encode(Decode(e.record)))), line.length)
            == LineOf(count + 1, previous, Decode(e.record), line.length)
  }

  predicate IsWritten(lines: seq<Line>) {
    forall i :: 0 <= i < |lines| ==> WrittenAs(lines[i], i, LastDigest(Records(lines[..i])))
  }

  // Two accepted logs with the same last digest hold the same records.
  lemma {:induction false} SameDigestSameRecords(a: seq<Line>, b: seq<Line>)
    requires Verify(Genesis, a).1 && Verify(Genesis, b).1
    requires Verify(Genesis, a).0.previous == Verify(Genesis, b).0.previous
    ensures Records(a) == Records(b)
    decreases |a|
  {
    Accounted(a);
    Accounted(b);
    if a != [] && b != [] {
      var c, d, l, m := a[..|a| - 1], b[..|b| - 1], a[|a| - 1], b[|b| - 1];
      LastLine(a);
      LastLine(b);
      hide Decode, Encode, Valid;
      RecordsInjective(l.envelope.value.record, m.envelope.value.record);
      SameDigestSameRecords(c, d);
      RecordsEnd(a);
      RecordsEnd(b);
    }
  }

  lemma RecordsEnd(a: seq<Line>)
    requires a != [] && a[|a| - 1].envelope.Some?
    ensures Records(a) == Records(a[..|a| - 1]) + [Decode(a[|a| - 1].envelope.value.record)]
  {
    hide Decode;
  }

  // An accepted log counts its lines, and only an empty one ends in zero.
  lemma {:induction false} Accounted(a: seq<Line>)
    requires Verify(Genesis, a).1
    ensures Verify(Genesis, a).0.count == |a|
    ensures Verify(Genesis, a).0.previous == Zero <==> a == []
    decreases |a|
  {
    if a != [] {
      LastLine(a);
      hide Accepts;
      Accounted(a[..|a| - 1]);
    }
  }

  lemma LastLine(a: seq<Line>)
    requires a != [] && Verify(Genesis, a).1
    ensures
      var before, last := a[..|a| - 1], a[|a| - 1];
      var v := Verify(Genesis, before).0;
      && Verify(Genesis, before).1 && Accepts(v, last)
      && Verify(Genesis, a).0 == Chain(v.count + 1, DigestOf(v, last.envelope.value))
  {
    hide Accepts, DigestOf;
    VerifyAppends(Genesis, a[..|a| - 1], a[|a| - 1]);
    assert a[..|a| - 1] + [a[|a| - 1]] == a;
  }

  // A record that is not UTF-8 is written, and the log is refused from there on.
  lemma BadByteBreaksLog()
    ensures
      var bad := Record(1, "bearer", "failure", "token_missing", "api", [BadByte(0xFF)], [], [], []);
      var attempt := Attempt(bad, false, 300, true);
      Succeeds(512, attempt) && !Verify(Genesis, Run(512, [attempt]).log).1
  {
    var bad := Record(1, "bearer", "failure", "token_missing", "api", [BadByte(0xFF)], [], [], []);
    var attempt := Attempt(bad, false, 300, true);
    assert bad.requestId[0] == BadByte(0xFF);
    assert Length([BadByte(0xFF)]) == 1 && Length([]) == 0;
    LogIsAccepted(512, [attempt]);
    assert [attempt][0] == attempt;
  }

  lemma AcceptsWhatIsWritten(v: Chain, line: Line)
    ensures line.length != 0 && line.length <= MAX_RECORD_BYTES && Accepts(v, line) <==> WrittenAs(line, v.count, v.previous)
  {
    hide Valid, Encode, Decode;
  }

  lemma WrittenEnds(lines: seq<Line>)
    requires lines != []
    ensures
      var n := |lines| - 1;
      IsWritten(lines) <==> IsWritten(lines[..n]) && WrittenAs(lines[n], n, LastDigest(Records(lines[..n])))
  {
    hide WrittenAs, LastDigest, Records;
    var n := |lines| - 1;
    assert forall i :: 0 <= i < n ==> lines[..n][i] == lines[i] && lines[..n][..i] == lines[..i];
  }

  // The verifier accepts exactly the lines that a sink writes for the valid
  // records they hold: a line that is changed, dropped, repeated or moved is
  // refused, unless only a string is spelled otherwise.
  lemma {:induction false} AcceptedIsWritten(lines: seq<Line>)
    ensures Verify(Genesis, lines).1 <==> IsWritten(lines)
    ensures IsWritten(lines) ==> Verify(Genesis, lines).0 == Chain(|lines|, LastDigest(Records(lines)))
    decreases |lines|
  {
    hide Accepts, IsWritten, WrittenAs, DigestOf, LineOf, Verify, LastDigest, Records;
    if lines == [] {
      NothingWritten();
    } else {
      var n := |lines| - 1;
      var v := Chain(n, LastDigest(Records(lines[..n])));
      AcceptedIsWritten(lines[..n]);
      WrittenEnds(lines);
      AcceptsWhatIsWritten(v, lines[n]);
      VerifyAppends(Genesis, lines[..n], lines[n]);
      assert lines[..n] + [lines[n]] == lines;
      if WrittenAs(lines[n], n, v.previous) {
        DigestIsLast(lines, v);
      }
    }
  }

  lemma NothingWritten()
    ensures Verify(Genesis, []) == (Chain(0, LastDigest(Records([]))), true) && IsWritten([])
  {
  }

  lemma DigestIsLast(lines: seq<Line>, v: Chain)
    requires lines != [] && WrittenAs(lines[|lines| - 1], v.count, v.previous)
    requires v == Chain(|lines| - 1, LastDigest(Records(lines[..|lines| - 1])))
    ensures lines[|lines| - 1].envelope.Some?
    ensures DigestOf(v, lines[|lines| - 1].envelope.value) == LastDigest(Records(lines))
  {
    hide Valid, Encode, Decode;
    RecordsEnd(lines);
    var n := |lines| - 1;
    assert Records(lines)[..n] == Records(lines[..n]);
  }
}
