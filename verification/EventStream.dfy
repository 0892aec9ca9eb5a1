// Server-sent events (Framework/httpapi/event_stream.go): the encoder with its
// precomputed length, and the client side of section 9.2 of the HTML Living
// Standard that reads the stream back. Strings are byte sequences.

module EventFormat {
  import opened Decimals

  const MAX_EVENT_BYTES := 0x10_0000
  const MILLISECOND := 1_000_000
  const HEARTBEAT := ": heartbeat\n\n"

  // A retry is in nanoseconds; zero means none.
  datatype Event = Event(id: string, name: string, data: string, retry: int)

  predicate SingleLine(s: string) {
    '\r' !in s && '\n' !in s
  }

  predicate Between(c: char, low: int, high: int) {
    low <= c as int <= high
  }

  // Well-formed UTF-8, by table 3-7 of the Unicode Standard.
  predicate Utf8(s: string) {
    var n := |s|;
    if n == 0 then true
    else if Between(s[0], 0, 0x7F) then Utf8(s[1..])
    else if Between(s[0], 0xC2, 0xDF) then n >= 2 && Between(s[1], 0x80, 0xBF) && Utf8(s[2..])
    else if Between(s[0], 0xE0, 0xEF) then
      && n >= 3 && Between(s[1], if s[0] as int == 0xE0 then 0xA0 else 0x80, if s[0] as int == 0xED then 0x9F else 0xBF)
      && Between(s[2], 0x80, 0xBF) && Utf8(s[3..])
    else if Between(s[0], 0xF0, 0xF4) then
      && n >= 4 && Between(s[1], if s[0] as int == 0xF0 then 0x90 else 0x80, if s[0] as int == 0xF4 then 0x8F else 0xBF)
      && Between(s[2], 0x80, 0xBF) && Between(s[3], 0x80, 0xBF) && Utf8(s[4..])
    else false
  }

  // The code points that UTF-8 can encode, and their encodings.
  predicate CodePoint(p: int) {
    0 <= p < 0xD800 || 0xE000 <= p < 0x11_0000
  }

  function EncodePoint(p: int): (r: string)
    requires CodePoint(p)
    ensures r != ""
  {
    if p < 0x80 then [p as char]
    else if p < 0x800 then [(0xC0 + p / 0x40) as char, Continuation(p)]
    else if p < 0x1_0000 then [(0xE0 + p / 0x1000) as char, Continuation(p / 0x40), Continuation(p)]
    else [(0xF0 + p / 0x4_0000) as char, Continuation(p / 0x1000), Continuation(p / 0x40), Continuation(p)]
  }

  function Continuation(p: int): char {
    (0x80 + p % 0x40) as char
  }

  ghost predicate IsText(points: seq<int>, s: string) {
    if points == [] then s == ""
    else
      && CodePoint(points[0])
      && EncodePoint(points[0]) <= s && IsText(points[1..], s[|EncodePoint(points[0])|..])
  }

  // One code point at the front.
  lemma PointIsUtf8(p: int, rest: string)
    requires CodePoint(p)
    ensures Utf8(EncodePoint(p) + rest) <==> Utf8(rest)
  {
    var front := EncodePoint(p);
    var s := front + rest;
    assert s[|front|..] == rest;
    if p < 0x80 {
      assert s[0] == front[0];
    } else if p < 0x800 {
      assert s[0] == front[0] && s[1] == front[1];
    } else if p < 0x1_0000 {
      assert s[0] == front[0] && s[1] == front[1] && s[2] == front[2];
    } else {
      assert s[0] == front[0] && s[1] == front[1] && s[2] == front[2] && s[3] == front[3];
    }
  }

  lemma ThreeDigits(a: int, b: int, c: int) returns (p: int)
    requires 0 <= b < 0x40 && 0 <= c < 0x40
    ensures p == a * 0x1000 + b * 0x40 + c
    ensures p / 0x1000 == a && p / 0x40 == a * 0x40 + b && p / 0x40 % 0x40 == b && p % 0x40 == c
  {
    p := a * 0x1000 + b * 0x40 + c;
    assert p / 0x40 == a * 0x40 + b;
  }

  // The code point that a string starts with.
  lemma Utf8Starts(s: string) returns (p: int)
    requires s != "" && Utf8(s)
    ensures CodePoint(p) && EncodePoint(p) <= s
  {
    var a := s[0] as int;
    if a <= 0x7F {
      p := a;
    } else if a <= 0xDF {
      p := (a - 0xC0) * 0x40 + (s[1] as int - 0x80);
    } else if a <= 0xEF {
      hide Utf8;
      p := ThreeDigits(a - 0xE0, s[1] as int - 0x80, s[2] as int - 0x80);
    } else {
      hide Utf8;
      var high := (a - 0xF0) * 0x40 + (s[1] as int - 0x80);
      p := ThreeDigits(high, s[2] as int - 0x80, s[3] as int - 0x80);
    }
  }

  lemma {:induction false} TextIsUtf8(points: seq<int>, s: string)
    requires IsText(points, s)
    ensures Utf8(s)
  {
    if points != [] {
      var front := EncodePoint(points[0]);
      TextIsUtf8(points[1..], s[|front|..]);
      PointIsUtf8(points[0], s[|front|..]);
      assert s == front + s[|front|..];
    }
  }

  lemma {:induction false} Utf8IsText(s: string) returns (points: seq<int>)
    requires Utf8(s)
    ensures IsText(points, s)
    decreases |s|
  {
    hide Utf8, EncodePoint;
    points := [];
    if s != "" {
      var p := Utf8Starts(s);
      var n := |EncodePoint(p)|;
      assert s == EncodePoint(p) + s[n..];
      PointIsUtf8(p, s[n..]);
      var rest := Utf8IsText(s[n..]);
      points := [p] + rest;
      assert points[1..] == rest;
    }
  }

  // A string is accepted exactly when it is the encoding of some code points.
  lemma Utf8Exactly(s: string)
    ensures Utf8(s) <==> exists points :: IsText(points, s)
  {
    hide Utf8, IsText;
    if Utf8(s) {
      var points := Utf8IsText(s);
    }
    forall points | IsText(points, s) ensures Utf8(s) {
      TextIsUtf8(points, s);
    }
  }

  predicate Valid(e: Event) {
    && SingleLine(e.id) && '\0' !in e.id && SingleLine(e.name)
    && Utf8(e.id) && Utf8(e.name) && Utf8(e.data)
    && e.retry >= 0 && e.retry % MILLISECOND == 0
  }

  function Field(prefix: string, value: string): string {
    prefix + value + "\n"
  }

  function OptionalField(prefix: string, value: string): string {
    if value == "" then "" else Field(prefix, value)
  }

  function Milliseconds(e: Event): string
    requires e.retry >= 0
  {
    if e.retry == 0 then "" else Decimal(e.retry / MILLISECOND)
  }

  predicate BreakAt(s: string, i: nat)
    requires i < |s|
  {
    s[i] == '\r' || s[i] == '\n'
  }

  // Where the line after a break at i begins: CR LF is one break.
  function AfterBreak(s: string, i: nat): (r: nat)
    requires i < |s|
    ensures i < r <= |s|
  {
    if s[i] == '\r' && i + 1 < |s| && s[i + 1] == '\n' then i + 2 else i + 1
  }

  // The first break of a string, or its length.
  function FirstBreak(s: string): (r: nat)
    ensures r <= |s| && SingleLine(s[..r])
    ensures r < |s| ==> BreakAt(s, r)
  {
    if s == "" || BreakAt(s, 0) then 0
    else
      var r := 1 + FirstBreak(s[1..]);
      assert s[..r] == [s[0]] + s[1..][..r - 1];
      r
  }

  // The lines of the data, as CR, LF and CR LF break it.
  function DataLines(data: string): (r: seq<string>)
    ensures |r| >= 1
    decreases |data|
  {
    var i := FirstBreak(data);
    if i == |data| then [data] else [data[..i]] + DataLines(data[AfterBreak(data, i)..])
  }

  // What a stream carries between its events.
  datatype Item = Sent(event: Event) | Heartbeat

  predicate Fits(item: Item, maxBytes: int) {
    item.Sent? ==> 0 < maxBytes <= 0x10_0000 && Valid(item.event) && |Encode(item.event)| <= maxBytes
  }

  predicate ValidItem(item: Item) {
    item.Sent? ==> Valid(item.event)
  }

  function EncodeItem(item: Item): string
    requires ValidItem(item)
  {
    if item.Sent? then Encode(item.event) else HEARTBEAT
  }

  function EncodeStream(items: seq<Item>): string
    requires forall i :: 0 <= i < |items| ==> ValidItem(items[i])
  {
    if items == [] then "" else EncodeStream(items[..|items| - 1]) + EncodeItem(items[|items| - 1])
  }

  function DataFields(lines: seq<string>): string {
    if lines == [] then "" else Field("data: ", lines[0]) + DataFields(lines[1..])
  }

  function Encode(e: Event): string
    requires Valid(e)
  {
    OptionalField("id: ", e.id) + OptionalField("event: ", e.name) + OptionalField("retry: ", Milliseconds(e))
    + DataFields(DataLines(e.data)) + "\n"
  }

  // The encoded fields of the data from `start`, the beginning of a line.
  function RestFields(data: string, start: nat): string
    requires start <= |data|
  {
    DataFields(DataLines(data[start..]))
  }

  lemma {:induction false} FirstBreakIs(s: string, i: nat)
    requires i < |s| && SingleLine(s[..i]) && BreakAt(s, i)
    ensures FirstBreak(s) == i
  {
    if i > 0 {
      assert s[..i][0] == s[0];
      assert s[1..][..i - 1] == s[..i][1..];
      FirstBreakIs(s[1..], i - 1);
    }
  }

  // A break ends the line that began at `start`.
  lemma BreakEndsLine(data: string, start: nat, index: nat)
    requires start <= index < |data| && SingleLine(data[start..index]) && BreakAt(data, index)
    ensures RestFields(data, start) == Field("data: ", data[start..index]) + RestFields(data, AfterBreak(data, index))
  {
    var rest := data[start..];
    var i := index - start;
    assert rest[..i] == data[start..index];
    FirstBreakIs(rest, i);
    assert rest[AfterBreak(rest, i)..] == data[AfterBreak(data, index)..];
    var tail := DataLines(data[AfterBreak(data, index)..]);
    assert DataLines(rest) == [rest[..i]] + tail;
    assert ([rest[..i]] + tail)[1..] == tail;
  }

  lemma LastLine(data: string, start: nat)
    requires start <= |data| && SingleLine(data[start..])
    ensures RestFields(data, start) == Field("data: ", data[start..])
  {
    var s := data[start..];
    assert forall i :: 0 <= i < |s| ==> s[i] in s && !BreakAt(s, i);
    var none: seq<string> := [];
    assert DataLines(s) == [s] && [s][1..] == none;
    assert DataFields([s]) == Field("data: ", s) + DataFields(none) && DataFields(none) == "";
  }

  lemma {:induction false} FieldsCoverData(data: string)
    ensures |DataFields(DataLines(data))| > |data|
    decreases |data|
  {
    var i := FirstBreak(data);
    if i < |data| {
      var rest := data[AfterBreak(data, i)..];
      FieldsCoverData(rest);
      assert ([data[..i]] + DataLines(rest))[1..] == DataLines(rest);
    } else {
      var none: seq<string> := [];
      assert [data][1..] == none;
    }
  }

  lemma ScanOn(data: string, start: nat, index: nat)
    requires start <= index < |data| && SingleLine(data[start..index]) && !BreakAt(data, index)
    ensures SingleLine(data[start..index + 1])
  {
    assert data[start..index + 1] == data[start..index] + [data[index]];
  }

  // Both loops over the data skip the LF of a CR LF.
  method DataEncodedLength(data: string) returns (length: nat)
    ensures length == |DataFields(DataLines(data))|
  {
    hide RestFields;
    WholeData(data);
    length := 0;
    var start, index := 0, 0;
    while index < |data|
      invariant start <= index && start <= |data| && index <= |data|
      invariant SingleLine(data[start..index])
      invariant length + |RestFields(data, start)| == |DataFields(DataLines(data))|
    {
      if data[index] != '\r' && data[index] != '\n' {
        ScanOn(data, start, index);
        index := index + 1;
      } else {
        BreakEndsLine(data, start, index);
        length := length + |"data: \n"| + index - start;
        if data[index] == '\r' && index + 1 < |data| && data[index + 1] == '\n' {
          index := index + 1;
        }
        start := index + 1;
        index := index + 1;
      }
    }
    assert data[start..index] == data[start..];
    LastLine(data, start);
    return length + |"data: \n"| + |data| - start;
  }

  lemma WholeData(data: string)
    ensures RestFields(data, 0) == DataFields(DataLines(data))
  {
    assert data[0..] == data;
  }
}

// The writer of a stream, over a connection that takes a number of bytes and then
// fails.

module EventWriter {
  import opened EventFormat
  import opened Decimals

  // What a connection with that limit lets through.
  function Cut(limit: nat, s: string): string {
    if |s| <= limit then s else s[..limit]
  }

  lemma CutStays(limit: nat, a: string, b: string)
    ensures |a| > limit ==> Cut(limit, a + b) == Cut(limit, a)
  {
  }

  class Writer {
    const limit: nat
    var written: string

    predicate Valid()
      reads this
    {
      |written| <= limit
    }

    constructor (limit: nat)
      ensures Valid() && this.limit == limit && written == ""
    {
      this.limit := limit;
      written := "";
    }

    method WriteString(s: string) returns (ok: bool)
      requires Valid()
      modifies this
      ensures Valid()
      ensures ok <==> |old(written) + s| <= limit
      ensures written == Cut(limit, old(written) + s)
    {
      ok := |written + s| <= limit;
      written := Cut(limit, written + s);
    }

    method WriteField(prefix: string, value: string) returns (ok: bool)
      requires Valid()
      modifies this
      ensures Valid()
      ensures ok <==> |old(written) + Field(prefix, value)| <= limit
      ensures written == Cut(limit, old(written) + Field(prefix, value))
    {
      ghost var w := written;
      CutStays(limit, w + prefix, value + "\n");
      CutStays(limit, w + prefix + value, "\n");
      assert w + Field(prefix, value) == w + prefix + (value + "\n") == w + prefix + value + "\n";
      ok := WriteString(prefix);
      if ok {
        ok := WriteString(value);
        if ok {
          ok := WriteString("\n");
        }
      }
    }

    method WriteData(data: string) returns (ok: bool)
      requires Valid()
      modifies this
      ensures Valid()
      ensures ok <==> |old(written) + DataFields(DataLines(data))| <= limit
      ensures written == Cut(limit, old(written) + DataFields(DataLines(data)))
    {
      hide RestFields, DataFields, DataLines, Field;
      WholeData(data);
      var start, index := 0, 0;
      while index < |data|
        invariant start <= index && start <= |data| && index <= |data|
        invariant SingleLine(data[start..index])
        invariant Valid()
        invariant written + RestFields(data, start) == old(written) + DataFields(DataLines(data))
      {
        if data[index] != '\r' && data[index] != '\n' {
          ScanOn(data, start, index);
          index := index + 1;
        } else {
          BreakEndsLine(data, start, index);
          Regroup(written, Field("data: ", data[start..index]), RestFields(data, AfterBreak(data, index)));
          CutStays(limit, written + Field("data: ", data[start..index]), RestFields(data, AfterBreak(data, index)));
          ok := WriteField("data: ", data[start..index]);
          if !ok {
            return;
          }
          if data[index] == '\r' && index + 1 < |data| && data[index + 1] == '\n' {
            index := index + 1;
          }
          start := index + 1;
          index := index + 1;
        }
      }
      assert data[start..index] == data[start..];
      LastLine(data, start);
      ok := WriteField("data: ", data[start..]);
    }

    // An event goes out exactly when it is valid, its encoding, whose length is
    // known beforehand, fits, and the connection takes it. An event that is
    // refused sends nothing, and a failing connection gets no other bytes.
    method WriteEvent(e: Event, maxBytes: int) returns (ok: bool)
      requires Valid()
      modifies this
      ensures Valid()
      ensures !Fits(Sent(e), maxBytes) ==> !ok && written == old(written)
      ensures Fits(Sent(e), maxBytes) ==>
                && (ok <==> |old(written) + Encode(e)| <= limit)
                && written == Cut(limit, old(written) + Encode(e))
    {
      if maxBytes <= 0 || maxBytes > MAX_EVENT_BYTES || !EventFormat.Valid(e) {
        return false;
      }
      LengthOf(e);
      if |e.id| > maxBytes || |e.name| > maxBytes || |e.data| > maxBytes {
        return false;
      }
      var encodedLength := EncodedLength(e);
      if encodedLength > maxBytes {
        return false;
      }
      ok := WriteFields(e);
    }

    method WriteFields(e: Event) returns (ok: bool)
      requires Valid() && EventFormat.Valid(e)
      modifies this
      ensures Valid()
      ensures ok <==> |old(written) + Encode(e)| <= limit
      ensures written == Cut(limit, old(written) + Encode(e))
    {
      hide OptionalField, DataFields, DataLines, Milliseconds, Cut;
      ghost var w := written;
      ghost var a, b, c, d := OptionalField("id: ", e.id), OptionalField("event: ", e.name),
        OptionalField("retry: ", Milliseconds(e)), DataFields(DataLines(e.data));
      RegroupAll(w, a, b, c, d, "\n");
      CutsStay(limit, w, a, b, c, d, "\n");
      ok := WriteOptional("id: ", e.id);
      if !ok {
        return;
      }
      WholePasses(limit, w + a);
      ok := WriteOptional("event: ", e.name);
      if !ok {
        return;
      }
      WholePasses(limit, w + a + b);
      ok := WriteOptional("retry: ", Milliseconds(e));
      if !ok {
        return;
      }
      WholePasses(limit, w + a + b + c);
      ok := WriteData(e.data);
      if !ok {
        return;
      }
      WholePasses(limit, w + a + b + c + d);
      ok := WriteString("\n");
    }

    method WriteOptional(prefix: string, value: string) returns (ok: bool)
      requires Valid()
      modifies this
      ensures Valid()
      ensures ok <==> |old(written) + OptionalField(prefix, value)| <= limit
      ensures written == Cut(limit, old(written) + OptionalField(prefix, value))
    {
      if value == "" {
        assert written + "" == written;
        return true;
      }
      ok := WriteField(prefix, value);
    }

    // The items are what the stream selects until its channel closes or its
    // context ends. It ends early at the first event that cannot be written, or
    // when the connection fails in the middle of an item.
    method RunStream(items: seq<Item>, maxBytes: int) returns (sent: nat)
      requires Valid()
      modifies this
      ensures Valid()
      ensures sent <= |items|
      ensures forall i :: 0 <= i < sent ==> Fits(items[i], maxBytes) && ValidItem(items[i])
      ensures sent < |items| && Fits(items[sent], maxBytes) ==>
                && ValidItem(items[sent]) && |old(written) + EncodeStream(items[..sent + 1])| > limit
                && written == Cut(limit, old(written) + EncodeStream(items[..sent + 1]))
      ensures sent == |items| || !Fits(items[sent], maxBytes) ==> written == old(written) + EncodeStream(items[..sent])
    {
      hide Encode, EncodeStream, EncodeItem, Cut, Fits, ValidItem;
      sent := 0;
      NothingSent();
      while sent < |items|
        invariant sent <= |items|
        invariant forall i :: 0 <= i < sent ==> Fits(items[i], maxBytes) && ValidItem(items[i])
        invariant Valid() && written == old(written) + EncodeStream(items[..sent])
      {
        FittingIsValid(items, sent, maxBytes);
        if Fits(items[sent], maxBytes) {
          OneMoreSent(items, sent);
          Regroup(old(written), EncodeStream(items[..sent]), EncodeItem(items[sent]));
          WholePasses(limit, old(written) + EncodeStream(items[..sent + 1]));
        }
        var ok := WriteItem(items[sent], maxBytes);
        if !ok {
          return;
        }
        sent := sent + 1;
      }
    }

    method WriteItem(item: Item, maxBytes: int) returns (ok: bool)
      requires Valid()
      modifies this
      ensures Valid()
      ensures !Fits(item, maxBytes) ==> !ok && written == old(written)
      ensures Fits(item, maxBytes) ==>
                && ValidItem(item)
                && (ok <==> |old(written) + EncodeItem(item)| <= limit)
                && written == Cut(limit, old(written) + EncodeItem(item))
    {
      hide Encode;
      if item.Sent? {
        ok := WriteEvent(item.event, maxBytes);
      } else {
        ok := WriteString(HEARTBEAT);
      }
    }
  }

  lemma NothingSent()
    ensures EncodeStream([]) == ""
  {
  }

  lemma FittingIsValid(items: seq<Item>, i: nat, maxBytes: int)
    requires i < |items| && forall j :: 0 <= j < i ==> ValidItem(items[j])
    ensures Fits(items[i], maxBytes) ==> forall j :: 0 <= j <= i ==> ValidItem(items[j])
  {
    hide Valid, Encode;
  }

  lemma OneMoreSent(items: seq<Item>, i: nat)
    requires i < |items| && forall j :: 0 <= j <= i ==> ValidItem(items[j])
    ensures EncodeStream(items[..i + 1]) == EncodeStream(items[..i]) + EncodeItem(items[i])
  {
    hide ValidItem, EncodeItem;
    assert items[..i + 1][..i] == items[..i];
  }

  lemma WholePasses(limit: nat, s: string)
    ensures |s| <= limit ==> Cut(limit, s) == s
  {
  }

  // A connection that fails within a part has failed for the whole.
  lemma CutsStay(limit: nat, w: string, a: string, b: string, c: string, d: string, e: string)
    ensures
      var s := w + a + b + c + d + e;
      && (|w + a| > limit ==> |s| > limit && Cut(limit, s) == Cut(limit, w + a))
      && (|w + a + b| > limit ==> |s| > limit && Cut(limit, s) == Cut(limit, w + a + b))
      && (|w + a + b + c| > limit ==> |s| > limit && Cut(limit, s) == Cut(limit, w + a + b + c))
      && (|w + a + b + c + d| > limit ==> |s| > limit && Cut(limit, s) == Cut(limit, w + a + b + c + d))
  {
    hide Cut;
    CutStays(limit, w + a + b + c + d, e);
    CutStays(limit, w + a + b + c, d);
    CutStays(limit, w + a + b, c);
    CutStays(limit, w + a, b);
  }

  method EncodedLength(e: Event) returns (encodedLength: nat)
    requires Valid(e)
    ensures encodedLength == |Encode(e)|
  {
    hide DataFields, DataLines;
    var retryMilliseconds := if e.retry > 0 then Decimal(e.retry / MILLISECOND) else "";
    encodedLength := 1;
    if e.id != "" {
      encodedLength := encodedLength + |"id: \n"| + |e.id|;
    }
    if e.name != "" {
      encodedLength := encodedLength + |"event: \n"| + |e.name|;
    }
    if retryMilliseconds != "" {
      encodedLength := encodedLength + |"retry: \n"| + |retryMilliseconds|;
    }
    var dataLength := DataEncodedLength(e.data);
    encodedLength := encodedLength + dataLength;
  }

  lemma RegroupAll(a: string, b: string, c: string, d: string, e: string, f: string)
    ensures a + b + c + d + e + f == a + (b + c + d + e + f)
  {
  }

  lemma Regroup(a: string, b: string, c: string)
    ensures a + (b + c) == (a + b) + c
  {
  }

  lemma LengthOf(e: Event)
    requires Valid(e)
    ensures |Encode(e)| >= |e.id| && |Encode(e)| >= |e.name| && |Encode(e)| >= |e.data|
  {
    hide DataFields, DataLines;
    FieldsCoverData(e.data);
  }
}
