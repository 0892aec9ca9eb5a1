// The client of a server-sent event stream, as section 9.2.6 of the HTML Living
// Standard interprets it, and the round trip through the encoder.

module EventClient {
  import opened Common
  import opened EventFormat
  import opened Decimals

  datatype Dispatched = Dispatched(name: string, data: string, lastEventId: string)

  datatype Client = Client(data: string, name: string, idBuffer: string, lastEventId: string,
                           reconnection: Option<int>, events: seq<Dispatched>)

  function FirstColon(s: string): (r: nat)
    ensures r <= |s| && ':' !in s[..r]
    ensures r < |s| ==> s[r] == ':'
  {
    if s == "" || s[0] == ':' then 0
    else
      var r := 1 + FirstColon(s[1..]);
      assert s[..r] == [s[0]] + s[1..][..r - 1];
      r
  }

  function ProcessField(c: Client, field: string, value: string): Client {
    if field == "event" then c.(name := value)
    else if field == "data" then c.(data := c.data + value + "\n")
    else if field == "id" then (if '\0' in value then c else c.(idBuffer := value))
    else if field == "retry" then (if value != "" && AllDigits(value) then c.(reconnection := Some(Value(value))) else c)
    else c
  }

  function Dispatch(c: Client): Client {
    var d := c.(lastEventId := c.idBuffer);
    if d.data == "" then d.(name := "")
    else
      var data := if d.data[|d.data| - 1] == '\n' then d.data[..|d.data| - 1] else d.data;
      var name := if d.name == "" then "message" else d.name;
      d.(data := "", name := "", events := d.events + [Dispatched(name, data, d.lastEventId)])
  }

  function ProcessLine(c: Client, line: string): Client {
    if line == "" then Dispatch(c)
    else
      var i := FirstColon(line);
      if i == 0 then c
      else if i == |line| then ProcessField(c, line, "")
      else
        var value := line[i + 1..];
        ProcessField(c, line[..i], if value != "" && value[0] == ' ' then value[1..] else value)
  }

  // Lines end with CR LF, LF or CR; a last line without an end is discarded.
  function Parse(c: Client, s: string): Client
    decreases |s|
  {
    var i := FirstBreak(s);
    if i == |s| then c else Parse(ProcessLine(c, s[..i]), s[AfterBreak(s, i)..])
  }

  // CR LF and CR become LF.
  function Normalized(s: string): string
    decreases |s|
  {
    if s == "" then ""
    else if s[0] == '\r' then "\n" + Normalized(if |s| > 1 && s[1] == '\n' then s[2..] else s[1..])
    else [s[0]] + Normalized(s[1..])
  }

  // What an item of the stream means to the client.
  function Deliver(c: Client, item: Item): Client {
    match item
    case Heartbeat => c.(lastEventId := c.idBuffer)
    case Sent(e) =>
      var id := if e.id == "" then c.idBuffer else e.id;
      Client("", "", id, id, if e.retry > 0 then Some(e.retry / MILLISECOND) else c.reconnection,
             c.events + [Dispatched(if e.name == "" then "message" else e.name, Normalized(e.data), id)])
  }

  function DeliverAll(c: Client, items: seq<Item>): Client {
    if items == [] then c else Deliver(DeliverAll(c, items[..|items| - 1]), items[|items| - 1])
  }

  // Between two items nothing is buffered.
  predicate Clean(c: Client) {
    c.data == "" && c.name == ""
  }

  lemma LineIsProcessed(c: Client, line: string, rest: string)
    requires SingleLine(line)
    ensures Parse(c, line + "\n" + rest) == Parse(ProcessLine(c, line), rest)
  {
    var s := line + "\n" + rest;
    assert s[..|line|] == line;
    FirstBreakIs(s, |line|);
    assert s[|line| + 1..] == rest;
  }

  lemma {:induction false} FirstColonIs(s: string, i: nat)
    requires i < |s| && ':' !in s[..i] && s[i] == ':'
    ensures FirstColon(s) == i
  {
    if i > 0 {
      assert s[..i][0] == s[0];
      assert s[1..][..i - 1] == s[..i][1..];
      FirstColonIs(s[1..], i - 1);
    }
  }

  lemma FieldIsProcessed(c: Client, field: string, value: string, rest: string)
    requires SingleLine(field) && SingleLine(value) && ':' !in field && field != ""
    ensures Parse(c, Field(field + ": ", value) + rest) == Parse(ProcessField(c, field, value), rest)
  {
    hide Parse, ProcessField;
    var line := field + ": " + value;
    assert Field(field + ": ", value) + rest == line + "\n" + rest;
    LineIsProcessed(c, line, rest);
    assert line[..|field|] == field && line[|field|] == ':';
    FirstColonIs(line, |field|);
    assert line[|field| + 1..] == " " + value;
    assert (" " + value)[1..] == value;
  }

  function Joined(lines: seq<string>): string {
    if lines == [] then "" else lines[0] + "\n" + Joined(lines[1..])
  }

  lemma {:induction false} DataIsProcessed(c: Client, lines: seq<string>, rest: string)
    requires forall i :: 0 <= i < |lines| ==> SingleLine(lines[i])
    ensures Parse(c, DataFields(lines) + rest) == Parse(c.(data := c.data + Joined(lines)), rest)
    decreases |lines|
  {
    hide Parse, ProcessField;
    if lines == [] {
      assert DataFields(lines) + rest == rest && c.data + Joined(lines) == c.data;
    } else {
      var tail := DataFields(lines[1..]) + rest;
      assert DataFields(lines) + rest == Field("data" + ": ", lines[0]) + tail;
      FieldIsProcessed(c, "data", lines[0], tail);
      DataField(c, lines[0]);
      var d := c.(data := c.data + lines[0] + "\n");
      DataIsProcessed(d, lines[1..], rest);
      assert c.data + Joined(lines) == d.data + Joined(lines[1..]);
    }
  }

  lemma DataField(c: Client, value: string)
    ensures ProcessField(c, "data", value) == c.(data := c.data + value + "\n")
  {
  }

  // The lines of the data, joined by LF, are its normalised form.
  lemma BreakIsNormalized(s: string)
    requires s != "" && BreakAt(s, 0)
    ensures Normalized(s) == "\n" + Normalized(s[AfterBreak(s, 0)..])
  {
  }

  lemma {:induction false} NormalizedUpTo(s: string, i: nat)
    requires i == FirstBreak(s)
    ensures Normalized(s) == if i == |s| then s else s[..i] + ("\n" + Normalized(s[AfterBreak(s, i)..]))
  {
    hide Normalized;
    if s == "" {
      assert Normalized("") == "" by { NothingNormalized(); }
    } else if i == 0 {
      BreakIsNormalized(s);
      assert s[..0] == "";
    } else {
      NormalizedUpTo(s[1..], i - 1);
      OtherIsNormalized(s);
      SplitFirst(s, i);
    }
  }

  lemma NothingNormalized()
    ensures Normalized("") == ""
  {
  }

  lemma OtherIsNormalized(s: string)
    requires s != "" && !BreakAt(s, 0)
    ensures Normalized(s) == [s[0]] + Normalized(s[1..]) && s == [s[0]] + s[1..]
  {
  }

  lemma SplitFirst(s: string, i: nat)
    requires 0 < i <= |s|
    ensures s[..i] == [s[0]] + s[1..][..i - 1]
    ensures i < |s| ==> s[1..][AfterBreak(s[1..], i - 1)..] == s[AfterBreak(s, i)..]
  {
    assert s[1..][..i - 1] == s[1..i];
    assert s[..i] == [s[0]] + s[1..i];
    if i < |s| {
      assert AfterBreak(s[1..], i - 1) == AfterBreak(s, i) - 1;
      DropTwice(s, 1, AfterBreak(s, i));
    }
  }

  lemma DropTwice(s: string, i: nat, j: nat)
    requires i <= j <= |s|
    ensures s[i..][j - i..] == s[j..]
  {
  }

  lemma {:induction false} LinesAreNormalized(data: string)
    ensures Joined(DataLines(data)) == Normalized(data) + "\n"
    ensures forall i :: 0 <= i < |DataLines(data)| ==> SingleLine(DataLines(data)[i])
    decreases |data|
  {
    hide Normalized, FirstBreak, AfterBreak, SingleLine;
    var i := FirstBreak(data);
    NormalizedUpTo(data, i);
    if i < |data| {
      var rest := data[AfterBreak(data, i)..];
      LinesAreNormalized(rest);
      assert ([data[..i]] + DataLines(rest))[1..] == DataLines(rest);
    } else {
      var none: seq<string> := [];
      assert data[..i] == data && [data][1..] == none && Joined(none) == "";
    }
  }

  lemma OptionalIsProcessed(c: Client, field: string, value: string, rest: string)
    requires SingleLine(field) && SingleLine(value) && ':' !in field && field != ""
    ensures Parse(c, OptionalField(field + ": ", value) + rest) ==
            Parse(if value == "" then c else ProcessField(c, field, value), rest)
  {
    hide Parse, ProcessField;
    if value == "" {
      assert OptionalField(field + ": ", value) + rest == rest;
    } else {
      FieldIsProcessed(c, field, value, rest);
    }
  }

  // The client after the fields before the data.
  function Headed(c: Client, e: Event): Client
    requires Valid(e)
  {
    var c1 := if e.id == "" then c else c.(idBuffer := e.id);
    var c2 := if e.name == "" then c1 else c1.(name := e.name);
    if e.retry > 0 then c2.(reconnection := Some(e.retry / MILLISECOND)) else c2
  }

  lemma HeadIsProcessed(c: Client, e: Event, rest: string)
    requires Valid(e)
    ensures Parse(c, OptionalField("id: ", e.id) + (OptionalField("event: ", e.name)
                       + (OptionalField("retry: ", Milliseconds(e)) + rest))) == Parse(Headed(c, e), rest)
  {
    hide Parse, OptionalField, Milliseconds;
    var c1 := if e.id == "" then c else ProcessField(c, "id", e.id);
    var c2 := if e.name == "" then c1 else ProcessField(c1, "event", e.name);
    RetryIsProcessed(c2, e, rest);
    OptionalIsProcessed(c1, "event", e.name, OptionalField("retry: ", Milliseconds(e)) + rest);
    OptionalIsProcessed(c, "id", e.id, OptionalField("event: ", e.name) + (OptionalField("retry: ", Milliseconds(e)) + rest));
    assert "id" + ": " == "id: " && "event" + ": " == "event: ";
  }

  lemma RetryIsProcessed(c: Client, e: Event, rest: string)
    requires Valid(e)
    ensures Parse(c, OptionalField("retry: ", Milliseconds(e)) + rest) ==
            Parse(if e.retry > 0 then c.(reconnection := Some(e.retry / MILLISECOND)) else c, rest)
  {
    hide Parse;
    if e.retry > 0 {
      DecimalIsInvertible(e.retry / MILLISECOND);
      DigitsAreSingleLine(Milliseconds(e));
    }
    OptionalIsProcessed(c, "retry", Milliseconds(e), rest);
    assert "retry" + ": " == "retry: ";
  }

  lemma DigitsAreSingleLine(s: string)
    requires AllDigits(s)
    ensures SingleLine(s)
  {
  }

  lemma EventIsDelivered(c: Client, e: Event, rest: string)
    requires Clean(c) && Valid(e)
    ensures Parse(c, Encode(e) + rest) == Parse(Deliver(c, Sent(e)), rest)
  {
    hide Parse, OptionalField, Milliseconds, DataFields, DataLines, Normalized;
    var lines := DataLines(e.data);
    var d := Headed(c, e);
    LinesAreNormalized(e.data);
    GroupRight(OptionalField("id: ", e.id), OptionalField("event: ", e.name), OptionalField("retry: ", Milliseconds(e)),
               DataFields(lines), "\n", rest);
    HeadIsProcessed(c, e, DataFields(lines) + ("\n" + rest));
    DataIsProcessed(d, lines, "\n" + rest);
    var filled := d.(data := d.data + Joined(lines));
    LineIsProcessed(filled, "", rest);
    assert "" + "\n" + rest == "\n" + rest;
    Dispatches(c, e);
  }

  lemma GroupRight(a: string, b: string, c: string, d: string, e: string, f: string)
    ensures a + b + c + d + e + f == a + (b + (c + (d + (e + f))))
  {
  }

  // The blank line turns the buffered fields into the event.
  lemma Dispatches(c: Client, e: Event)
    requires Clean(c) && Valid(e)
    ensures
      var d := Headed(c, e);
      ProcessLine(d.(data := d.data + (Normalized(e.data) + "\n")), "") == Deliver(c, Sent(e))
  {
    hide Normalized;
    var data := Normalized(e.data) + "\n";
    assert "" + data == data && data[..|data| - 1] == Normalized(e.data);
  }

  lemma HeartbeatIsIgnored(c: Client, rest: string)
    requires Clean(c)
    ensures Parse(c, HEARTBEAT + rest) == Parse(Deliver(c, Heartbeat), rest)
  {
    hide Parse;
    assert HEARTBEAT + rest == ": heartbeat" + "\n" + ("" + "\n" + rest);
    LineIsProcessed(c, ": heartbeat", "" + "\n" + rest);
    FirstColonIs(": heartbeat", 0);
    LineIsProcessed(c, "", rest);
  }

  // Reading any sequence of encoded events with heartbeats between them yields
  // exactly those events, with the line ends of their data normalised.
  lemma {:induction false} RoundTrip(c: Client, items: seq<Item>, rest: string)
    requires Clean(c) && forall i :: 0 <= i < |items| ==> ValidItem(items[i])
    ensures Parse(c, EncodeStream(items) + rest) == Parse(DeliverAll(c, items), rest)
    ensures Clean(DeliverAll(c, items))
    decreases |items|
  {
    hide Parse, Encode, Normalized;
    if items == [] {
      assert EncodeStream(items) + rest == rest;
    } else {
      var last, before := items[|items| - 1], items[..|items| - 1];
      RoundTrip(c, before, EncodeItem(last) + rest);
      Regroup(EncodeStream(before), EncodeItem(last), rest);
      var d := DeliverAll(c, before);
      if last.Sent? {
        EventIsDelivered(d, last.event, rest);
      } else {
        HeartbeatIsIgnored(d, rest);
      }
    }
  }

  lemma Regroup(a: string, b: string, c: string)
    ensures a + (b + c) == (a + b) + c
  {
  }

  // The whole stream of a fresh client.
  lemma StreamIsRead(items: seq<Item>)
    requires forall i :: 0 <= i < |items| ==> ValidItem(items[i])
    ensures Parse(Client("", "", "", "", None, []), EncodeStream(items)) == DeliverAll(Client("", "", "", "", None, []), items)
  {
    var c := Client("", "", "", "", None, []);
    RoundTrip(c, items, "");
    assert EncodeStream(items) + "" == EncodeStream(items);
  }
}
