/** What a client that follows the standard hears of a stream that `Sse.Context.Encode` has written. */
module SseRoundTrip {
  import opened Wrappers
  import opened EventStream
  import opened Sse

  // ---------- What should be heard ----------

  function Joined(lines: seq<string>): string {
    if lines == [] then [] else if |lines| == 1 then lines[0] else lines[0] + "\n" + Joined(lines[1..])
  }

  function StripEach(lines: seq<string>): (r: seq<string>)
    ensures |r| == |lines| && forall i :: 0 <= i < |r| ==> r[i] == StripSpace(lines[i])
  {
    if lines == [] then [] else [StripSpace(lines[0])] + StripEach(lines[1..])
  }

  /** A field's text as the client gets it: escaped, less one leading space. */
  function HeardField(s: string): string {
    StripSpace(FieldEscape(s))
  }

  /** The payload as the client gets it: every line less one leading space. */
  function HeardData(data: Payload): string {
    Joined(StripEach(PayloadLines(data)))
  }

  /** The standard has a client ignore an id with a NUL character. */
  function IdAfter(last: string, id: string): string {
    if id == [] || '\0' in id then last else HeardField(id)
  }

  function HeardType(event: string): string {
    if HeardField(event) == [] then "message" else HeardField(event)
  }

  function Hear(client: Client, e: Event): Client {
    var id := IdAfter(client.lastEventId, e.id);
    client.(lastEventId := id,
            reconnection := if e.retry > 0 then Some(e.retry) else client.reconnection,
            messages := client.messages + [Message(HeardType(e.event), HeardData(e.data), id)])
  }

  function HearAll(client: Client, events: seq<Event>): Client
    decreases |events|
  {
    if events == [] then client else HearAll(Hear(client, events[0]), events[1..])
  }

  /** The events whose payload can be encoded. */
  function Encodable(events: seq<Event>): seq<Event> {
    if events == [] then [] else (if Encodes(events[0]) then [events[0]] else []) + Encodable(events[1..])
  }

  // ---------- Splitting the stream into lines ----------

  ghost predicate AllOnOneLine(lines: seq<string>) {
    forall i :: 0 <= i < |lines| ==> OnOneLine(lines[i])
  }

  lemma {:induction false} OneLineRead(line: string, rest: string, before: string)
    requires OnOneLine(line)
    ensures Lines(line + "\n" + rest, before) == [before + line] + Lines(rest, [])
    decreases |line|
  {
    var s := line + "\n" + rest;
    if line == [] {
      assert s == "\n" + rest && s[1..] == rest;
      assert before + line == before;
    } else {
      assert s[0] == line[0] && line[0] in line;
      assert s[1..] == line[1..] + "\n" + rest;
      assert before + [line[0]] + line[1..] == before + line;
      OneLineRead(line[1..], rest, before + [line[0]]);
    }
  }

  lemma FirstAndRest(lines: seq<string>, more: seq<string>)
    requires lines != []
    ensures [lines[0]] + (lines[1..] + more) == lines + more
  {
  }

  lemma {:induction false} UnlinesRead(lines: seq<string>, rest: string)
    requires AllOnOneLine(lines)
    ensures Lines(Unlines(lines) + rest, []) == lines + Lines(rest, [])
    decreases |lines|
  {
    if lines == [] {
      assert Unlines(lines) + rest == rest;
    } else {
      var more := Unlines(lines[1..]) + rest;
      Assoc(lines[0] + "\n", Unlines(lines[1..]), rest);
      OneLineRead(lines[0], more, []);
      assert [] + lines[0] == lines[0];
      UnlinesRead(lines[1..], rest);
      FirstAndRest(lines, Lines(rest, []));
    }
  }

  lemma {:induction false} FieldEscapeOnOneLine(s: string)
    ensures OnOneLine(FieldEscape(s))
    ensures '\0' in FieldEscape(s) <==> '\0' in s
    ensures FieldEscape(s) == [] <==> s == []
  {
    if s != [] {
      FieldEscapeOnOneLine(s[1..]);
    }
  }

  lemma {:induction false} TextLinesOnOneLine(text: string)
    ensures AllOnOneLine(TextLines(text))
    decreases |text|
  {
    if text != [] {
      TextLinesOnOneLine(text[1..]);
    }
  }

  lemma {:induction false} DecimalReads(n: nat)
    ensures AllDigits(Decimal(n)) && Number(Decimal(n)) == n && OnOneLine(Decimal(n)) && Decimal(n)[0] != ' '
  {
    if n >= 10 {
      DecimalReads(n / 10);
      var s := Decimal(n);
      assert s[..|s| - 1] == Decimal(n / 10);
    } else {
      assert Decimal(n)[..0] == [];
      assert Number([]) == 0;
    }
  }

  /** Without a leading zero. */
  lemma {:induction false} DecimalStarts(n: nat)
    ensures Decimal(n)[0] == '0' ==> n == 0 && Decimal(n) == "0"
  {
    if n >= 10 {
      DecimalStarts(n / 10);
      assert Decimal(n)[0] == Decimal(n / 10)[0];
    }
  }

  lemma OnOneLineJoins(a: string, b: string)
    requires OnOneLine(a) && OnOneLine(b)
    ensures OnOneLine(a + b)
  {
  }

  lemma AllOnOneLineJoins(a: seq<string>, b: seq<string>)
    requires AllOnOneLine(a) && AllOnOneLine(b)
    ensures AllOnOneLine(a + b)
  {
  }

  lemma HeadLinesOnOneLine(e: Event)
    ensures AllOnOneLine(HeadLines(e))
  {
    FieldEscapeOnOneLine(e.id);
    FieldEscapeOnOneLine(e.event);
    DecimalReads(e.retry);
    OnOneLineJoins("id:", FieldEscape(e.id));
    OnOneLineJoins("event:", FieldEscape(e.event));
    OnOneLineJoins("retry:", Decimal(e.retry));
    AllOnOneLineJoins(IdLines(e.id), TypeLines(e.event));
    AllOnOneLineJoins(IdLines(e.id) + TypeLines(e.event), RetryLines(e.retry));
  }

  lemma EventLinesOnOneLine(e: Event)
    requires Sound(e)
    ensures AllOnOneLine(EventLines(e))
  {
    var lines := PayloadLines(e.data);
    HeadLinesOnOneLine(e);
    match e.data
    case Text(text) => TextLinesOnOneLine(text);
    case Json(_) =>
    forall i | 0 <= i < |lines| ensures OnOneLine(DataLines(lines)[i]) {
      OnOneLineJoins("data:", lines[i]);
    }
    AllOnOneLineJoins(HeadLines(e), DataLines(lines));
    AllOnOneLineJoins(HeadLines(e) + DataLines(lines), [[]]);
  }

  // ---------- Processing the lines of one event ----------

  lemma {:induction false} ProcessJoins(client: Client, a: seq<string>, b: seq<string>)
    ensures ProcessLines(client, a + b) == ProcessLines(ProcessLines(client, a), b)
    decreases |a|
  {
    if a == [] {
      assert a + b == b;
    } else {
      assert (a + b)[1..] == a[1..] + b;
      ProcessJoins(ProcessLine(client, a[0]), a[1..], b);
    }
  }

  lemma {:induction false} ColonAfter(name: string, value: string)
    requires ':' !in name
    ensures FirstColon(name + ":" + value) == |name|
  {
    var line := name + ":" + value;
    if name != [] {
      assert line[0] == name[0] && line[1..] == name[1..] + ":" + value;
      ColonAfter(name[1..], value);
    }
  }

  lemma FieldProcessed(client: Client, name: string, value: string)
    requires ':' !in name && name != []
    ensures ProcessLine(client, name + ":" + value) == ProcessField(client, name, StripSpace(value))
  {
    var line := name + ":" + value;
    ColonAfter(name, value);
    assert line[..|name|] == name && line[|name| + 1..] == value;
  }

  lemma OneProcessed(client: Client, line: string)
    ensures ProcessLines(client, [line]) == ProcessLine(client, line)
  {
    assert ProcessLines(ProcessLine(client, line), [line][1..]) == ProcessLine(client, line);
  }

  lemma StripKeepsNul(s: string)
    ensures '\0' in StripSpace(s) <==> '\0' in s
  {
  }

  lemma IdProcessed(client: Client, id: string)
    ensures ProcessLines(client, IdLines(id)) == client.(lastEventId := IdAfter(client.lastEventId, id))
  {
    if id != [] {
      FieldEscapeOnOneLine(id);
      StripKeepsNul(FieldEscape(id));
      OneProcessed(client, "id:" + FieldEscape(id));
      FieldProcessed(client, "id", FieldEscape(id));
      assert "id" + ":" + FieldEscape(id) == "id:" + FieldEscape(id);
    }
  }

  lemma TypeProcessed(client: Client, event: string)
    requires client.type' == []
    ensures ProcessLines(client, TypeLines(event)) == client.(type' := HeardField(event))
  {
    if event != [] {
      OneProcessed(client, "event:" + FieldEscape(event));
      FieldProcessed(client, "event", FieldEscape(event));
      assert "event" + ":" + FieldEscape(event) == "event:" + FieldEscape(event);
    }
  }

  lemma RetryProcessed(client: Client, retry: nat)
    ensures ProcessLines(client, RetryLines(retry)) ==
            client.(reconnection := if retry > 0 then Some(retry) else client.reconnection)
  {
    if retry > 0 {
      DecimalReads(retry);
      OneProcessed(client, "retry:" + Decimal(retry));
      FieldProcessed(client, "retry", Decimal(retry));
      assert "retry" + ":" + Decimal(retry) == "retry:" + Decimal(retry);
    }
  }

  /** The fields before the data set the id, the type and the reconnection time. */
  lemma HeadProcessed(client: Client, e: Event)
    requires client.type' == []
    ensures ProcessLines(client, HeadLines(e)) ==
            client.(lastEventId := IdAfter(client.lastEventId, e.id),
                    type' := HeardField(e.event),
                    reconnection := if e.retry > 0 then Some(e.retry) else client.reconnection)
  {
    ProcessJoins(client, IdLines(e.id) + TypeLines(e.event), RetryLines(e.retry));
    ProcessJoins(client, IdLines(e.id), TypeLines(e.event));
    var one := ProcessLines(client, IdLines(e.id));
    IdProcessed(client, e.id);
    TypeProcessed(one, e.event);
    RetryProcessed(ProcessLines(one, TypeLines(e.event)), e.retry);
  }

  lemma DataLineProcessed(client: Client, line: string)
    ensures ProcessLine(client, "data:" + line) == client.(data := client.data + StripSpace(line) + "\n")
  {
    FieldProcessed(client, "data", line);
    assert "data" + ":" + line == "data:" + line;
  }

  lemma Grouping(a: string, b: string, c: string, d: string)
    ensures a + b + c + d == a + (b + c + d)
  {
  }

  lemma {:induction false} DataProcessed(client: Client, lines: seq<string>)
    ensures ProcessLines(client, DataLines(lines)) == client.(data := client.data + Unlines(StripEach(lines)))
    decreases |lines|
  {
    if lines == [] {
      assert client.data + Unlines([]) == client.data;
    } else {
      DataLineProcessed(client, lines[0]);
      var next := client.(data := client.data + StripSpace(lines[0]) + "\n");
      assert DataLines(lines)[1..] == DataLines(lines[1..]);
      DataProcessed(next, lines[1..]);
      assert StripEach(lines)[1..] == StripEach(lines[1..]);
      Grouping(client.data, StripSpace(lines[0]), "\n", Unlines(StripEach(lines[1..])));
    }
  }

  lemma {:induction false} UnlinesIsJoined(lines: seq<string>)
    requires lines != []
    ensures Unlines(lines) == Joined(lines) + "\n"
    decreases |lines|
  {
    if |lines| > 1 {
      UnlinesIsJoined(lines[1..]);
      assert lines[0] + "\n" + (Joined(lines[1..]) + "\n") == lines[0] + "\n" + Joined(lines[1..]) + "\n";
    } else {
      assert Unlines(lines[1..]) == [];
      assert lines[0] + "\n" + [] == lines[0] + "\n";
    }
  }

  /** One event is one message, and leaves the data and type buffers empty. */
  lemma EventProcessed(client: Client, e: Event)
    requires client.data == [] && client.type' == [] && Encodes(e)
    ensures ProcessLines(client, EventLines(e)) == Hear(client, e)
  {
    var lines := PayloadLines(e.data);
    var one := ProcessLines(client, HeadLines(e));
    HeadProcessed(client, e);
    var two := ProcessLines(one, DataLines(lines));
    DataProcessed(one, lines);
    UnlinesIsJoined(StripEach(lines));
    assert [] + Unlines(StripEach(lines)) == Unlines(StripEach(lines));
    ProcessJoins(client, HeadLines(e) + DataLines(lines), [[]]);
    ProcessJoins(client, HeadLines(e), DataLines(lines));
    OneProcessed(two, []);
    assert two.data[..|two.data| - 1] == HeardData(e.data);
  }

  // ---------- The whole stream ----------

  ghost predicate AllSound(events: seq<Event>) {
    forall i :: 0 <= i < |events| ==> Sound(events[i])
  }

  lemma {:induction false} StreamProcessed(client: Client, events: seq<Event>)
    requires AllSound(events) && client.data == [] && client.type' == []
    ensures ProcessLines(client, Lines(Stream(events), [])) == HearAll(client, Encodable(events))
    decreases |events|
  {
    if events != [] {
      var e, rest := events[0], Stream(events[1..]);
      if Encodes(e) {
        EventLinesOnOneLine(e);
        UnlinesRead(EventLines(e), rest);
        ProcessJoins(client, EventLines(e), Lines(rest, []));
        EventProcessed(client, e);
        StreamProcessed(Hear(client, e), events[1..]);
        assert Encodable(events)[1..] == Encodable(events[1..]);
      } else {
        assert [] + rest == rest && [] + Encodable(events[1..]) == Encodable(events[1..]);
        StreamProcessed(client, events[1..]);
      }
    }
  }

  lemma {:induction false} StreamHasNoMark(events: seq<Event>)
    ensures Stream(events) != [] ==> Stream(events)[0] != BYTE_ORDER_MARK
    decreases |events|
  {
    if events != [] {
      var e := events[0];
      if Encodes(e) {
        var lines := EventLines(e);
        assert Unlines(lines) == lines[0] + "\n" + Unlines(lines[1..]);
        assert lines[0] != [] && lines[0][0] in "ierd";
        assert Stream(events)[0] == lines[0][0];
      } else {
        StreamHasNoMark(events[1..]);
      }
    }
  }

  /** For any sequence of events, a client hears exactly those whose payload can be encoded, in that order, each as one
      message with its own id, type and data and with the last id carried forward; the reconnection time is the last one
      given; and no content of a field starts a field or an event of its own.  `Sse.Context.Valid` says that any run of
      `Encode` writes this stream. */
  lemma StreamRoundTrip(events: seq<Event>)
    requires AllSound(events)
    ensures Parse(Stream(events)) == HearAll(NEW_CLIENT, Encodable(events))
    ensures |Parse(Stream(events)).messages| == |Encodable(events)|
  {
    StreamHasNoMark(events);
    StreamProcessed(NEW_CLIENT, events);
    HearAllCounts(NEW_CLIENT, Encodable(events));
  }

  lemma {:induction false} HearAllCounts(client: Client, events: seq<Event>)
    ensures |HearAll(client, events).messages| == |client.messages| + |events|
    decreases |events|
  {
    if events != [] {
      HearAllCounts(Hear(client, events[0]), events[1..]);
    }
  }

  /** So whatever a context has encoded, the client at the other end has heard it. */
  lemma WrittenIsHeard(c: Context)
    requires c.Valid() && AllSound(c.events)
    ensures Parse(c.written) == HearAll(NEW_CLIENT, Encodable(c.events))
  {
    StreamRoundTrip(c.events);
  }

  // ---------- What survives unchanged ----------

  /** An id or type is heard as it was given exactly when it has no line break and no leading space. */
  lemma FieldSurvives(s: string)
    ensures HeardField(s) == s <==> OnOneLine(s) && (s == [] || s[0] != ' ')
  {
    FieldEscapeOnOneLine(s);
    FieldEscapeLonger(s);
  }

  /** A line break in an id or type is heard as a backslash and a letter, and so is a carriage return in a text. */
  lemma BreaksAreHeardEscaped(a: string, b: string)
    requires OnOneLine(a) && OnOneLine(b) && a != "" && a[0] != ' '
    ensures HeardField(a + "\n" + b) == a + ['\\', 'n'] + b
    ensures HeardField(a + "\r" + b) == a + ['\\', 'r'] + b
    ensures b != "" && b[0] != ' ' ==> HeardData(Text(a + "\n" + b)) == a + "\n" + b
    ensures HeardData(Text(a + "\r" + b)) == a + ['\\', 'r'] + b
  {
    FieldEscapeLonger(a);
    FieldEscapeLonger(b);
    FieldEscapeJoins(a + "\n", b);
    FieldEscapeJoins(a, "\n");
    FieldEscapeOfOne('\n');
    FieldEscapeJoins(a + "\r", b);
    FieldEscapeJoins(a, "\r");
    FieldEscapeOfOne('\r');
    ReturnHeard(a, b);
    if b != "" && b[0] != ' ' {
      TextSurvives(a + "\n" + b);
    }
  }

  lemma ReturnHeard(a: string, b: string)
    requires OnOneLine(a) && OnOneLine(b) && a != "" && a[0] != ' '
    ensures HeardData(Text(a + "\r" + b)) == a + ['\\', 'r'] + b
  {
    OneLineWithReturn(a, b);
    var line := a + ['\\', 'r'] + b;
    assert TextLines(a + "\r" + b) == [line] && StripEach([line]) == [StripSpace(line)];
    assert line[0] == a[0];
  }

  lemma {:induction false} PlainLine(b: string)
    requires OnOneLine(b)
    ensures TextLines(b) == [b]
    decreases |b|
  {
    if b != [] {
      assert b[0] in b && b == [b[0]] + b[1..];
      PlainLine(b[1..]);
    }
  }

  lemma ReturnFirst(b: string)
    requires OnOneLine(b)
    ensures TextLines("\r" + b) == [['\\', 'r'] + b]
  {
    PlainLine(b);
    assert ("\r" + b)[1..] == b;
    assert [b][1..] == [];
  }

  /** A character that is no break goes in front of the first line. */
  lemma CharFirst(c: char, text: string, line: string)
    requires c != '\n' && c != '\r' && TextLines(text) == [line]
    ensures TextLines([c] + text) == [[c] + line]
  {
    assert ([c] + text)[1..] == text;
    assert [line][1..] == [];
  }

  lemma {:induction false} OneLineWithReturn(a: string, b: string)
    requires OnOneLine(a) && OnOneLine(b)
    ensures TextLines(a + "\r" + b) == [a + ['\\', 'r'] + b]
    decreases |a|
  {
    if a == [] {
      ReturnFirst(b);
      assert a + "\r" + b == "\r" + b && a + ['\\', 'r'] + b == ['\\', 'r'] + b;
    } else {
      var rest, line := a[1..] + "\r" + b, a[1..] + ['\\', 'r'] + b;
      assert a[0] in a;
      OneLineWithReturn(a[1..], b);
      CharFirst(a[0], rest, line);
      assert [a[0]] + rest == a + "\r" + b && [a[0]] + line == a + ['\\', 'r'] + b;
    }
  }

  lemma {:induction false} FieldEscapeLonger(s: string)
    ensures |FieldEscape(s)| >= |s|
    ensures OnOneLine(s) ==> FieldEscape(s) == s
    ensures s != [] && s[0] == ' ' ==> FieldEscape(s)[0] == ' '
    ensures s != [] && s[0] != ' ' ==> FieldEscape(s)[0] != ' '
  {
    if s != [] {
      FieldEscapeLonger(s[1..]);
      if OnOneLine(s) {
        assert s[0] in s && OnOneLine(s[1..]);
      }
    }
  }

  predicate Indented(line: string) {
    line != [] && line[0] == ' '
  }

  /** Some line of the text after its first begins with a space. */
  predicate LaterIndented(text: string) {
    exists i :: 0 < i < |text| && text[i - 1] == '\n' && text[i] == ' '
  }

  /** A text is heard as it was given exactly when it has no carriage return and none of its lines begins with a
      space. */
  lemma TextSurvives(text: string)
    ensures HeardData(Text(text)) == text <==> '\r' !in text && !Indented(text) && !LaterIndented(text)
  {
    var lines := TextLines(text);
    if '\r' in text {
      TextLinesOnOneLine(text);
      JoinedHasNoReturn(StripEach(lines));
    } else {
      JoinedIsText(text);
      IndentedLines(text);
      StripShortens(lines);
      if !Indented(text) && !LaterIndented(text) {
        assert StripEach(lines) == lines;
      }
    }
  }

  lemma {:induction false} JoinedHasNoReturn(lines: seq<string>)
    requires forall i :: 0 <= i < |lines| ==> '\r' !in lines[i]
    ensures '\r' !in Joined(lines)
    decreases |lines|
  {
    if |lines| > 1 {
      JoinedHasNoReturn(lines[1..]);
    }
  }

  lemma {:induction false} JoinedIsText(text: string)
    requires '\r' !in text
    ensures Joined(TextLines(text)) == text
    decreases |text|
  {
    if text != [] {
      var lines, rest := TextLines(text), TextLines(text[1..]);
      assert text == [text[0]] + text[1..] && text[0] in text;
      JoinedIsText(text[1..]);
      if text[0] == '\n' {
        assert lines[1..] == rest;
      } else if |rest| > 1 {
        assert lines[1..] == rest[1..];
        assert [text[0]] + rest[0] + "\n" + Joined(rest[1..]) == [text[0]] + (rest[0] + "\n" + Joined(rest[1..]));
      }
    }
  }

  ghost predicate AnyIndented(lines: seq<string>) {
    exists j :: 0 <= j < |lines| && Indented(lines[j])
  }

  lemma {:induction false} IndentedLines(text: string)
    requires '\r' !in text
    ensures Indented(TextLines(text)[0]) <==> Indented(text)
    ensures AnyIndented(TextLines(text)[1..]) <==> LaterIndented(text)
    decreases |text|
  {
    if text != [] {
      var lines, rest := TextLines(text), TextLines(text[1..]);
      assert text[0] in text;
      IndentedLines(text[1..]);
      if text[0] == '\n' {
        assert lines[1..] == rest && rest == [rest[0]] + rest[1..];
        AnyIndentedSplits(rest);
        LaterOf(text);
      } else {
        assert lines[1..] == rest[1..];
        LaterOf(text);
      }
    }
  }

  lemma AnyIndentedSplits(lines: seq<string>)
    requires lines != []
    ensures AnyIndented(lines) <==> Indented(lines[0]) || AnyIndented(lines[1..])
  {
    if j :| 0 < j < |lines| && Indented(lines[j]) {
      assert Indented(lines[1..][j - 1]);
    }
    if j :| 0 <= j < |lines[1..]| && Indented(lines[1..][j]) {
      assert Indented(lines[j + 1]);
    }
  }

  lemma LaterOf(text: string)
    requires text != []
    ensures LaterIndented(text) <==> LaterIndented(text[1..]) || (text[0] == '\n' && Indented(text[1..]))
  {
    var rest := text[1..];
    if i :| 0 < i < |text| && text[i - 1] == '\n' && text[i] == ' ' {
      if i > 1 {
        assert rest[i - 2] == '\n' && rest[i - 1] == ' ';
      }
    }
    if i :| 0 < i < |rest| && rest[i - 1] == '\n' && rest[i] == ' ' {
      assert text[i] == '\n' && text[i + 1] == ' ';
    }
    if text[0] == '\n' && Indented(rest) {
      assert text[1 - 1] == '\n' && text[1] == ' ';
    }
  }

  lemma {:induction false} StripShortens(lines: seq<string>)
    ensures |Joined(StripEach(lines))| <= |Joined(lines)|
    ensures AnyIndented(lines) ==> |Joined(StripEach(lines))| < |Joined(lines)|
    ensures lines != [] ==> (AnyIndented(lines) <==> Indented(lines[0]) || AnyIndented(lines[1..]))
    decreases |lines|
  {
    if lines != [] {
      AnyIndentedSplits(lines);
      StripShortens(lines[1..]);
      assert StripEach(lines)[1..] == StripEach(lines[1..]);
    }
  }
}
