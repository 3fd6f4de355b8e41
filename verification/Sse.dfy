/** The server-sent event printer: `srvhttp/sse.go`, and what a client hears of it. */
module Sse {
  import opened Wrappers

  /** `Data` is encoded as JSON when it is a struct, slice or map, or a pointer to one, and as plain text
      otherwise.  A JSON payload is its encoding on one line, or None when encoding fails. */
  datatype Payload = Text(text: string) | Json(encoding: Option<string>)

  datatype Event = Event(event: string, id: string, retry: nat, data: Payload)

  predicate OnOneLine(s: string) {
    '\n' !in s && '\r' !in s
  }

  /** Encoding of JSON gives text on one line. */
  predicate Sound(e: Event) {
    e.data.Json? && e.data.encoding.Some? ==> OnOneLine(e.data.encoding.value)
  }

  predicate Encodes(e: Event) {
    e.data.Text? || e.data.encoding.Some?
  }

  // ---------- The printer ----------

  /** `fieldReplacer`. */
  function FieldEscape(s: string): string {
    if s == [] then []
    else (if s[0] == '\n' then "\\n" else if s[0] == '\r' then "\\r" else [s[0]]) + FieldEscape(s[1..])
  }

  /** `dataReplacer`. */
  function DataEscape(s: string): string {
    if s == [] then []
    else (if s[0] == '\n' then "\ndata:" else if s[0] == '\r' then "\\r" else [s[0]]) + DataEscape(s[1..])
  }

  /** Text goes through the replacer piece by piece, and one character at a time. */
  lemma {:induction false} FieldEscapeJoins(a: string, b: string)
    ensures FieldEscape(a + b) == FieldEscape(a) + FieldEscape(b)
    decreases |a|
  {
    if a == [] {
      assert a + b == b;
    } else {
      assert (a + b)[0] == a[0] && (a + b)[1..] == a[1..] + b;
      var c := FieldEscape([a[0]]);
      FieldEscapeJoins(a[1..], b);
      FieldEscapeOfOne(a[0]);
      assert FieldEscape(a) == c + FieldEscape(a[1..]) && FieldEscape(a + b) == c + FieldEscape(a[1..] + b);
      Assoc(c, FieldEscape(a[1..]), FieldEscape(b));
    }
  }

  lemma FieldEscapeOfOne(c: char)
    ensures FieldEscape([c]) == if c == '\n' then ['\\', 'n'] else if c == '\r' then ['\\', 'r'] else [c]
  {
    assert FieldEscape([c][1..]) == [];
  }

  lemma {:induction false} DataEscapeJoins(a: string, b: string)
    ensures DataEscape(a + b) == DataEscape(a) + DataEscape(b)
    decreases |a|
  {
    if a == [] {
      assert a + b == b;
    } else {
      assert (a + b)[0] == a[0] && (a + b)[1..] == a[1..] + b;
      var c := DataEscape([a[0]]);
      DataEscapeJoins(a[1..], b);
      DataEscapeOfOne(a[0]);
      assert DataEscape(a) == c + DataEscape(a[1..]) && DataEscape(a + b) == c + DataEscape(a[1..] + b);
      Assoc(c, DataEscape(a[1..]), DataEscape(b));
    }
  }

  lemma DataEscapeOfOne(c: char)
    ensures DataEscape([c]) == if c == '\n' then "\ndata:" else if c == '\r' then ['\\', 'r'] else [c]
  {
    assert DataEscape([c][1..]) == [];
  }

  function Digit(d: nat): char
    requires d < 10
  {
    ('0' as int + d) as char
  }

  /** `strconv.FormatUint` in base ten. */
  function Decimal(n: nat): string {
    if n < 10 then [Digit(n)] else Decimal(n / 10) + [Digit(n % 10)]
  }

  // ---------- The lines of an event ----------

  function Unlines(lines: seq<string>): string {
    if lines == [] then [] else lines[0] + "\n" + Unlines(lines[1..])
  }

  /** The lines of a text, with its carriage returns escaped. */
  function TextLines(text: string): (lines: seq<string>)
    ensures lines != []
  {
    if text == [] then [[]]
    else
      var rest := TextLines(text[1..]);
      if text[0] == '\n' then [[]] + rest
      else [(if text[0] == '\r' then "\\r" else [text[0]]) + rest[0]] + rest[1..]
  }

  function DataLines(lines: seq<string>): (r: seq<string>)
    ensures |r| == |lines| && forall i :: 0 <= i < |r| ==> r[i] == "data:" + lines[i]
  {
    if lines == [] then [] else ["data:" + lines[0]] + DataLines(lines[1..])
  }

  function PayloadLines(data: Payload): seq<string> {
    match data
    case Text(text) => TextLines(text)
    case Json(None) => []
    case Json(Some(encoding)) => [encoding]
  }

  function IdLines(id: string): seq<string> {
    if id != [] then ["id:" + FieldEscape(id)] else []
  }

  function TypeLines(event: string): seq<string> {
    if event != [] then ["event:" + FieldEscape(event)] else []
  }

  function RetryLines(retry: nat): seq<string> {
    if retry > 0 then ["retry:" + Decimal(retry)] else []
  }

  function HeadLines(e: Event): seq<string> {
    IdLines(e.id) + TypeLines(e.event) + RetryLines(e.retry)
  }

  function EventLines(e: Event): seq<string> {
    HeadLines(e) + DataLines(PayloadLines(e.data)) + [[]]
  }

  /** What one event puts on the stream: nothing if its payload cannot be encoded. */
  function Sent(e: Event): string {
    if Encodes(e) then Unlines(EventLines(e)) else []
  }

  function Stream(events: seq<Event>): string {
    if events == [] then [] else Sent(events[0]) + Stream(events[1..])
  }

  lemma {:induction false} StreamGrows(events: seq<Event>, e: Event)
    ensures Stream(events + [e]) == Stream(events) + Sent(e)
    decreases |events|
  {
    var all := events + [e];
    if events == [] {
      assert all[0] == e && all[1..] == [];
    } else {
      assert all[0] == events[0] && all[1..] == events[1..] + [e];
      StreamGrows(events[1..], e);
      Assoc(Sent(events[0]), Stream(events[1..]), Sent(e));
    }
  }

  lemma {:induction false} UnlinesJoins(a: seq<string>, b: seq<string>)
    ensures Unlines(a + b) == Unlines(a) + Unlines(b)
    decreases |a|
  {
    if a == [] {
      assert a + b == b;
    } else {
      assert (a + b)[1..] == a[1..] + b;
      UnlinesJoins(a[1..], b);
    }
  }

  lemma Assoc(a: string, b: string, c: string)
    ensures a + b + c == a + (b + c)
  {
  }

  /** Replacing line feeds by `\ndata:` puts every line of the text after the first on a data line of its own. */
  lemma {:induction false} TextIsLines(text: string)
    ensures var lines := TextLines(text);
            DataEscape(text) + "\n" == lines[0] + "\n" + Unlines(DataLines(lines[1..]))
    decreases |text|
  {
    if text != [] {
      var lines, rest := TextLines(text), TextLines(text[1..]);
      var tail := rest[0] + "\n" + Unlines(DataLines(rest[1..]));
      TextIsLines(text[1..]);
      if text[0] == '\n' {
        Assoc("\ndata:", DataEscape(text[1..]), "\n");
        assert lines[1..] == rest;
        assert DataLines(rest)[1..] == DataLines(rest[1..]);
        DataLine(rest[0], Unlines(DataLines(rest[1..])));
        assert "\ndata:" + tail == [] + "\n" + ("data:" + tail);
      } else {
        var c := if text[0] == '\r' then "\\r" else [text[0]];
        Assoc(c, DataEscape(text[1..]), "\n");
        assert lines[1..] == rest[1..];
        Assoc(c, rest[0], "\n");
        Assoc(c, rest[0] + "\n", Unlines(DataLines(rest[1..])));
      }
    }
  }

  lemma DataLine(line: string, more: string)
    ensures ("data:" + line) + "\n" + more == "data:" + (line + "\n" + more)
  {
  }

  lemma TextDataIsLines(text: string)
    ensures "data:" + DataEscape(text) + "\n" == Unlines(DataLines(TextLines(text)))
  {
    var lines := TextLines(text);
    TextIsLines(text);
    assert DataLines(lines)[1..] == DataLines(lines[1..]);
    Assoc("data:", DataEscape(text), "\n");
    DataLine(lines[0], Unlines(DataLines(lines[1..])));
  }

  class Context {
    var buf: string
    /** What has been written to the client. */
    var written: string
    var headerSet: bool
    /** The events that `Encode` has been called with. */
    ghost var events: seq<Event>

    /** Over any run of `Encode`, what is written is the stream of the events so far. */
    ghost predicate Valid()
      reads this
    {
      written == Stream(events)
    }

    constructor ()
      ensures Valid() && written == "" && events == [] && !headerSet
    {
      buf, written, headerSet, events := "", "", false, [];
    }

    method WriteField(prefix: string, value: string)
      modifies this`buf
      ensures buf == old(buf) + (prefix + value + "\n")
    {
      buf := buf + prefix;
      buf := buf + value;
      buf := buf + "\n";
    }

    method WriteHead(e: Event)
      requires buf == ""
      modifies this`buf
      ensures buf == Head(e)
    {
      if |e.id| > 0 {
        WriteField("id:", FieldEscape(e.id));
      }
      if |e.event| > 0 {
        WriteField("event:", FieldEscape(e.event));
      }
      if e.retry > 0 {
        WriteField("retry:", Decimal(e.retry));
      }
    }

    /** `Encode` writes the whole event with one call of `Write`, and nothing when encoding fails. */
    method Encode(e: Event) returns (ok: bool)
      requires Valid()
      modifies this
      ensures Valid() && events == old(events) + [e]
      ensures ok == Encodes(e) && headerSet
      ensures written == old(written) + if ok then Unlines(EventLines(e)) else ""
      ensures ok ==> (written == old(written)
                + ((if e.id != "" then "id:" + FieldEscape(e.id) + "\n" else "")
                   + (if e.event != "" then "event:" + FieldEscape(e.event) + "\n" else "")
                   + (if e.retry > 0 then "retry:" + Decimal(e.retry) + "\n" else "")
                   + match e.data
                     case Text(text) => "data:" + DataEscape(text) + "\n\n"
                     case Json(encoding) => "data:" + (encoding.value + "\n") + "\n"))
    {
      StreamGrows(events, e);
      events := events + [e];
      headerSet := true;
      buf := "";
      WriteHead(e);
      buf := buf + "data:";
      match e.data {
        case Json(encoding) =>
          if encoding.None? {
            return false;
          }
          Assoc(Head(e), "data:", encoding.value + "\n");
          Assoc(Head(e), "data:" + (encoding.value + "\n"), "\n");
          buf := buf + (encoding.value + "\n");
          buf := buf + "\n";
          EncodedIsLines(e, "data:" + (encoding.value + "\n") + "\n");
        case Text(text) =>
          Assoc(Head(e), "data:", DataEscape(text));
          Assoc(Head(e), "data:" + DataEscape(text), "\n\n");
          buf := buf + DataEscape(text);
          buf := buf + "\n\n";
          EncodedIsLines(e, "data:" + DataEscape(text) + "\n\n");
      }
      written := written + buf;
      return true;
    }
  }

  /** What `Encode` puts in the buffer before the data. */
  function Head(e: Event): string {
    (if e.id != [] then "id:" + FieldEscape(e.id) + "\n" else [])
    + (if e.event != [] then "event:" + FieldEscape(e.event) + "\n" else [])
    + (if e.retry > 0 then "retry:" + Decimal(e.retry) + "\n" else [])
  }

  lemma HeadIsLines(e: Event)
    ensures Head(e) == Unlines(HeadLines(e))
  {
    UnlinesJoins(IdLines(e.id) + TypeLines(e.event), RetryLines(e.retry));
    UnlinesJoins(IdLines(e.id), TypeLines(e.event));
    OneLine("id:" + FieldEscape(e.id));
    OneLine("event:" + FieldEscape(e.event));
    OneLine("retry:" + Decimal(e.retry));
  }

  lemma EncodedIsLines(e: Event, data: string)
    requires Encodes(e)
    requires data == match e.data
                     case Text(text) => "data:" + DataEscape(text) + "\n\n"
                     case Json(encoding) => "data:" + (encoding.value + "\n") + "\n"
    ensures Head(e) + data == Unlines(EventLines(e))
  {
    var lines := DataLines(PayloadLines(e.data));
    HeadIsLines(e);
    UnlinesJoins(HeadLines(e), lines);
    UnlinesJoins(HeadLines(e) + lines, [[]]);
    OneLine([]);
    DataIsLines(e.data);
    Assoc(Head(e), Unlines(lines), "\n");
    match e.data
    case Text(text) => Assoc("data:" + DataEscape(text), "\n", "\n");
    case Json(encoding) => Assoc("data:", encoding.value, "\n");
  }

  lemma OneLine(line: string)
    ensures Unlines([line]) == line + "\n"
  {
    assert Unlines([line][1..]) == [];
  }

  lemma DataIsLines(data: Payload)
    ensures var lines := DataLines(PayloadLines(data));
            match data
            case Text(text) => Unlines(lines) == "data:" + DataEscape(text) + "\n"
            case Json(None) => lines == []
            case Json(Some(encoding)) => Unlines(lines) == "data:" + encoding + "\n"
  {
    match data
    case Text(text) => TextDataIsLines(text);
    case Json(Some(encoding)) =>
      assert DataLines([encoding]) == ["data:" + encoding];
      OneLine("data:" + encoding);
    case _ =>
  }
}
