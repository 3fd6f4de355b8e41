/** A client for server-sent events, written from sections 9.2.5 and 9.2.6 of the WHATWG HTML Standard.

    The stream is taken as already decoded from UTF-8. */
module EventStream {
  import opened Wrappers

  datatype Message = Message(type': string, data: string, lastEventId: string)

  /** The buffers of section 9.2.6, the reconnection time once the server has set it, and the messages dispatched. */
  datatype Client = Client(
    data: string,
    type': string,
    lastEventId: string,
    reconnection: Option<nat>,
    messages: seq<Message>)

  const NEW_CLIENT := Client("", "", "", None, [])

  const BYTE_ORDER_MARK := '\U{FEFF}'

  /** The lines of a stream.  A line ends in CR LF, LF or CR; what comes after the last of them is discarded. */
  function Lines(stream: string, line: string): seq<string>
    decreases |stream|
  {
    if stream == [] then []
    else if stream[0] == '\n' then [line] + Lines(stream[1..], [])
    else if stream[0] == '\r' then
      [line] + Lines(if |stream| > 1 && stream[1] == '\n' then stream[2..] else stream[1..], [])
    else Lines(stream[1..], line + [stream[0]])
  }

  function StripSpace(value: string): string {
    if value != [] && value[0] == ' ' then value[1..] else value
  }

  function FirstColon(line: string): (i: nat)
    ensures i <= |line|
  {
    if line == [] || line[0] == ':' then 0 else 1 + FirstColon(line[1..])
  }

  function ProcessLine(client: Client, line: string): Client {
    if line == [] then Dispatch(client)
    else
      var i := FirstColon(line);
      if i == 0 then client
      else if i == |line| then ProcessField(client, line, [])
      else ProcessField(client, line[..i], StripSpace(line[i + 1..]))
  }

  function ProcessField(client: Client, field: string, value: string): Client {
    if field == "event" then client.(type' := value)
    else if field == "data" then client.(data := client.data + value + "\n")
    else if field == "id" then if '\0' in value then client else client.(lastEventId := value)
    else if field == "retry" then if AllDigits(value) then client.(reconnection := Some(Number(value))) else client
    else client
  }

  function Dispatch(client: Client): Client {
    if client.data == [] then client.(type' := [])
    else
      var n := |client.data|;
      var data := if client.data[n - 1] == '\n' then client.data[..n - 1] else client.data;
      var type' := if client.type' == [] then "message" else client.type';
      client.(data := [], type' := [], messages := client.messages + [Message(type', data, client.lastEventId)])
  }

  predicate IsDigit(c: char) {
    '0' <= c <= '9'
  }

  predicate AllDigits(s: string) {
    s != [] && forall i :: 0 <= i < |s| ==> IsDigit(s[i])
  }

  function Number(s: string): nat
    requires forall i :: 0 <= i < |s| ==> IsDigit(s[i])
  {
    if s == [] then 0
    else
      assert IsDigit(s[|s| - 1]);
      10 * Number(s[..|s| - 1]) + (s[|s| - 1] as int - '0' as int)
  }

  function ProcessLines(client: Client, lines: seq<string>): Client
    decreases |lines|
  {
    if lines == [] then client else ProcessLines(ProcessLine(client, lines[0]), lines[1..])
  }

  function Parse(stream: string): Client {
    var body := if stream != [] && stream[0] == BYTE_ORDER_MARK then stream[1..] else stream;
    ProcessLines(NEW_CLIENT, Lines(body, []))
  }
}
