/** The client connection as the server sees it: the payloads it sends, in
    order, and whether the connection is still open. */
module Channel {
  import opened Lines

  const PING: string := "ping"
  const PONG: string := "pong"
  const ERROR_OPEN: string := "<font color=\"red\"><strong>"
  const ERROR_CLOSE: string := "</strong></font>"

  /** The payloads the server sends. */
  datatype Msg =
    | Snapshot(lines: seq<string>)   // the last lines of the file, at connect time
    | Chunk(text: string)            // text appended to the file while tailing
    | Ping                           // a heartbeat probe
    | ErrorPayload(message: string)  // why a request was rejected

  datatype Option<T> = None | Some(value: T)

  /** `'<font color="red"><strong>{}</strong></font>'.format(message)`. */
  function ErrorMarkup(message: string): (payload: string)
    ensures |payload| == |ERROR_OPEN| + |message| + |ERROR_CLOSE|
    ensures ERROR_OPEN <= payload
    ensures payload[|ERROR_OPEN|..|ERROR_OPEN| + |message|] == message
    ensures payload[|ERROR_OPEN| + |message|..] == ERROR_CLOSE
  {
    ERROR_OPEN + message + ERROR_CLOSE
  }

  /** What a client reading an error payload recovers: the message between
      the markup, or nothing for a payload of another shape. */
  function ErrorMessage(payload: string): (m: Option<string>)
    ensures m.Some? ==> ErrorMarkup(m.value) == payload
  {
    if |payload| >= |ERROR_OPEN| + |ERROR_CLOSE| && ERROR_OPEN <= payload
       && payload[|payload| - |ERROR_CLOSE|..] == ERROR_CLOSE
    then
      var m := payload[|ERROR_OPEN|..|payload| - |ERROR_CLOSE|];
      assert payload == ERROR_OPEN + m + ERROR_CLOSE;
      Some(m)
    else None
  }

  /** The client recovers every error message exactly, so two different
      errors never look the same. */
  lemma ErrorMarkupRoundTrip(message: string)
    ensures ErrorMessage(ErrorMarkup(message)) == Some(message)
  {
    var payload := ErrorMarkup(message);
    assert payload[|payload| - |ERROR_CLOSE|..] == ERROR_CLOSE;
  }

  /** The text that goes on the wire for a payload. Converted content goes
      through `convert`, the terminal-colour-to-markup converter. */
  function Render(m: Msg, convert: string -> string): string {
    match m
    case Snapshot(lines) => convert(JoinWithSpace(lines))
    case Chunk(text) => convert(text)
    case Ping => PING
    case ErrorPayload(message) => ErrorMarkup(message)
  }

  /** The texts of a sequence of payloads, in order. */
  function RenderAll(msgs: seq<Msg>, convert: string -> string): (texts: seq<string>)
    ensures |texts| == |msgs|
  {
    if msgs == [] then [] else [Render(msgs[0], convert)] + RenderAll(msgs[1..], convert)
  }

  /** Rendering two runs of payloads one after the other. */
  lemma {:induction false} RenderAllAppend(a: seq<Msg>, b: seq<Msg>, convert: string -> string)
    ensures RenderAll(a + b, convert) == RenderAll(a, convert) + RenderAll(b, convert)
  {
    if a == [] {
      assert a + b == b;
    } else {
      assert (a + b)[1..] == a[1..] + b;
      RenderAllAppend(a[1..], b, convert);
    }
  }

  /** The websocket: `send` fails once the connection is gone; `close` is
      the server's, a hang-up is the peer's. */
  class Connection {
    var sent: seq<string>  // every text delivered to the client, in order
    var open: bool         // neither side has ended the connection
    var closed: bool       // the server has called `close()`

    constructor (open: bool)
      ensures sent == [] && this.open == open && !closed
    {
      sent := [];
      this.open := open;
      closed := false;
    }

    /** `send(text)`: delivered while the connection is open; otherwise
        `ConnectionClosed` is raised, reported here as `ok == false`. */
    method Send(text: string) returns (ok: bool)
      modifies this
      ensures ok == old(open)
      ensures sent == if ok then old(sent) + [text] else old(sent)
      ensures open == old(open) && closed == old(closed)
    {
      ok := open;
      if ok {
        sent := sent + [text];
      }
    }

    /** `close()`. */
    method Close()
      modifies this
      ensures !open && closed && sent == old(sent)
    {
      open := false;
      closed := true;
    }

    /** The peer goes away. */
    method Hangup()
      modifies this
      ensures !open && closed == old(closed) && sent == old(sent)
    {
      open := false;
    }
  }
}
