/**
 * The HTTP/2 glue of RivaBrowser (`riva/http2.py`, class
 * `HTTP2Connection`): constructor validation, the ALPN check of `connect`,
 * the header list `send_request` hands to the codec (the request
 * pseudo-header fields of section 8.3.1 of RFC 9113 followed by the
 * caller's fields with lowercased names, section 8.2.1), the first-event
 * dispatch of `receive_response`, and the state reset of `close`.
 *
 * The `h2` codec, the socket and the TLS handshake are not modelled; what
 * they contribute comes in as parameters: the outcome of the handshake, the
 * stream id the codec allocates, the events it parses out of one read.
 * What the object hands to the codec is kept in two logs, `sent` (the
 * `send_headers` calls) and `acked` (the `acknowledge_received_data` calls).
 */
module Http2 {
  import opened Common

  /** The exceptions the class raises. */
  datatype Http2Error =
    | EmptyHost                         // ValueError("Host cannot be empty")
    | PortOutOfRange                    // ValueError("Port must be between 0 and 65535")
    | ConnectionError(message: string)  // HTTP2ConnectionError
    | RequestError(message: string)     // HTTP2RequestError
    | ResponseError(message: string)    // HTTP2ResponseError
    | CloseError(message: string)       // HTTP2Error raised by `close`

  /** What the network does when `connect` opens a socket and runs the TLS handshake. */
  datatype Handshake =
    | SocketFailed(reason: string)          // `socket.error` from `create_connection`
    | TlsFailed(reason: string)             // `ssl.SSLError` from `wrap_socket`
    | Established(alpn: Option<string>)     // a TLS socket and the protocol ALPN selected

  /** The events `receive_data` may produce; every other kind is `OtherEvent`. */
  datatype Event =
    | DataReceived(streamId: int, data: seq<Byte>)
    | StreamEnded(streamId: int)
    | StreamReset(streamId: int)
    | OtherEvent

  /**
   * The object's attributes: whether it holds a socket (`conn`) and a codec
   * (`h2_conn`), the current stream, and the two logs of codec calls.
   */
  datatype State = State(
    conn: bool,
    session: bool,
    streamId: Option<int>,
    sent: seq<(int, seq<(string, string)>)>,
    acked: seq<(int, int)>)

  // -----------------------------------------------------------------------
  // Construction and connection
  // -----------------------------------------------------------------------

  /** The checks of `__init__`, in order: an empty host first, then the port range. */
  function Validate(host: string, port: int): (r: Option<Http2Error>)
    ensures r.None? <==> host != [] && 0 <= port <= 65535
    ensures r == Some(EmptyHost) <==> host == []
  {
    if host == [] then Some(EmptyHost)
    else if !(0 <= port <= 65535) then Some(PortOutOfRange)
    else None
  }

  /**
   * The ALPN comparison of `connect`. The `HTTP2ConnectionError` it raises
   * inside the `try` is caught by the generic handler and raised again with
   * the prefix `Connection failed: `.
   */
  function AlpnCheck(selected: Option<string>): (r: Option<Http2Error>)
    ensures r.None? <==> selected == Some("h2")
  {
    if selected != Some("h2") then Some(ConnectionError("Connection failed: Server does not support HTTP/2"))
    else None
  }

  /**
   * `connect`: the socket is stored before the ALPN check, so a server
   * without HTTP/2 leaves a socket behind but no codec.
   */
  function ConnectSpec(st: State, hs: Handshake): (State, Option<Http2Error>)
  {
    match hs
    case SocketFailed(reason) => (st, Some(ConnectionError("Socket error: " + reason)))
    case TlsFailed(reason) => (st, Some(ConnectionError("SSL error: " + reason)))
    case Established(alpn) =>
      var st1 := st.(conn := true);
      if AlpnCheck(alpn).Some? then (st1, AlpnCheck(alpn))
      else (st1.(session := true), None)
  }

  /** `_ensure_connection`: connect unless both the socket and the codec are there. */
  function EnsureSpec(st: State, hs: Handshake): (State, Option<Http2Error>)
  {
    if !st.session || !st.conn then ConnectSpec(st, hs) else (st, None)
  }

  /** After `_ensure_connection` succeeds, the object holds a socket and a codec. */
  lemma EnsureConnects(st: State, hs: Handshake)
    ensures EnsureSpec(st, hs).1.None? ==> EnsureSpec(st, hs).0.conn && EnsureSpec(st, hs).0.session
    ensures EnsureSpec(st, hs).1.None? <==>
              (st.conn && st.session) || hs == Established(Some("h2"))
    ensures EnsureSpec(st, hs).0.streamId == st.streamId && EnsureSpec(st, hs).0.sent == st.sent
  {
  }

  // -----------------------------------------------------------------------
  // The request's header list
  // -----------------------------------------------------------------------

  /** The four request pseudo-header fields, in the order the source lists them. */
  function PseudoHeaders(verb: string, path: string, authority: string): seq<(string, string)>
  {
    [(":method", Upper(verb)), (":path", path), (":authority", authority), (":scheme", "https")]
  }

  /** A caller's field that the loop keeps: its name does not start with a colon. */
  predicate IsPseudo(name: string)
  {
    StartsWith(name, ":")
  }

  /** The caller's fields the loop appends: pseudo-header names dropped, the others lowercased. */
  function CustomHeaders(headers: seq<(string, string)>): (r: seq<(string, string)>)
    ensures |r| <= |headers|
    decreases |headers|
  {
    if headers == [] then []
    else
      var h := headers[|headers| - 1];
      CustomHeaders(headers[..|headers| - 1]) + (if IsPseudo(h.0) then [] else [(Lower(h.0), h.1)])
  }

  /** The list passed to `send_headers`. */
  function RequestHeaders(verb: string, path: string, authority: string, headers: seq<(string, string)>): seq<(string, string)>
  {
    PseudoHeaders(verb, path, authority) + CustomHeaders(headers)
  }

  /** Dropping and lowercasing field by field: the result for a concatenation is the concatenation of the results. */
  lemma {:induction false} CustomHeadersAppend(a: seq<(string, string)>, b: seq<(string, string)>)
    ensures CustomHeaders(a + b) == CustomHeaders(a) + CustomHeaders(b)
    decreases |b|
  {
    if b == [] {
      assert a + b == a;
    } else {
      var init, h := b[..|b| - 1], b[|b| - 1];
      assert (a + b)[..|a + b| - 1] == a + init;
      assert (a + b)[|a + b| - 1] == h;
      CustomHeadersAppend(a, init);
    }
  }

  /** The kept field `(name, value)` comes from the caller's field `h`. */
  predicate Keeps(h: (string, string), name: string, value: string)
  {
    !IsPseudo(h.0) && Lower(h.0) == name && h.1 == value
  }

  predicate SomeKeeps(headers: seq<(string, string)>, name: string, value: string)
  {
    exists i :: 0 <= i < |headers| && Keeps(headers[i], name, value)
  }

  /** A field is in the list exactly when some caller field that is not a pseudo-header gives it. */
  lemma {:induction false} CustomHeadersMember(headers: seq<(string, string)>, name: string, value: string)
    ensures (name, value) in CustomHeaders(headers) <==> SomeKeeps(headers, name, value)
    decreases |headers|
  {
    if headers != [] {
      var init, h := headers[..|headers| - 1], headers[|headers| - 1];
      assert headers == init + [h];
      CustomHeadersMember(init, name, value);
      SomeKeepsSnoc(init, h, name, value);
    }
  }

  lemma SomeKeepsSnoc(init: seq<(string, string)>, h: (string, string), name: string, value: string)
    ensures SomeKeeps(init + [h], name, value) <==> SomeKeeps(init, name, value) || Keeps(h, name, value)
  {
    var all := init + [h];
    if Keeps(h, name, value) {
      assert Keeps(all[|init|], name, value);
    }
    forall i | 0 <= i < |init| && Keeps(init[i], name, value) ensures Keeps(all[i], name, value) {
      assert all[i] == init[i];
    }
    forall i | 0 <= i < |all| && Keeps(all[i], name, value) && i < |init| ensures Keeps(init[i], name, value) {
      assert all[i] == init[i];
    }
  }

  /** Lowercasing keeps the first character a colon exactly when it was one. */
  lemma LowerKeepsColon(name: string)
    ensures IsPseudo(Lower(name)) <==> IsPseudo(name)
  {
    if name != [] {
      assert Lower(name)[..1] == [LowerChar(name[0])];
      assert name[..1] == [name[0]];
    }
  }

  /** No field the loop appends is a pseudo-header, and every name is lowercase. */
  lemma {:induction false} CustomHeadersClean(headers: seq<(string, string)>)
    ensures forall i :: 0 <= i < |CustomHeaders(headers)| ==>
              !IsPseudo(CustomHeaders(headers)[i].0) && Lower(CustomHeaders(headers)[i].0) == CustomHeaders(headers)[i].0
    decreases |headers|
  {
    if headers != [] {
      var init, h := headers[..|headers| - 1], headers[|headers| - 1];
      CustomHeadersClean(init);
      LowerKeepsColon(h.0);
      assert Lower(Lower(h.0)) == Lower(h.0);
    }
  }

  /**
   * The list starts with exactly the four pseudo-header fields, and after
   * them there is none: a caller's `:custom` field is never sent.
   */
  lemma RequestHeadersShape(verb: string, path: string, authority: string, headers: seq<(string, string)>)
    ensures var r := RequestHeaders(verb, path, authority, headers);
            && |r| >= 4
            && r[0] == (":method", Upper(verb)) && r[1] == (":path", path)
            && r[2] == (":authority", authority) && r[3] == (":scheme", "https")
            && forall i :: 4 <= i < |r| ==> !IsPseudo(r[i].0)
  {
    var r := RequestHeaders(verb, path, authority, headers);
    CustomHeadersClean(headers);
    forall i | 4 <= i < |r| ensures !IsPseudo(r[i].0) {
      assert r[i] == CustomHeaders(headers)[i - 4];
    }
  }

  // -----------------------------------------------------------------------
  // The response events
  // -----------------------------------------------------------------------

  /** An event that ends the scan of `receive_response`. */
  predicate Decisive(e: Event)
  {
    !e.OtherEvent?
  }

  /** The position of the first decisive event, if there is one. */
  function FirstDecisive(events: seq<Event>): (r: Option<nat>)
    ensures r.Some? ==> r.value < |events| && Decisive(events[r.value])
    ensures r.Some? ==> forall j :: 0 <= j < r.value ==> !Decisive(events[j])
    ensures r.None? ==> forall j :: 0 <= j < |events| ==> !Decisive(events[j])
    decreases |events|
  {
    if events == [] then None
    else if Decisive(events[0]) then Some(0)
    else match FirstDecisive(events[1..])
         case None => None
         case Some(k) => Some(k + 1)
  }

  /** What `receive_response` returns: a stream id and data, each possibly `None`. */
  type Reply = (Option<int>, Option<seq<Byte>>)

  /** The result of the scan for the decisive event `e`, if any, and the current stream. */
  function Outcome(e: Option<Event>, current: int): Result<Reply, Http2Error>
  {
    match e
    case Some(DataReceived(id, data)) => Ok((Some(id), Some(data)))
    case Some(StreamEnded(id)) => Ok((Some(id), None))
    case Some(StreamReset(id)) => Err(ResponseError("Stream " + IntText(id) + " was reset"))
    case _ => Ok((Some(current), None))
  }

  /** `str(n)` for an integer. */
  function IntText(n: int): string
  {
    if n < 0 then "-" + NatToString(-n) else NatToString(n)
  }

  /** The event that decides the scan. */
  function Decider(events: seq<Event>): Option<Event>
  {
    match FirstDecisive(events)
    case None => None
    case Some(k) => Some(events[k])
  }

  /**
   * `receive_response`: connect if needed, refuse when there is no current
   * stream (`not self.stream_id` is also true for stream 0), return
   * `(None, None)` on an empty read, and otherwise scan the events.
   * `received` is `None` for an empty read and the events parsed from the
   * data otherwise.
   */
  function ReceiveSpec(st: State, hs: Handshake, received: Option<seq<Event>>): (State, Result<Reply, Http2Error>)
  {
    var (st1, err) := EnsureSpec(st, hs);
    if err.Some? then (st1, Err(err.value))
    else if st1.streamId.None? || st1.streamId.value == 0 then (st1, Err(ResponseError("No active stream")))
    else if received.None? then (st1, Ok((None, None)))
    else
      var d := Decider(received.value);
      var st2 := if d.Some? && d.value.DataReceived? then st1.(acked := st1.acked + [(|d.value.data|, d.value.streamId)]) else st1;
      (st2, Outcome(d, st1.streamId.value))
  }

  /**
   * The first decisive event settles the result whatever follows it: data
   * comes back with its stream id, the end of a stream gives its id and no
   * data, a reset raises; when none is decisive the current stream is
   * returned without data.
   */
  lemma FirstEventWins(events: seq<Event>, k: nat, current: int)
    requires k < |events| && Decisive(events[k])
    requires forall j :: 0 <= j < k ==> !Decisive(events[j])
    ensures Decider(events) == Some(events[k])
    ensures events[k].DataReceived? ==> Outcome(Decider(events), current) == Ok((Some(events[k].streamId), Some(events[k].data)))
    ensures events[k].StreamEnded? ==> Outcome(Decider(events), current) == Ok((Some(events[k].streamId), None))
    ensures events[k].StreamReset? ==> Outcome(Decider(events), current).Err?
  {
  }

  lemma NoDecisiveEvent(events: seq<Event>, current: int)
    requires forall j :: 0 <= j < |events| ==> !Decisive(events[j])
    ensures Decider(events).None?
    ensures Outcome(Decider(events), current) == Ok((Some(current), None))
  {
  }

  // -----------------------------------------------------------------------
  // Close
  // -----------------------------------------------------------------------

  /**
   * The error `close` raises as written. `self.conn.close()` sits outside
   * the `if self.conn:` guard and `self.h2_conn.data_to_send()` is read
   * inside it without a guard of its own, so an object without a socket,
   * or with a socket but no codec, raises `AttributeError`, which `close`
   * raises again as `HTTP2Error`. `ioError` is the failure of the socket's
   * `send`, if any.
   */
  function CloseFailureAsWritten(st: State, ioError: Option<string>): Option<Http2Error>
  {
    if st.conn && !st.session then Some(CloseError("Error closing connection: 'NoneType' object has no attribute 'data_to_send'"))
    else if st.conn && ioError.Some? then Some(CloseError("Error closing connection: " + ioError.value))
    else if !st.conn then Some(CloseError("Error closing connection: 'NoneType' object has no attribute 'close'"))
    else None
  }

  /** `close` with the socket calls guarded by `if self.conn:` and the send by `if self.h2_conn:`. */
  function CloseFailure(st: State, ioError: Option<string>): (r: Option<Http2Error>)
    ensures r.Some? ==> st.conn && st.session && ioError.Some?
  {
    if st.conn && st.session && ioError.Some? then Some(CloseError("Error closing connection: " + ioError.value))
    else None
  }

  /** The `finally` block of `close`: no socket, no codec, no current stream, whatever was raised. */
  function Closed(st: State): (r: State)
    ensures !r.conn && !r.session && r.streamId.None?
    ensures r.sent == st.sent && r.acked == st.acked
  {
    st.(conn := false, session := false, streamId := None)
  }

  /** As written, closing an object a second time, or one that never connected, raises. */
  lemma SecondCloseRaises(st: State, ioError: Option<string>)
    ensures CloseFailureAsWritten(Closed(st), ioError).Some?
    ensures CloseFailureAsWritten(State(false, false, None, [], []), None)
            == Some(CloseError("Error closing connection: 'NoneType' object has no attribute 'close'"))
  {
  }

  /** With the guards, closing raises only when the socket itself fails, so a second close is quiet. */
  lemma SecondCloseQuiet(st: State, ioError: Option<string>)
    ensures CloseFailure(Closed(st), ioError).None?
    ensures CloseFailure(st, None).None?
  {
  }

  // -----------------------------------------------------------------------
  // The connection object
  // -----------------------------------------------------------------------

  class HTTP2Connection {
    const host: string
    const port: int
    var conn: bool
    var session: bool
    var streamId: Option<int>
    var sent: seq<(int, seq<(string, string)>)>
    var acked: seq<(int, int)>

    function Snapshot(): State
      reads this
    {
      State(conn, session, streamId, sent, acked)
    }

    /** A stream is current only on an object that holds a socket and a codec. */
    predicate Valid()
      reads this
    {
      host != [] && 0 <= port <= 65535 && (streamId.Some? ==> conn && session)
    }

    constructor Init(host: string, port: int)
      requires Validate(host, port).None?
      ensures Valid() && this.host == host && this.port == port
      ensures Snapshot() == State(false, false, None, [], [])
    {
      this.host := host;
      this.port := port;
      conn, session, streamId, sent, acked := false, false, None, [], [];
    }

    /** `HTTP2Connection(host, port)`: a new object, or the `ValueError` of the checks. */
    static method Create(host: string, port: int) returns (r: Result<HTTP2Connection, Http2Error>)
      ensures r.Err? <==> Validate(host, port).Some?
      ensures r.Err? ==> r.error == Validate(host, port).value
      ensures r.Ok? ==> fresh(r.value) && r.value.Valid() && r.value.host == host && r.value.port == port
      ensures r.Ok? ==> r.value.Snapshot() == State(false, false, None, [], [])
    {
      var err := Validate(host, port);
      if err.Some? {
        return Err(err.value);
      }
      var c := new HTTP2Connection.Init(host, port);
      return Ok(c);
    }

    /** `connect`, with the network's part given as `hs`. */
    method Connect(hs: Handshake) returns (err: Option<Http2Error>)
      requires Valid()
      modifies this
      ensures Valid()
      ensures (Snapshot(), err) == ConnectSpec(old(Snapshot()), hs)
    {
      match hs {
        case SocketFailed(reason) =>
          return Some(ConnectionError("Socket error: " + reason));
        case TlsFailed(reason) =>
          return Some(ConnectionError("SSL error: " + reason));
        case Established(alpn) =>
          conn := true;
          if alpn != Some("h2") {
            return Some(ConnectionError("Connection failed: Server does not support HTTP/2"));
          }
          session := true;
          return None;
      }
    }

    /** `_ensure_connection`. */
    method Ensure(hs: Handshake) returns (err: Option<Http2Error>)
      requires Valid()
      modifies this
      ensures Valid()
      ensures (Snapshot(), err) == EnsureSpec(old(Snapshot()), hs)
    {
      err := None;
      if !session || !conn {
        err := Connect(hs);
      }
    }

    /**
     * `send_request`: the header list built by the loop over the caller's
     * fields, handed to the codec under the stream id it allocates
     * (`newStream`), which becomes the current stream.
     */
    method SendRequest(verb: string, path: string, headers: seq<(string, string)>, hs: Handshake, newStream: int)
      returns (r: Result<int, Http2Error>)
      requires Valid()
      modifies this
      ensures Valid()
      ensures var (st1, err) := EnsureSpec(old(Snapshot()), hs);
              if err.Some? then r == Err(err.value) && Snapshot() == st1
              else if verb == [] || path == [] then r == Err(RequestError("Method and path are required")) && Snapshot() == st1
              else r == Ok(newStream) && Snapshot()
                     == st1.(streamId := Some(newStream), sent := st1.sent + [(newStream, RequestHeaders(verb, path, host, headers))])
    {
      var err := Ensure(hs);
      if err.Some? {
        return Err(err.value);
      }
      if verb == [] || path == [] {
        return Err(RequestError("Method and path are required"));
      }
      var requestHeaders := PseudoHeaders(verb, path, host);
      var i := 0;
      while i < |headers|
        invariant 0 <= i <= |headers|
        invariant requestHeaders == PseudoHeaders(verb, path, host) + CustomHeaders(headers[..i])
      {
        var (key, value) := headers[i];
        assert headers[..i + 1] == headers[..i] + [headers[i]];
        if !StartsWith(key, ":") {
          requestHeaders := requestHeaders + [(Lower(key), value)];
        }
        i := i + 1;
      }
      assert headers[..i] == headers;
      streamId := Some(newStream);
      sent := sent + [(newStream, requestHeaders)];
      return Ok(newStream);
    }

    /** `receive_response`, with the events of one read given as `received`. */
    method ReceiveResponse(hs: Handshake, received: Option<seq<Event>>) returns (r: Result<Reply, Http2Error>)
      requires Valid()
      modifies this
      ensures Valid()
      ensures Snapshot() == ReceiveSpec(old(Snapshot()), hs, received).0
      ensures r == ReceiveSpec(old(Snapshot()), hs, received).1
    {
      var err := Ensure(hs);
      if err.Some? {
        return Err(err.value);
      }
      if streamId.None? || streamId.value == 0 {
        return Err(ResponseError("No active stream"));
      }
      if received.None? {
        return Ok((None, None));
      }
      var events := received.value;
      var i := 0;
      while i < |events|
        invariant 0 <= i <= |events|
        invariant forall j :: 0 <= j < i ==> !Decisive(events[j])
      {
        var event := events[i];
        if event.DataReceived? {
          FirstEventWins(events, i, streamId.value);
          acked := acked + [(|event.data|, event.streamId)];
          return Ok((Some(event.streamId), Some(event.data)));
        } else if event.StreamEnded? {
          FirstEventWins(events, i, streamId.value);
          return Ok((Some(event.streamId), None));
        } else if event.StreamReset? {
          FirstEventWins(events, i, streamId.value);
          return Err(ResponseError("Stream " + IntText(event.streamId) + " was reset"));
        }
        i := i + 1;
      }
      NoDecisiveEvent(events, streamId.value);
      return Ok((streamId, None));
    }

    /**
     * `close` as written: the codec is read when there is a socket, the
     * socket is closed whether or not there is one, and any failure is
     * raised again as `HTTP2Error`; the state is reset whatever is raised.
     */
    method Close(ioError: Option<string>) returns (err: Option<Http2Error>)
      requires Valid()
      modifies this
      ensures Valid()
      ensures Snapshot() == Closed(old(Snapshot()))
      ensures err == CloseFailureAsWritten(old(Snapshot()), ioError)
    {
      err := None;
      if conn {
        if !session {
          err := Some(CloseError("Error closing connection: 'NoneType' object has no attribute 'data_to_send'"));
        } else if ioError.Some? {
          err := Some(CloseError("Error closing connection: " + ioError.value));
        }
      } else {
        err := Some(CloseError("Error closing connection: 'NoneType' object has no attribute 'close'"));
      }
      conn, session, streamId := false, false, None;
    }
  }
}
