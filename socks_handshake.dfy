/** What `connect` does to the socket, as functions over a snapshot of it:
    the bytes the proxy sends and how many of them have been read, the bytes
    written so far, and the read timeout. SocksSocketImpl proves its methods
    against these functions; HandshakeProperties proves what they promise. */
module SocksHandshake {
  import opened Prelude
  import opened SocksProtocol

  /** The socket as the handshake sees it. `input` is everything the proxy
      sends, `pos` how much of it has been read; `output` only ever grows. */
  datatype Wire = Wire(input: seq<Byte>, pos: nat, output: seq<Byte>, soTimeout: int)

  /** The socket's read timeout is a non-negative Java `int`: setting a negative one throws. */
  predicate ValidWire(w: Wire) {
    w.pos <= |w.input| && IsJavaInt(w.soTimeout) && w.soTimeout >= 0
  }

  /** The configuration a socket is built with (proxy address and proxy connect timeout aside). */
  datatype Config = Config(extraConnectTimeout: int, extraSocketTimeout: int,
                           username: Option<seq<Byte>>, password: Option<seq<Byte>>)

  predicate ValidConfig(c: Config) {
    IsJavaInt(c.extraConnectTimeout) && IsJavaInt(c.extraSocketTimeout)
  }

  /** Whether the username/password subnegotiation runs. */
  predicate UsesAuth(c: Config) {
    c.username.Some? && c.password.Some?
  }

  /** The socket after a full read, and the bytes read unless the stream ended first. */
  datatype Read = Read(wire: Wire, bytes: Option<seq<Byte>>)

  /** The socket after a step of the handshake, and whether the step completed. */
  datatype Step = Step(wire: Wire, outcome: Outcome<SocksError>)

  /** Appends to what has been sent. */
  function Write(w: Wire, bytes: seq<Byte>): (r: Wire)
    ensures r.output == w.output + bytes
    ensures r.input == w.input && r.pos == w.pos && r.soTimeout == w.soTimeout
  {
    w.(output := w.output + bytes)
  }

  /** Takes exactly `n` bytes, or, when fewer remain, consumes the rest and reports the end of the stream. */
  function ReadFully(w: Wire, n: nat): (r: Read)
    requires ValidWire(w)
    ensures ValidWire(r.wire)
    ensures r.wire.input == w.input && r.wire.output == w.output && r.wire.soTimeout == w.soTimeout
    ensures r.bytes.Some? <==> w.pos + n <= |w.input|
    ensures r.bytes.Some? ==> r.wire.pos == w.pos + n && r.bytes.value == w.input[w.pos..w.pos + n]
    ensures r.bytes.None? ==> r.wire.pos == |w.input|
  {
    if w.pos + n <= |w.input| then Read(w.(pos := w.pos + n), Some(w.input[w.pos..w.pos + n]))
    else Read(w.(pos := |w.input|), None)
  }

  /** `Socket.setSoTimeout`: a negative timeout is refused and changes nothing. */
  function SetSoTimeout(w: Wire, timeout: int): (r: Step)
    requires ValidWire(w) && IsJavaInt(timeout)
    ensures ValidWire(r.wire)
    ensures r.outcome.Pass? <==> timeout >= 0
    ensures r.wire == if timeout >= 0 then w.(soTimeout := timeout) else w
    ensures r.outcome.Fail? ==> r.outcome.error == IllegalArgument
  {
    if timeout < 0 then Step(w, Fail(IllegalArgument)) else Step(w.(soTimeout := timeout), Pass)
  }

  /** Reads the two-byte method-selection reply and checks it; a stream that
      ends first fails with EndOfStream having consumed the rest. */
  function ReceiveMethodResponse(c: Config, w: Wire): (s: Step)
    requires ValidWire(w)
    ensures ValidWire(s.wire)
    ensures s.wire.input == w.input && s.wire.output == w.output && s.wire.soTimeout == w.soTimeout
    ensures w.pos + 2 > |w.input| ==> s.wire.pos == |w.input| && s.outcome == Fail(EndOfStream)
    ensures w.pos + 2 <= |w.input| ==>
              && s.wire.pos == w.pos + 2
              && s.outcome == CheckMethodResponse(w.input[w.pos..w.pos + 2], c.username, c.password)
  {
    var response := ReadFully(w, 2);
    if response.bytes.None? then Step(response.wire, Fail(EndOfStream))
    else Step(response.wire, CheckMethodResponse(response.bytes.value, c.username, c.password))
  }

  /** Method negotiation: the request goes out before anything is read; the
      step passes exactly when the next two bytes are version 5 and the method asked for. */
  function MethodExchange(c: Config, w: Wire): (s: Step)
    requires ValidWire(w)
    ensures ValidWire(s.wire)
    ensures s.wire.input == w.input && s.wire.soTimeout == w.soTimeout
    ensures s.wire.output == w.output + MethodRequest(RequestedMethod(c.username, c.password))
    ensures s.outcome.Pass? <==>
              w.pos + 2 <= |w.input| &&
              w.input[w.pos..w.pos + 2] == [SocksVersion, RequestedMethod(c.username, c.password)]
    ensures s.outcome.Pass? ==> s.wire.pos == w.pos + 2
  {
    ReceiveMethodResponse(c, Write(w, MethodRequest(RequestedMethod(c.username, c.password))))
  }

  /** Reads the two-byte subnegotiation reply and checks it; a stream that
      ends first fails with EndOfStream having consumed the rest. */
  function ReceiveAuthResponse(w: Wire): (s: Step)
    requires ValidWire(w)
    ensures ValidWire(s.wire)
    ensures s.wire.input == w.input && s.wire.output == w.output && s.wire.soTimeout == w.soTimeout
    ensures w.pos + 2 > |w.input| ==> s.wire.pos == |w.input| && s.outcome == Fail(EndOfStream)
    ensures w.pos + 2 <= |w.input| ==>
              && s.wire.pos == w.pos + 2
              && s.outcome == CheckAuthResponse(w.input[w.pos..w.pos + 2])
  {
    var response := ReadFully(w, 2);
    if response.bytes.None? then Step(response.wire, Fail(EndOfStream))
    else Step(response.wire, CheckAuthResponse(response.bytes.value))
  }

  /** Username/password subnegotiation: passes exactly when the next two bytes are [1, 0]. */
  function AuthExchange(username: seq<Byte>, password: seq<Byte>, w: Wire): (s: Step)
    requires ValidWire(w)
    ensures ValidWire(s.wire)
    ensures s.wire.input == w.input && s.wire.soTimeout == w.soTimeout
    ensures s.wire.output == w.output + AuthRequest(username, password)
    ensures s.outcome.Pass? <==>
              w.pos + 2 <= |w.input| && w.input[w.pos..w.pos + 2] == [SubnegotiationVersion, 0]
    ensures s.outcome.Pass? ==> s.wire.pos == w.pos + 2
  {
    ReceiveAuthResponse(Write(w, AuthRequest(username, password)))
  }

  /** A CONNECT reply the client accepts, at the start of `rest`: version 5,
      reply 0, an IPv4 or IPv6 bound address, and the address and port complete. */
  predicate ConnectReplyAccepted(rest: seq<Byte>) {
    && |rest| >= 4
    && rest[0] == SocksVersion && rest[1] == 0
    && (rest[3] == AddressTypeIPv4 || rest[3] == AddressTypeIPv6)
    && |rest| >= ConnectReplyLength(rest[3])
  }

  /** Header, bound address and port. */
  function ConnectReplyLength(addressType: Byte): nat
    requires addressType == AddressTypeIPv4 || addressType == AddressTypeIPv6
  {
    4 + BoundAddressLength(addressType) + 2
  }

  /** Reads the four-byte reply header and checks it, then reads and drops
      the bound address and port. It passes exactly when an accepted reply
      follows and then consumes that reply and no more; a refused header ends
      the read after four bytes with the header's error; a stream that ends
      early fails with EndOfStream having consumed the rest. */
  function ReceiveConnectResponse(w: Wire): (s: Step)
    requires ValidWire(w)
    ensures ValidWire(s.wire)
    ensures s.wire.input == w.input && s.wire.output == w.output && s.wire.soTimeout == w.soTimeout
    ensures s.outcome.Pass? <==> ConnectReplyAccepted(w.input[w.pos..])
    ensures s.outcome.Pass? ==> s.wire.pos == w.pos + ConnectReplyLength(w.input[w.pos + 3])
    ensures w.pos + 4 > |w.input| ==> s.wire.pos == |w.input| && s.outcome == Fail(EndOfStream)
    ensures w.pos + 4 <= |w.input| && CheckConnectReply(w.input[w.pos..w.pos + 4]).Err? ==>
              && s.wire.pos == w.pos + 4
              && s.outcome == Fail(CheckConnectReply(w.input[w.pos..w.pos + 4]).error)
    ensures w.pos + 4 <= |w.input| && CheckConnectReply(w.input[w.pos..w.pos + 4]).Ok?
            && !ConnectReplyAccepted(w.input[w.pos..]) ==>
              s.wire.pos == |w.input| && s.outcome == Fail(EndOfStream)
  {
    var header := ReadFully(w, 4);
    if header.bytes.None? then Step(header.wire, Fail(EndOfStream))
    else
      match CheckConnectReply(header.bytes.value)
      case Err(e) => Step(header.wire, Fail(e))
      case Ok(addressLength) =>
        var address := ReadFully(header.wire, addressLength);
        if address.bytes.None? then Step(address.wire, Fail(EndOfStream))
        else
          var port := ReadFully(address.wire, 2);
          if port.bytes.None? then Step(port.wire, Fail(EndOfStream))
          else Step(port.wire, Pass)
  }

  /** The CONNECT exchange: passes exactly when an accepted reply follows, and
      then consumes the 10 or 22 bytes of that reply and no more. */
  function ConnectExchange(host: seq<CodeUnit>, port: Port, w: Wire): (s: Step)
    requires ValidWire(w)
    ensures ValidWire(s.wire)
    ensures s.wire.input == w.input && s.wire.soTimeout == w.soTimeout
    ensures s.wire.output == w.output + ConnectRequest(host, port)
    ensures s.outcome.Pass? <==> ConnectReplyAccepted(w.input[w.pos..])
    ensures s.outcome.Pass? ==> s.wire.pos == w.pos + ConnectReplyLength(w.input[w.pos + 3])
  {
    ReceiveConnectResponse(Write(w, ConnectRequest(host, port)))
  }

  /** Bytes the subnegotiation reply takes up, if it happens. */
  function AuthReplyLength(c: Config): nat {
    if UsesAuth(c) then 2 else 0
  }

  /** Replies, from the start of `rest`, that get the handshake as far as the
      CONNECT request: the method asked for, then [1, 0] when authenticating. */
  predicate PreambleAccepted(c: Config, rest: seq<Byte>) {
    && |rest| >= 2 + AuthReplyLength(c)
    && rest[..2] == [SocksVersion, RequestedMethod(c.username, c.password)]
    && (UsesAuth(c) ==> rest[2..4] == [SubnegotiationVersion, 0])
  }

  /** The requests of method negotiation and, when it runs, the subnegotiation. */
  function PreambleRequests(c: Config): seq<Byte> {
    MethodRequest(RequestedMethod(c.username, c.password))
      + (if UsesAuth(c) then AuthRequest(c.username.value, c.password.value) else [])
  }

  /** Method negotiation, then the subnegotiation when both credentials are set.
      The read timeout is not touched; a failed negotiation sends nothing more. */
  function Negotiate(c: Config, w: Wire): (s: Step)
    requires ValidWire(w)
    ensures ValidWire(s.wire)
    ensures s.wire.input == w.input && s.wire.soTimeout == w.soTimeout
    ensures s.outcome.Pass? <==> PreambleAccepted(c, w.input[w.pos..])
    ensures s.outcome.Pass? ==>
              s.wire.pos == w.pos + 2 + AuthReplyLength(c) && s.wire.output == w.output + PreambleRequests(c)
    ensures s.outcome.Fail? ==>
              || s.wire.output == w.output + MethodRequest(RequestedMethod(c.username, c.password))
              || (UsesAuth(c) && s.wire.output == w.output + PreambleRequests(c))
  {
    var negotiated := MethodExchange(c, w);
    var rest := w.input[w.pos..];
    assert |rest| >= 2 ==> rest[..2] == w.input[w.pos..w.pos + 2];
    assert |rest| >= 4 ==> rest[2..4] == w.input[w.pos + 2..w.pos + 4];
    if negotiated.outcome.Fail? || !UsesAuth(c) then negotiated
    else AuthExchange(c.username.value, c.password.value, negotiated.wire)
  }

  /** Raise the read timeout to `timeout + extraConnectTimeout`, run the CONNECT
      exchange, then set the read timeout to the one found on entry plus
      `extraSocketTimeout`. A failure after the raise leaves the raised value. */
  function ConnectPhase(c: Config, host: seq<CodeUnit>, port: Port, timeout: int, w: Wire): (s: Step)
    requires ValidWire(w) && ValidConfig(c) && IsJavaInt(timeout)
    ensures ValidWire(s.wire)
    ensures s.wire.input == w.input
    ensures s.outcome.Pass? <==>
              && JavaAdd(timeout, c.extraConnectTimeout) >= 0
              && ConnectReplyAccepted(w.input[w.pos..])
              && JavaAdd(w.soTimeout, c.extraSocketTimeout) >= 0
    ensures s.outcome.Pass? ==>
              && s.wire.output == w.output + ConnectRequest(host, port)
              && s.wire.pos == w.pos + ConnectReplyLength(w.input[w.pos + 3])
              && s.wire.soTimeout == JavaAdd(w.soTimeout, c.extraSocketTimeout)
    ensures JavaAdd(timeout, c.extraConnectTimeout) < 0 ==> s == Step(w, Fail(IllegalArgument))
    ensures JavaAdd(timeout, c.extraConnectTimeout) >= 0 && s.outcome.Fail? ==>
              && s.wire.output == w.output + ConnectRequest(host, port)
              && s.wire.soTimeout == JavaAdd(timeout, c.extraConnectTimeout)
  {
    var oldTimeout := w.soTimeout;
    var raised := SetSoTimeout(w, JavaAdd(timeout, c.extraConnectTimeout));
    if raised.outcome.Fail? then raised
    else
      var connected := ConnectExchange(host, port, raised.wire);
      if connected.outcome.Fail? then connected
      else SetSoTimeout(connected.wire, JavaAdd(oldTimeout, c.extraSocketTimeout))
  }

  /** `connect`: validate the endpoint, reach the proxy, negotiate, then the
      CONNECT phase. The first failure ends the call. */
  function Handshake(c: Config, endpoint: Endpoint, timeout: int, proxyReached: bool, w: Wire): (s: Step)
    requires ValidWire(w) && ValidConfig(c) && IsJavaInt(timeout)
    ensures ValidWire(s.wire)
  {
    var valid := CheckEndpoint(endpoint);
    if valid.Fail? then Step(w, valid)
    else if !proxyReached then Step(w, Fail(ProxyUnreachable))
    else
      var negotiated := Negotiate(c, w);
      if negotiated.outcome.Fail? then negotiated
      else ConnectPhase(c, endpoint.host, endpoint.port, timeout, negotiated.wire)
  }
}
