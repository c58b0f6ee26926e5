/** What the handshake promises, proved about `SocksHandshake.Handshake`
    (and so, through its postcondition, about `SocksSocket.Connect`). */
module HandshakeProperties {
  import opened Prelude
  import opened SocksProtocol
  import opened SocksHandshake

  /** Everything a successful handshake sends, in order. */
  function Requests(c: Config, host: seq<CodeUnit>, port: Port): seq<Byte> {
    PreambleRequests(c) + ConnectRequest(host, port)
  }

  /** Replies, from the start of `rest`, that take the handshake to the end:
      the method asked for, [1, 0] when authenticating, an accepted CONNECT reply. */
  predicate RepliesAccepted(c: Config, rest: seq<Byte>) {
    PreambleAccepted(c, rest) && ConnectReplyAccepted(rest[2 + AuthReplyLength(c)..])
  }

  /** How many bytes accepted replies take up. */
  function RepliesLength(c: Config, rest: seq<Byte>): nat
    requires RepliesAccepted(c, rest)
  {
    2 + AuthReplyLength(c) + ConnectReplyLength(rest[2 + AuthReplyLength(c) + 3])
  }

  /** `connect` succeeds exactly when the endpoint is acceptable, the proxy is
      reached, the proxy's replies are all accepted and both timeouts it sets
      are non-negative. */
  lemma HandshakeSucceeds(c: Config, endpoint: Endpoint, timeout: int,
                                             proxyReached: bool, w: Wire)
    requires ValidWire(w) && ValidConfig(c) && IsJavaInt(timeout)
    ensures Handshake(c, endpoint, timeout, proxyReached, w).outcome.Pass? <==>
              && CheckEndpoint(endpoint).Pass?
              && proxyReached
              && RepliesAccepted(c, w.input[w.pos..])
              && JavaAdd(timeout, c.extraConnectTimeout) >= 0
              && JavaAdd(w.soTimeout, c.extraSocketTimeout) >= 0
  {
    if CheckEndpoint(endpoint).Pass? && proxyReached {
      var negotiated := Negotiate(c, w);
      if negotiated.outcome.Pass? {
        RemainingReplies(c, w, negotiated.wire);
      }
    }
  }

  /** After a successful `connect`: the method request, the subnegotiation
      request when credentials are set, and the CONNECT request have been sent,
      in that order; exactly the replies have been read; and the read timeout
      is the one found on entry plus the extra socket timeout. */
  lemma HandshakeTranscript(c: Config, endpoint: Endpoint, timeout: int,
                                               proxyReached: bool, w: Wire)
    requires ValidWire(w) && ValidConfig(c) && IsJavaInt(timeout)
    requires Handshake(c, endpoint, timeout, proxyReached, w).outcome.Pass?
    ensures RepliesAccepted(c, w.input[w.pos..])
    ensures var s := Handshake(c, endpoint, timeout, proxyReached, w);
            && s.wire.output == w.output + Requests(c, endpoint.host, endpoint.port)
            && s.wire.pos == w.pos + RepliesLength(c, w.input[w.pos..])
            && s.wire.soTimeout == JavaAdd(w.soTimeout, c.extraSocketTimeout)
  {
    PassedNegotiation(c, endpoint, timeout, proxyReached, w);
    var after := Negotiate(c, w).wire;
    RemainingReplies(c, w, after);
    ConcatAssociative(w.output, PreambleRequests(c), ConnectRequest(endpoint.host, endpoint.port));
    assert after.input[after.pos + 3] == w.input[w.pos..][2 + AuthReplyLength(c) + 3];
  }

  /** A successful call got through the endpoint check and the negotiation,
      and from there it is the CONNECT phase. */
  lemma PassedNegotiation(c: Config, endpoint: Endpoint, timeout: int, proxyReached: bool, w: Wire)
    requires ValidWire(w) && ValidConfig(c) && IsJavaInt(timeout)
    requires Handshake(c, endpoint, timeout, proxyReached, w).outcome.Pass?
    ensures CheckEndpoint(endpoint).Pass? && proxyReached && Negotiate(c, w).outcome.Pass?
    ensures Handshake(c, endpoint, timeout, proxyReached, w)
              == ConnectPhase(c, endpoint.host, endpoint.port, timeout, Negotiate(c, w).wire)
  {
  }

  /** After the negotiation replies, the CONNECT reply starts where reading stopped. */
  lemma RemainingReplies(c: Config, w: Wire, after: Wire)
    requires ValidWire(w) && after == Negotiate(c, w).wire && Negotiate(c, w).outcome.Pass?
    ensures after.input[after.pos..] == w.input[w.pos..][2 + AuthReplyLength(c)..]
    ensures after.soTimeout == w.soTimeout
  {
  }

  /** Where a call can stop sending: nothing sent, the method request alone,
      the negotiation requests, or every request. No request is ever cut short. */
  lemma HandshakeOutputStages(c: Config, endpoint: Endpoint, timeout: int,
                                                 proxyReached: bool, w: Wire)
    requires ValidWire(w) && ValidConfig(c) && IsJavaInt(timeout)
    ensures var out := Handshake(c, endpoint, timeout, proxyReached, w).wire.output;
            || out == w.output
            || out == w.output + MethodRequest(RequestedMethod(c.username, c.password))
            || out == w.output + PreambleRequests(c)
            || (endpoint.InetEndpoint? && out == w.output + Requests(c, endpoint.host, endpoint.port))
  {
    var out := Handshake(c, endpoint, timeout, proxyReached, w).wire.output;
    if CheckEndpoint(endpoint).Fail? || !proxyReached {
      assert out == w.output;
      return;
    }
    var negotiated := Negotiate(c, w);
    if negotiated.outcome.Fail? {
      assert out == negotiated.wire.output;
      return;
    }
    var phase := ConnectPhase(c, endpoint.host, endpoint.port, timeout, negotiated.wire);
    assert out == phase.wire.output;
    ConcatAssociative(w.output, PreambleRequests(c), ConnectRequest(endpoint.host, endpoint.port));
  }

  /** The read timeout changes only once the CONNECT request has gone out. A
      failure from then on leaves it at `timeout + extraConnectTimeout`: the
      value found on entry is not put back. Success leaves that value plus
      `extraSocketTimeout`. */
  lemma TimeoutStages(c: Config, endpoint: Endpoint, timeout: int,
                                         proxyReached: bool, w: Wire)
    requires ValidWire(w) && ValidConfig(c) && IsJavaInt(timeout)
    ensures var s := Handshake(c, endpoint, timeout, proxyReached, w);
            var connectSent := endpoint.InetEndpoint? &&
                               s.wire.output == w.output + Requests(c, endpoint.host, endpoint.port);
            && (!connectSent ==> s.wire.soTimeout == w.soTimeout)
            && (connectSent && s.outcome.Fail? ==> s.wire.soTimeout == JavaAdd(timeout, c.extraConnectTimeout))
            && (s.outcome.Pass? ==> connectSent && s.wire.soTimeout == JavaAdd(w.soTimeout, c.extraSocketTimeout))
  {
    var s := Handshake(c, endpoint, timeout, proxyReached, w);
    if CheckEndpoint(endpoint).Fail? || !proxyReached {
      return;
    }
    var negotiated := Negotiate(c, w);
    if negotiated.outcome.Fail? {
      assert s == negotiated;
      assert |s.wire.output| < |w.output| + |Requests(c, endpoint.host, endpoint.port)|;
      return;
    }
    var after := negotiated.wire;
    assert s == ConnectPhase(c, endpoint.host, endpoint.port, timeout, after);
    assert after.output == w.output + PreambleRequests(c);
    if s.wire.output == after.output {
      assert |s.wire.output| < |w.output| + |Requests(c, endpoint.host, endpoint.port)|;
    } else {
      ConcatAssociative(w.output, PreambleRequests(c), ConnectRequest(endpoint.host, endpoint.port));
    }
  }

  /** An endpoint that fails the checks is refused before anything is sent or read. */
  lemma EndpointRejectedBeforeIO(c: Config, endpoint: Endpoint, timeout: int, proxyReached: bool, w: Wire)
    requires ValidWire(w) && ValidConfig(c) && IsJavaInt(timeout)
    requires CheckEndpoint(endpoint).Fail?
    ensures Handshake(c, endpoint, timeout, proxyReached, w) == Step(w, Fail(IllegalArgument))
  {
  }

  /** A failed method negotiation ends the call: only the method request was sent
      and the read timeout is untouched. */
  lemma MethodFailureEndsHandshake(c: Config, endpoint: Endpoint, timeout: int, w: Wire)
    requires ValidWire(w) && ValidConfig(c) && IsJavaInt(timeout)
    requires CheckEndpoint(endpoint).Pass? && MethodExchange(c, w).outcome.Fail?
    ensures Handshake(c, endpoint, timeout, true, w) == MethodExchange(c, w)
    ensures Handshake(c, endpoint, timeout, true, w).wire.output
              == w.output + MethodRequest(RequestedMethod(c.username, c.password))
    ensures Handshake(c, endpoint, timeout, true, w).wire.soTimeout == w.soTimeout
  {
  }

  /** The subnegotiation runs exactly when both credentials are set, and a
      failed one ends the call before the read timeout is touched. */
  lemma AuthOnlyWithCredentials(c: Config, endpoint: Endpoint, timeout: int, w: Wire)
    requires ValidWire(w) && ValidConfig(c) && IsJavaInt(timeout)
    requires CheckEndpoint(endpoint).Pass? && MethodExchange(c, w).outcome.Pass?
    ensures var negotiated := MethodExchange(c, w);
            var s := Handshake(c, endpoint, timeout, true, w);
            UsesAuth(c) && AuthExchange(c.username.value, c.password.value, negotiated.wire).outcome.Fail? ==>
              s == AuthExchange(c.username.value, c.password.value, negotiated.wire)
                && s.wire.soTimeout == w.soTimeout
    ensures UsesAuth(c) ==>
              Negotiate(c, w) == AuthExchange(c.username.value, c.password.value, MethodExchange(c, w).wire)
    ensures !UsesAuth(c) ==> Negotiate(c, w) == MethodExchange(c, w)
  {
  }

  /** A failed CONNECT exchange ends the call with the CONNECT request sent and
      the read timeout left at the raised value `timeout + extraConnectTimeout`:
      the one found before is not put back. */
  lemma ConnectFailureKeepsRaisedTimeout(c: Config, endpoint: Endpoint, timeout: int, w: Wire)
    requires ValidWire(w) && ValidConfig(c) && IsJavaInt(timeout)
    requires CheckEndpoint(endpoint).Pass? && JavaAdd(timeout, c.extraConnectTimeout) >= 0
    requires PreambleAccepted(c, w.input[w.pos..])
    requires !ConnectReplyAccepted(w.input[w.pos..][2 + AuthReplyLength(c)..])
    ensures Handshake(c, endpoint, timeout, true, w).outcome.Fail?
    ensures Handshake(c, endpoint, timeout, true, w).wire.output
              == w.output + Requests(c, endpoint.host, endpoint.port)
    ensures Handshake(c, endpoint, timeout, true, w).wire.soTimeout
              == JavaAdd(timeout, c.extraConnectTimeout)
  {
    var after := Negotiate(c, w).wire;
    RemainingReplies(c, w, after);
    var s := ConnectPhase(c, endpoint.host, endpoint.port, timeout, after);
    assert !ConnectReplyAccepted(after.input[after.pos..]);
    assert Handshake(c, endpoint, timeout, true, w) == s;
    ConcatAssociative(w.output, PreambleRequests(c), ConnectRequest(endpoint.host, endpoint.port));
  }

  /** Proof aid: concatenation of sequences is associative. */
  lemma ConcatAssociative(sent: seq<Byte>, first: seq<Byte>, second: seq<Byte>)
    ensures sent + first + second == sent + (first + second)
  {
  }

  /** The CONNECT exchange looks only at the version, reply and address-type
      bytes of the reply: the reserved byte, the bound address and the bound
      port are read and dropped whatever their values. */
  lemma ReplyPayloadIrrelevant(host: seq<CodeUnit>, port: Port, w: Wire, w': Wire)
    requires ValidWire(w) && ValidWire(w')
    requires w'.pos == w.pos && |w'.input| == |w.input|
    requires w.pos + 4 <= |w.input| ==>
               && w'.input[w.pos] == w.input[w.pos]
               && w'.input[w.pos + 1] == w.input[w.pos + 1]
               && w'.input[w.pos + 3] == w.input[w.pos + 3]
    ensures ConnectExchange(host, port, w').outcome == ConnectExchange(host, port, w).outcome
    ensures ConnectExchange(host, port, w').wire.pos == ConnectExchange(host, port, w).wire.pos
  {
    if w.pos + 4 <= |w.input| {
      var header := w.input[w.pos..w.pos + 4];
      var header' := w'.input[w.pos..w.pos + 4];
      assert header'[0] == header[0] && header'[1] == header[1] && header'[3] == header[3];
      assert header' == header[2 := header'[2]];
      ReservedByteIgnored(header, header'[2]);
    }
  }
}
