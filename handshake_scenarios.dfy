/** Whole handshakes against particular proxy replies. */
module HandshakeScenarios {
  import opened Prelude
  import opened SocksProtocol
  import opened SocksHandshake
  import opened HandshakeProperties
  import ByteUtils

  /** "example.com" as UTF-16 code units. */
  const ExampleHost: seq<CodeUnit> := [101, 120, 97, 109, 112, 108, 101, 46, 99, 111, 109]

  /** A configuration without credentials. */
  function NoCredentials(extraConnect: int, extraSocket: int): Config {
    Config(extraConnect, extraSocket, None, None)
  }

  /** The CONNECT request for example.com:443: 05 01 00 03 0B "example.com" 01 BB. */
  lemma ExampleConnectRequest()
    ensures ConnectRequest(ExampleHost, 443) == [5, 1, 0, 3, 11] + ExampleHost + [0x01, 0xBB]
  {
    assert LowBytes(ExampleHost) == ExampleHost;
    assert ByteUtils.EncodeUint16(443) == [0x01, 0xBB];
  }

  /** The proxy selects "no authentication", then answers the CONNECT with
      success and an all-zero IPv4 bound address and port. */
  const ExampleReplies: seq<Byte> := [5, 0, 5, 0, 0, 1, 0, 0, 0, 0, 0, 0]

  /** No credentials, target example.com:443, and the replies above. The call
      sends 05 01 00, then the CONNECT request of `ExampleConnectRequest`; it reads all twelve bytes, succeeds,
      and leaves the read timeout at the one found plus the extra socket timeout. */
  lemma ExampleComSucceeds(extraConnect: int, extraSocket: int, timeout: int, initial: int)
    requires IsJavaInt(extraConnect) && IsJavaInt(extraSocket) && IsJavaInt(timeout)
    requires 0 <= initial <= JavaIntMax
    requires JavaAdd(timeout, extraConnect) >= 0 && JavaAdd(initial, extraSocket) >= 0
    ensures var s := Handshake(NoCredentials(extraConnect, extraSocket),
                               InetEndpoint(None, ExampleHost, 443), timeout, true,
                               Wire(ExampleReplies, 0, [], initial));
            && s.outcome == Pass
            && s.wire.output == [5, 1, 0] + ConnectRequest(ExampleHost, 443)
            && s.wire.pos == 12
            && s.wire.soTimeout == JavaAdd(initial, extraSocket)
  {
    var c := NoCredentials(extraConnect, extraSocket);
    var endpoint := InetEndpoint(None, ExampleHost, 443);
    var w := Wire(ExampleReplies, 0, [], initial);
    assert w.input[w.pos..] == ExampleReplies;
    ExampleRepliesAccepted(c);
    HandshakeSucceeds(c, endpoint, timeout, true, w);
    HandshakeTranscript(c, endpoint, timeout, true, w);
  }

  /** Without credentials the replies above are all accepted and take twelve
      bytes, and the only request before the CONNECT is 05 01 00. */
  lemma ExampleRepliesAccepted(c: Config)
    requires c.username.None? && c.password.None?
    ensures RepliesAccepted(c, ExampleReplies) && RepliesLength(c, ExampleReplies) == 12
    ensures Requests(c, ExampleHost, 443) == [5, 1, 0] + ConnectRequest(ExampleHost, 443)
  {
    assert ExampleReplies[..2] == [5, 0];
    assert ExampleReplies[2..] == [5, 0, 0, 1, 0, 0, 0, 0, 0, 0];
  }

  /** The CONNECT reply that `connect` fails on for a given reply code, with
      the method exchange accepted first and no credentials configured. */
  function RepliedWith(reply: Byte): seq<Byte> {
    [5, 0] + [5, reply, 0, 1, 0, 0, 0, 0, 0, 0]
  }

  /** A non-zero reply code fails the call with the table's reason, leaving the
      raised read timeout in place. */
  lemma ConnectRefusedReported(extraConnect: int, extraSocket: int, timeout: int,
                                                  initial: int, reply: Byte)
    requires IsJavaInt(extraConnect) && IsJavaInt(extraSocket) && IsJavaInt(timeout)
    requires 0 <= initial <= JavaIntMax && JavaAdd(timeout, extraConnect) >= 0
    requires reply != 0
    ensures var s := Handshake(NoCredentials(extraConnect, extraSocket),
                               InetEndpoint(None, ExampleHost, 443), timeout, true,
                               Wire(RepliedWith(reply), 0, [], initial));
            && s.outcome == Fail(ConnectFailed("Connection failed: " + ReplyReason(reply)))
            && s.wire.soTimeout == JavaAdd(timeout, extraConnect)
  {
    var c := NoCredentials(extraConnect, extraSocket);
    var w := Wire(RepliedWith(reply), 0, [], initial);
    var negotiated := Negotiate(c, w);
    assert w.input[..2] == [5, 0];
    assert negotiated.outcome.Pass? && negotiated.wire.pos == 2;
    var raised := negotiated.wire.(soTimeout := JavaAdd(timeout, extraConnect));
    var sent := Write(raised, ConnectRequest(ExampleHost, 443));
    assert sent.input[2..6] == [5, reply, 0, 1];
    assert ReceiveConnectResponse(sent).outcome
           == Fail(ConnectFailed("Connection failed: " + ReplyReason(reply)));
  }

  /** Reply 1 is reported as a general server failure. */
  lemma GeneralFailureReported()
    ensures "Connection failed: " + ReplyReason(1) == "Connection failed: General SOCKS server failure"
  {
  }

  /** Reply 6 is reported as an expired TTL. */
  lemma TtlExpiredReported()
    ensures "Connection failed: " + ReplyReason(6) == "Connection failed: TTL expired"
  {
  }

  /** A reply code past the end of the table is reported as its number. */
  lemma UnknownReplyReported()
    ensures "Connection failed: " + ReplyReason(42) == "Connection failed: 42"
  {
    assert DecimalString(4) == "4";
    assert DecimalString(42) == "4" + "2";
  }

  /** A proxy that selects "no acceptable methods" fails the call as requiring
      authentication, whatever credentials are configured, after only the
      method request has been sent. */
  lemma AuthRequiredWhateverCredentials(c: Config, endpoint: Endpoint, timeout: int, w: Wire)
    requires ValidWire(w) && ValidConfig(c) && IsJavaInt(timeout)
    requires CheckEndpoint(endpoint).Pass?
    requires w.pos + 2 <= |w.input| && w.input[w.pos..w.pos + 2] == [5, 0xFF]
    ensures var s := Handshake(c, endpoint, timeout, true, w);
            && s.outcome == Fail(AuthRequired)
            && s.wire.output == w.output + MethodRequest(RequestedMethod(c.username, c.password))
            && s.wire.soTimeout == w.soTimeout
  {
    var sent := Write(w, MethodRequest(RequestedMethod(c.username, c.password)));
    assert ReadFully(sent, 2).bytes == Some([5, 0xFF]);
    MethodFailureEndsHandshake(c, endpoint, timeout, w);
  }

  /** With credentials configured, a proxy that selects "no authentication"
      is refused as an unsupported method. */
  lemma NoAuthRefusedWithCredentials(c: Config, endpoint: Endpoint, timeout: int, w: Wire)
    requires ValidWire(w) && ValidConfig(c) && IsJavaInt(timeout)
    requires CheckEndpoint(endpoint).Pass? && UsesAuth(c)
    requires w.pos + 2 <= |w.input| && w.input[w.pos..w.pos + 2] == [5, 0]
    ensures Handshake(c, endpoint, timeout, true, w).outcome == Fail(UnsupportedMethod(0))
  {
    var sent := Write(w, MethodRequest(RequestedMethod(c.username, c.password)));
    assert ReadFully(sent, 2).bytes == Some([5, 0]);
    MethodFailureEndsHandshake(c, endpoint, timeout, w);
  }
}
