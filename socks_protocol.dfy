/** The SOCKS5 messages the client builds (section 3 and section 4 of RFC 1928,
    section 2 of RFC 1929) and the decisions it takes over the replies it reads.
    Everything here is a value: the socket that carries the bytes is modelled
    in SocksHandshake and SocksSocketImpl. */
module SocksProtocol {
  import opened Prelude
  import ByteUtils

  type Port = p: int | 0 <= p <= ByteUtils.MaxUint16

  const SocksVersion: Byte := 5
  const MethodNoAuthentication: Byte := 0
  const MethodUsernamePassword: Byte := 2
  /** "NO ACCEPTABLE METHODS" in the method-selection reply. */
  const MethodNoneAcceptable: Byte := 0xFF
  const CommandConnect: Byte := 1
  const AddressTypeIPv4: Byte := 1
  const AddressTypeDomainName: Byte := 3
  const AddressTypeIPv6: Byte := 4
  const SubnegotiationVersion: Byte := 1
  /** Longest host name the endpoint check lets through. */
  const MaxHostLength: int := 255

  /** Reasons for the CONNECT reply codes 0 to 8, as the client reports them. */
  const ReplyReasons: seq<string> := [
    "Succeeded",
    "General SOCKS server failure",
    "Connection not allowed by ruleset",
    "Network unreachable",
    "Host unreachable",
    "Connection refused",
    "TTL expired",
    "Command not supported",
    "Address type not supported"
  ]

  /** The only resolved address an endpoint may carry: 0.0.0.0. */
  const UnspecifiedAddress: seq<Byte> := [0, 0, 0, 0]

  /** Everything `connect` can end in. The numbers are the ones the exception
      message prints: a Java `byte` (signed) in the method and subnegotiation
      replies, `b & 0xFF` (unsigned) in the CONNECT reply. */
  datatype SocksError =
    | IllegalArgument                               // IllegalArgumentException
    | ProxyUnreachable                              // the TCP connect to the proxy failed
    | EndOfStream                                   // the proxy closed before a field was complete
    | UnsupportedVersion(version: int)              // "Unsupported SOCKS version: "
    | AuthRequired                                  // "Proxy requires authentication"
    | UnsupportedMethod(selected: int)                // "Unsupported auth method: "
    | UnsupportedSubnegotiationVersion(version: int)
    | AuthFailed(status: int)                       // "Authentication failed, status: "
    | ConnectFailed(message: string)                // "Connection failed: " + reason
    | UnsupportedAddressType(addressType: int)

  /** The target as `connect` receives it: an `InetSocketAddress` (its resolved
      address bytes if any, its host name as UTF-16 code units, its port) or
      any other kind of socket address. */
  datatype Endpoint =
    | InetEndpoint(address: Option<seq<Byte>>, host: seq<CodeUnit>, port: Port)
    | OtherEndpoint

  /** The checks `connect` makes before any I/O. */
  function CheckEndpoint(endpoint: Endpoint): (r: Outcome<SocksError>)
    ensures r.Pass? <==>
              && endpoint.InetEndpoint?
              && (endpoint.address.None? || endpoint.address.value == UnspecifiedAddress)
              && |endpoint.host| <= MaxHostLength
    ensures r.Fail? ==> r.error == IllegalArgument
  {
    match endpoint
    case OtherEndpoint => Fail(IllegalArgument)
    case InetEndpoint(address, host, _) =>
      if address.Some? && address.value != UnspecifiedAddress then Fail(IllegalArgument)
      else if |host| > MaxHostLength then Fail(IllegalArgument)
      else Pass
  }

  // ---------------------------------------------------------------------------
  // Method negotiation (section 3 of RFC 1928)

  /** Username/password is asked for exactly when both credentials are configured. */
  function RequestedMethod(username: Option<seq<Byte>>, password: Option<seq<Byte>>): (m: Byte)
    ensures m == MethodUsernamePassword <==> username.Some? && password.Some?
    ensures m == MethodNoAuthentication <==> username.None? || password.None?
  {
    if username.None? || password.None? then MethodNoAuthentication else MethodUsernamePassword
  }

  /** Version 5, then the list of methods offered behind its count: here the
      one method asked for. */
  function MethodRequest(requested: Byte): (r: seq<Byte>)
    ensures 2 <= |r| && r[0] == SocksVersion
    ensures r[1] == |r| - 2 && r[2..] == [requested]
  {
    [SocksVersion, 1, requested]
  }

  /** The checks on the two-byte method-selection reply, in the order the client makes them. */
  function CheckMethodResponse(response: seq<Byte>, username: Option<seq<Byte>>,
                               password: Option<seq<Byte>>): (r: Outcome<SocksError>)
    requires |response| == 2
    ensures r.Pass? <==> response == [SocksVersion, RequestedMethod(username, password)]
    ensures response[0] != SocksVersion ==> r == Fail(UnsupportedVersion(SignedByte(response[0])))
    ensures response[0] == SocksVersion && response[1] == MethodNoneAcceptable ==> r == Fail(AuthRequired)
    ensures response[0] == SocksVersion && response[1] != MethodNoneAcceptable
              && response[1] != RequestedMethod(username, password) ==>
                r == Fail(UnsupportedMethod(SignedByte(response[1])))
  {
    var version, selected := response[0], response[1];
    if version != SocksVersion then Fail(UnsupportedVersion(SignedByte(version)))
    else if selected == MethodNoneAcceptable then Fail(AuthRequired)
    else if selected != RequestedMethod(username, password) then Fail(UnsupportedMethod(SignedByte(selected)))
    else Pass
  }

  // ---------------------------------------------------------------------------
  // Username/password subnegotiation (section 2 of RFC 1929)

  /** Version 1, then each credential behind a one-byte length. The length is
      the low eight bits of the real length: nothing checks that it fits. */
  function AuthRequest(username: seq<Byte>, password: seq<Byte>): (r: seq<Byte>)
    ensures |r| == 3 + |username| + |password|
    ensures r[0] == SubnegotiationVersion && r[1] == LowByte(|username|)
    ensures r[2..2 + |username|] == username
    ensures r[2 + |username|] == LowByte(|password|)
    ensures r[3 + |username|..] == password
  {
    [SubnegotiationVersion, LowByte(|username|)] + username + [LowByte(|password|)] + password
  }

  /** How a proxy reads a subnegotiation request: the credentials it frames, if
      the message is well formed. */
  function ParseAuthRequest(message: seq<Byte>): (r: Option<(seq<Byte>, seq<Byte>)>)
    ensures r.Some? ==> |message| == 3 + |r.value.0| + |r.value.1|
  {
    if |message| < 2 || message[0] != SubnegotiationVersion then None
    else
      var ulen: int := message[1];
      if |message| < 3 + ulen then None
      else
        var plen: int := message[2 + ulen];
        if |message| != 3 + ulen + plen then None
        else Some((message[2..2 + ulen], message[3 + ulen..]))
  }

  /** Credentials that fit a length byte are framed so that the proxy reads them back. */
  lemma AuthRequestRoundTrip(username: seq<Byte>, password: seq<Byte>)
    requires |username| <= 255 && |password| <= 255
    ensures ParseAuthRequest(AuthRequest(username, password)) == Some((username, password))
  {
    var m := AuthRequest(username, password);
    assert m[1] == |username| && m[2 + |username|] == |password|;
  }

  /** A 256-byte username goes out with a length byte of 0, so the proxy no
      longer reads the credentials that were configured. */
  lemma LongUsernameMisframed(username: seq<Byte>, password: seq<Byte>)
    requires |username| == 256
    ensures AuthRequest(username, password)[1] == 0
    ensures ParseAuthRequest(AuthRequest(username, password)) != Some((username, password))
  {
    var m := AuthRequest(username, password);
    if ParseAuthRequest(m).Some? {
      assert ParseAuthRequest(m).value.0 == m[2..2];
    }
  }

  /** The checks on the two-byte subnegotiation reply: version before status. */
  function CheckAuthResponse(response: seq<Byte>): (r: Outcome<SocksError>)
    requires |response| == 2
    ensures r.Pass? <==> response == [SubnegotiationVersion, 0]
    ensures response[0] != SubnegotiationVersion ==>
                r == Fail(UnsupportedSubnegotiationVersion(SignedByte(response[0])))
    ensures response[0] == SubnegotiationVersion && response[1] != 0 ==>
                r == Fail(AuthFailed(SignedByte(response[1])))
  {
    var version, status := response[0], response[1];
    if version != SubnegotiationVersion then Fail(UnsupportedSubnegotiationVersion(SignedByte(version)))
    else if status != 0 then Fail(AuthFailed(SignedByte(status)))
    else Pass
  }

  // ---------------------------------------------------------------------------
  // CONNECT request and reply (sections 4 to 6 of RFC 1928)

  /** Each UTF-16 code unit of the host cut to its low eight bits (a `(byte)` cast, not UTF-8). */
  function LowBytes(host: seq<CodeUnit>): (r: seq<Byte>)
    ensures |r| == |host|
    ensures forall i :: 0 <= i < |host| ==> r[i] == LowByte(host[i])
  {
    seq(|host|, i requires 0 <= i < |host| => LowByte(host[i]))
  }

  /** A CONNECT to a domain name: version, command, reserved zero, address type 3,
      the name behind a length byte, the port big-endian. */
  function ConnectRequest(host: seq<CodeUnit>, port: Port): (r: seq<Byte>)
    ensures |r| == 7 + |host|
    ensures r[..5] == [SocksVersion, CommandConnect, 0, AddressTypeDomainName, LowByte(|host|)]
    ensures r[5..5 + |host|] == LowBytes(host)
    ensures ByteUtils.DecodeUint16(r[5 + |host|], r[6 + |host|]) == port
  {
    [SocksVersion, CommandConnect, 0, AddressTypeDomainName, LowByte(|host|)]
      + LowBytes(host) + ByteUtils.EncodeUint16(port)
  }

  /** How a proxy reads a CONNECT request for a domain name: the name and the port. */
  function ParseConnectRequest(message: seq<Byte>): (r: Option<(seq<Byte>, Port)>)
    ensures r.Some? ==> |message| == 7 + |r.value.0|
  {
    if |message| < 5 || message[..4] != [SocksVersion, CommandConnect, 0, AddressTypeDomainName] then None
    else
      var len: int := message[4];
      if |message| != 7 + len then None
      else Some((message[5..5 + len], ByteUtils.DecodeUint16(message[5 + len], message[6 + len])))
  }

  /** A host of at most 255 code units reaches the proxy as its low bytes, and
      unchanged when every unit is below 256; the port always arrives intact. */
  lemma ConnectRequestRoundTrip(host: seq<CodeUnit>, port: Port)
    requires |host| <= MaxHostLength
    ensures ParseConnectRequest(ConnectRequest(host, port)) == Some((LowBytes(host), port))
    ensures (forall i :: 0 <= i < |host| ==> host[i] < 0x100) ==> LowBytes(host) == host
  {
    var m := ConnectRequest(host, port);
    assert m[..4] == [SocksVersion, CommandConnect, 0, AddressTypeDomainName];
    assert m[4] == |host|;
  }

  /** Code units above 0xFF lose their high bits: "Ł" and "A" give the same request. */
  lemma HostUnitsTruncated(port: Port)
    ensures ConnectRequest([0x141], port) == ConnectRequest([0x41], port)
  {
    assert LowBytes([0x141]) == LowBytes([0x41]);
  }

  /** The digits of `n` in base ten, as Java's string concatenation prints an `int`. */
  function DecimalString(n: nat): (s: string)
    ensures 1 <= |s|
    ensures forall i :: 0 <= i < |s| ==> '0' <= s[i] <= '9'
    ensures DecimalValue(s) == n
    ensures |s| == 1 || s[0] != '0'
  {
    if n < 10 then [DigitChar(n)]
    else
      var prefix := DecimalString(n / 10);
      var s := prefix + [DigitChar(n % 10)];
      assert s[..|s| - 1] == prefix;
      s
  }

  function DigitChar(d: nat): (c: char)
    requires d < 10
    ensures '0' <= c <= '9' && c as int - '0' as int == d
  {
    ('0' as int + d) as char
  }

  /** The number a string of decimal digits denotes. */
  function DecimalValue(s: string): nat
    requires forall i :: 0 <= i < |s| ==> '0' <= s[i] <= '9'
  {
    if s == [] then 0
    else DecimalValue(s[..|s| - 1]) * 10 + (s[|s| - 1] as int - '0' as int)
  }

  /** What the client says about a non-zero reply code: the table entry, or the
      code itself once it is past the end of the table. */
  function ReplyReason(reply: Byte): (s: string)
    ensures reply < |ReplyReasons| ==> s == ReplyReasons[reply]
    ensures reply >= |ReplyReasons| ==>
              && 1 <= |s| && s[0] != '0'
              && (forall i :: 0 <= i < |s| ==> '0' <= s[i] <= '9')
              && DecimalValue(s) == reply
  {
    if reply < |ReplyReasons| then ReplyReasons[reply] else DecimalString(reply)
  }

  /** Bytes of bound address that follow the header for each accepted address type. */
  function BoundAddressLength(addressType: Byte): nat
    requires addressType == AddressTypeIPv4 || addressType == AddressTypeIPv6
  {
    if addressType == AddressTypeIPv4 then 4 else 16
  }

  /** The checks on the four-byte CONNECT reply header, in the client's order.
      On success, the number of bound-address bytes still to be read. */
  function CheckConnectReply(header: seq<Byte>): (r: Result<nat, SocksError>)
    requires |header| == 4
    ensures r.Ok? <==>
              header[0] == SocksVersion && header[1] == 0
              && (header[3] == AddressTypeIPv4 || header[3] == AddressTypeIPv6)
    ensures r.Ok? ==> r.value == (if header[3] == AddressTypeIPv4 then 4 else 16)
    ensures header[0] != SocksVersion ==> r == Err(UnsupportedVersion(header[0]))
    ensures header[0] == SocksVersion && header[1] != 0 ==>
                r == Err(ConnectFailed("Connection failed: " + ReplyReason(header[1])))
    ensures header[0] == SocksVersion && header[1] == 0
              && header[3] != AddressTypeIPv4 && header[3] != AddressTypeIPv6 ==>
                r == Err(UnsupportedAddressType(header[3]))
  {
    var version, reply, addressType := header[0], header[1], header[3];
    if version != SocksVersion then Err(UnsupportedVersion(version))
    else if reply != 0 then Err(ConnectFailed("Connection failed: " + ReplyReason(reply)))
    else if addressType == AddressTypeIPv4 || addressType == AddressTypeIPv6 then
      Ok(BoundAddressLength(addressType))
    else Err(UnsupportedAddressType(addressType))
  }

  /** The reserved byte of the reply is never looked at. */
  lemma ReservedByteIgnored(header: seq<Byte>, reserved: Byte)
    requires |header| == 4
    ensures CheckConnectReply(header[2 := reserved]) == CheckConnectReply(header)
  {
  }
}
