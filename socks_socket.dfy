/** The socket that performs the handshake, step by step, over mutable state:
    the read position advances, the output grows, the read timeout is set.
    Each method is proved against its function in SocksHandshake. */
module SocksSocketImpl {
  import opened Prelude
  import ByteUtils
  import opened SocksProtocol
  import SocksHandshake

  /** `System.arraycopy` of `src` into `dest` at `destPos`: only that window changes. */
  method ArrayCopy(src: seq<Byte>, dest: array<Byte>, destPos: nat)
    requires destPos + |src| <= dest.Length
    modifies dest
    ensures dest[..] == old(dest[..destPos]) + src + old(dest[destPos + |src|..])
  {
    for i := 0 to |src|
      invariant dest[..destPos] == old(dest[..destPos])
      invariant dest[destPos..destPos + i] == src[..i]
      invariant dest[destPos + |src|..] == old(dest[destPos + |src|..])
    {
      dest[destPos + i] := src[i];
      assert dest[destPos..destPos + i + 1] == dest[destPos..destPos + i] + [src[i]];
      assert src[..i + 1] == src[..i] + [src[i]];
    }
    assert dest[..] == dest[..destPos] + dest[destPos..destPos + |src|] + dest[destPos + |src|..];
  }

  /** Fills a fresh array with the subnegotiation request: version, the
      username's length cast to a byte, the username, the password's length
      cast to a byte, the password. */
  method BuildAuthRequest(username: seq<Byte>, password: seq<Byte>) returns (request: seq<Byte>)
    ensures request == AuthRequest(username, password)
  {
    var a := new Byte[3 + |username| + |password|](_ => 0);
    a[0] := SubnegotiationVersion;
    a[1] := LowByte(|username|);
    ghost var header := [SubnegotiationVersion, LowByte(|username|)];
    assert a[..2] == header;
    ArrayCopy(username, a, 2);
    assert a[..2 + |username|] == header + username;
    a[|username| + 2] := LowByte(|password|);
    assert a[..3 + |username|] == header + username + [LowByte(|password|)];
    ArrayCopy(password, a, |username| + 3);
    request := a[..];
  }

  /** Fills a fresh array with the CONNECT request. The reserved byte is never
      stored: it keeps the zero the array starts with. */
  method BuildConnectRequest(host: seq<CodeUnit>, port: Port) returns (request: seq<Byte>)
    requires |host| <= MaxHostLength
    ensures request == ConnectRequest(host, port)
  {
    var a := new Byte[7 + |host|](_ => 0);
    a[0] := SocksVersion;
    a[1] := CommandConnect;
    a[3] := AddressTypeDomainName;
    a[4] := LowByte(|host|);
    for i := 0 to |host|
      invariant a[..5] == [SocksVersion, CommandConnect, 0, AddressTypeDomainName, LowByte(|host|)]
      invariant forall j :: 0 <= j < i ==> a[5 + j] == LowByte(host[j])
    {
      a[5 + i] := LowByte(host[i]);
    }
    var written := ByteUtils.WriteUint16(port, a, a.Length - 2);
    assert written.Pass?;
    request := a[..];
    assert request[5..5 + |host|] == LowBytes(host);
    assert request[5 + |host|..] == ByteUtils.EncodeUint16(port);
    assert request == request[..5] + request[5..5 + |host|] + request[5 + |host|..];
  }

  class SocksSocket {
    const extraConnectTimeout: int
    const extraSocketTimeout: int
    const username: Option<seq<Byte>>
    const password: Option<seq<Byte>>

    /** Everything the proxy will send on this connection, in order. */
    var input: seq<Byte>
    /** How much of `input` has been read. */
    var pos: nat
    /** Everything written to the proxy so far. */
    var output: seq<Byte>
    /** The socket's read timeout in milliseconds (`SO_TIMEOUT`). */
    var soTimeout: int

    ghost predicate Valid()
      reads this
    {
      SocksHandshake.ValidWire(State()) && SocksHandshake.ValidConfig(Config())
    }

    function State(): SocksHandshake.Wire
      reads this
    {
      SocksHandshake.Wire(input, pos, output, soTimeout)
    }

    function Config(): SocksHandshake.Config {
      SocksHandshake.Config(extraConnectTimeout, extraSocketTimeout, username, password)
    }

    /** A socket without credentials; `proxyInput` is what the proxy will send.
        A new socket has read nothing, written nothing, and no read timeout. */
    constructor (extraConnect: int, extraSocket: int, proxyInput: seq<Byte>)
      requires IsJavaInt(extraConnect) && IsJavaInt(extraSocket)
      ensures Valid()
      ensures Config() == SocksHandshake.Config(extraConnect, extraSocket, None, None)
      ensures State() == SocksHandshake.Wire(proxyInput, 0, [], 0)
    {
      extraConnectTimeout, extraSocketTimeout := extraConnect, extraSocket;
      username, password := None, None;
      input, pos, output, soTimeout := proxyInput, 0, [], 0;
    }

    /** A socket that authenticates with `user` and `pass`, already encoded as bytes. */
    constructor WithCredentials(extraConnect: int, extraSocket: int, user: seq<Byte>, pass: seq<Byte>,
                                proxyInput: seq<Byte>)
      requires IsJavaInt(extraConnect) && IsJavaInt(extraSocket)
      ensures Valid()
      ensures Config() == SocksHandshake.Config(extraConnect, extraSocket, Some(user), Some(pass))
      ensures State() == SocksHandshake.Wire(proxyInput, 0, [], 0)
    {
      extraConnectTimeout, extraSocketTimeout := extraConnect, extraSocket;
      username, password := Some(user), Some(pass);
      input, pos, output, soTimeout := proxyInput, 0, [], 0;
    }

    method ReadFully(n: nat) returns (bytes: Option<seq<Byte>>)
      requires Valid()
      modifies this`pos
      ensures Valid()
      ensures SocksHandshake.Read(State(), bytes) == SocksHandshake.ReadFully(old(State()), n)
    {
      if pos + n <= |input| {
        bytes := Some(input[pos..pos + n]);
        pos := pos + n;
      } else {
        pos := |input|;
        bytes := None;
      }
    }

    method Write(bytes: seq<Byte>)
      modifies this`output
      ensures output == old(output) + bytes
    {
      output := output + bytes;
    }

    method SetSoTimeout(timeout: int) returns (r: Outcome<SocksError>)
      requires Valid() && IsJavaInt(timeout)
      modifies this`soTimeout
      ensures Valid()
      ensures SocksHandshake.Step(State(), r) == SocksHandshake.SetSoTimeout(old(State()), timeout)
    {
      if timeout < 0 {
        return Fail(IllegalArgument);
      }
      soTimeout := timeout;
      r := Pass;
    }

    method SendMethodRequest()
      requires Valid()
      modifies this`output
      ensures Valid()
      ensures State() == SocksHandshake.Write(old(State()), MethodRequest(RequestedMethod(username, password)))
    {
      var requested: Byte;
      if username.None? || password.None? {
        requested := MethodNoAuthentication;
      } else {
        requested := MethodUsernamePassword;
      }
      Write([SocksVersion, 1, requested]);
    }

    method ReceiveMethodResponse() returns (r: Outcome<SocksError>)
      requires Valid()
      modifies this`pos
      ensures Valid()
      ensures SocksHandshake.Step(State(), r) == SocksHandshake.ReceiveMethodResponse(Config(), old(State()))
    {
      var response := ReadFully(2);
      if response.None? {
        return Fail(EndOfStream);
      }
      r := CheckMethodResponse(response.value, username, password);
    }

    method SendAuthRequest()
      requires Valid() && username.Some? && password.Some?
      modifies this`output
      ensures Valid()
      ensures State() == SocksHandshake.Write(old(State()), AuthRequest(username.value, password.value))
    {
      var request := BuildAuthRequest(username.value, password.value);
      Write(request);
    }

    method ReceiveAuthResponse() returns (r: Outcome<SocksError>)
      requires Valid()
      modifies this`pos
      ensures Valid()
      ensures SocksHandshake.Step(State(), r) == SocksHandshake.ReceiveAuthResponse(old(State()))
    {
      var response := ReadFully(2);
      if response.None? {
        return Fail(EndOfStream);
      }
      r := CheckAuthResponse(response.value);
    }

    method SendConnectRequest(host: seq<CodeUnit>, port: Port)
      requires Valid() && |host| <= MaxHostLength
      modifies this`output
      ensures Valid()
      ensures State() == SocksHandshake.Write(old(State()), ConnectRequest(host, port))
    {
      var request := BuildConnectRequest(host, port);
      Write(request);
    }

    method ReceiveConnectResponse() returns (r: Outcome<SocksError>)
      requires Valid()
      modifies this`pos
      ensures Valid()
      ensures SocksHandshake.Step(State(), r) == SocksHandshake.ReceiveConnectResponse(old(State()))
    {
      var header := ReadFully(4);
      if header.None? {
        return Fail(EndOfStream);
      }
      var checked := CheckConnectReply(header.value);
      if checked.Err? {
        return Fail(checked.error);
      }
      var address := ReadFully(checked.value);
      if address.None? {
        return Fail(EndOfStream);
      }
      var port := ReadFully(2);
      if port.None? {
        return Fail(EndOfStream);
      }
      r := Pass;
    }

    /** Performs the whole handshake; the state afterwards and the outcome are
        exactly those of `SocksHandshake.Handshake`. */
    method Connect(endpoint: Endpoint, timeout: int, proxyReached: bool) returns (r: Outcome<SocksError>)
      requires Valid() && IsJavaInt(timeout)
      modifies this
      ensures Valid()
      ensures SocksHandshake.Step(State(), r) ==
                SocksHandshake.Handshake(Config(), endpoint, timeout, proxyReached, old(State()))
    {
      r := CheckEndpoint(endpoint);
      if r.Fail? {
        return;
      }
      if !proxyReached {
        return Fail(ProxyUnreachable);
      }
      ghost var start := State();

      SendMethodRequest();
      r := ReceiveMethodResponse();
      if r.Fail? {
        assert SocksHandshake.Step(State(), r) == SocksHandshake.Negotiate(Config(), start);
        return;
      }
      assert SocksHandshake.Step(State(), r) == SocksHandshake.MethodExchange(Config(), start);

      if username.Some? && password.Some? {
        ghost var before := State();
        SendAuthRequest();
        r := ReceiveAuthResponse();
        assert SocksHandshake.Step(State(), r) ==
               SocksHandshake.AuthExchange(username.value, password.value, before);
        if r.Fail? {
          return;
        }
      }

      ghost var negotiated := State();
      assert SocksHandshake.Step(negotiated, r) == SocksHandshake.Negotiate(Config(), start);
      var oldTimeout := soTimeout;
      r := SetSoTimeout(JavaAdd(timeout, extraConnectTimeout));
      if r.Fail? {
        return;
      }

      ghost var raised := State();
      SendConnectRequest(endpoint.host, endpoint.port);
      r := ReceiveConnectResponse();
      assert SocksHandshake.Step(State(), r) ==
             SocksHandshake.ConnectExchange(endpoint.host, endpoint.port, raised);
      if r.Fail? {
        return;
      }

      r := SetSoTimeout(JavaAdd(oldTimeout, extraSocketTimeout));
    }
  }
}
