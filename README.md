# SOCKS5 client handshake, modelled in Dafny

This project models the client side of the SOCKS5 handshake performed by
`SocksSocket.connect` in the briar socks-socket library, together with the
big-endian encoder `ByteUtils.writeUint16` that it uses for the port.
A call to `connect` does the following, in order:

1. It checks the endpoint. The target must be an `InetSocketAddress`. If it
   carries a resolved address, that address must be 0.0.0.0. Its host name may
   have at most 255 UTF-16 code units.
2. It reaches the proxy.
3. It sends the method request and checks the method-selection reply
   (section 3 of RFC 1928).
4. It runs the username/password subnegotiation (section 2 of RFC 1929), but
   only when both credentials are set.
5. It raises the socket's read timeout to `timeout + extraConnectTimeout`.
6. It sends the CONNECT request for a domain name and checks the reply
   (sections 4 to 6 of RFC 1928).
7. It sets the read timeout to the value found before the exchange plus
   `extraSocketTimeout`.

The first failure ends the call.

Modules:

- `Prelude`
  - `Option`, `Outcome` and `Result`.
  - Bytes as the values 0..255, which is how the client reads them with `& 0xFF`.
  - UTF-16 code units.
  - Java's 32-bit `int` addition, which wraps.
  - Java's signed `byte` as it is printed in exception messages.
  - The `(byte)` cast.
- `ByteUtils`
  - `WriteUint16` as a method on an `array<Byte>`. Its three guards come first, in the source's order.
  - `offset + 2` is a wrapping Java sum.
  - The stores are bounds-checked.
- `SocksProtocol`: the pure parts of the protocol.
  - The exact layout of each request.
  - The checks on each reply, in the order the client makes them.
  - The `ERRORS` reason table and `UNSPECIFIED_ADDRESS`.
  - A proxy's reading of the two requests that carry data, used to state round trips.
- `SocksHandshake`: the socket as a value `Wire`. It has four parts:
  - the bytes the proxy sends;
  - how many of them have been read;
  - everything written so far;
  - the read timeout.

  `readFully(n)` takes exactly `n` bytes. When fewer are left, it consumes
  the rest and fails at the end of the stream. Each exchange, and the whole
  of `connect`, is a function over `Wire`.
- `SocksSocketImpl`
  - The request builders fill fresh zeroed arrays in place, as the source does
    with indexed stores, `arraycopy` and the `writeUint16` call. Each is proved
    to produce the layout in `SocksProtocol`.
  - The class `SocksSocket` has one field each for the input, the read
    position, the output and `soTimeout`. Its methods follow the private
    methods of the source one for one. Each is proved to leave exactly the
    state and outcome given by its function in `SocksHandshake`.
  - `Connect` is proved equal to `SocksHandshake.Handshake`.
- `HandshakeProperties`: what `connect` promises, proved about `Handshake`.
  - when it succeeds;
  - what has been sent and read by then;
  - where sending can stop;
  - the two-stage read timeout;
  - which bytes of the CONNECT reply matter.
- `HandshakeScenarios`: whole handshakes against particular proxy replies.

Two points about credentials, modelled as the code behaves:

- Section 2 of RFC 1929 gives ULEN and PLEN one octet each, so each credential
  can be at most 255 bytes. The code casts the length to `byte` without a check,
  so `AuthRequest` writes its low eight bits. `LongUsernameMisframed` shows the
  effect: a proxy then reads different credentials from the ones configured.
- The socket keeps two nullable credential fields and asks for method 2 only
  when both are non-null (SocksSocket.java lines 94 and 113-115). The model keeps
  two `Option`s and the same test, so a socket with only one credential set
  negotiates without authentication.

Other quirks are also modelled as the code behaves:

- Host code units are cut to their low eight bits (`HostUnitsTruncated`).
- The 255 limit counts UTF-16 code units.
- A resolved address of 0.0.0.0 is accepted.
- A failed CONNECT exchange leaves the raised read timeout in place
  (`ConnectFailureKeepsRaisedTimeout`).

`WriteUint16` promises that an IllegalArgument failure never touches `dest`, and that
any failure leaves `dest` unchanged whenever `offset + 2` does not overflow or the array is shorter than 2^31 - 1. At `offset` = 2^31 - 2 the guard's sum wraps
negative and the guard lets the call through. Only for an array of length
2^31 - 1 does the first store then land before the second one fails; for any
shorter array the first store is already out of bounds and `dest` is untouched.

## Model

| member | source | states |
|---|---|---|
| `Prelude.JavaAdd` | lib/src/main/java/org/briarproject/socks/SocksSocket.java:102 | The `int` sum is congruent to the true sum modulo 2^32 and stays in range. It equals the true sum when that fits, and is negative after a positive overflow. |
| `Prelude.SignedByte` | lib/src/main/java/org/briarproject/socks/SocksSocket.java:128-131 | A byte printed by Java lies in -128..127 and is congruent to the unsigned byte modulo 256. |
| `Prelude.LowByte` | lib/src/main/java/org/briarproject/socks/SocksSocket.java:149 | A `(byte)` cast keeps the value modulo 256 and leaves values 0..255 unchanged. |
| `ByteUtils.EncodeUint16` | lib/src/main/java/org/briarproject/util/ByteUtils.java:18-19 | The two bytes written for `v` decode big-endian back to `v`. |
| `ByteUtils.DecodeUint16` | lib/src/main/java/org/briarproject/util/ByteUtils.java:11 | Two bytes read big-endian give a value in 0..65535. |
| `ByteUtils.EncodeDecodeUint16` | lib/src/main/java/org/briarproject/util/ByteUtils.java:18-19 | Every pair of bytes is the encoding of its own value. |
| `ByteUtils.WriteUint16` | lib/src/main/java/org/briarproject/util/ByteUtils.java:13-20 | IllegalArgument exactly when `src` < 0, `src` > 65535, or `dest.length < offset + 2` as a Java sum. Success exactly when everything is in range, and then only `dest[offset..offset+2]` changes, to the big-endian encoding. An IllegalArgument failure changes nothing, since the guards run before either store. Any failure changes nothing except possibly `dest[offset]`, and changes nothing at all when `offset + 2` does not overflow or `dest` is shorter than 2^31 - 1. |
| `SocksProtocol.CheckEndpoint` | lib/src/main/java/org/briarproject/socks/SocksSocket.java:75-82 | The endpoint passes exactly when it is an inet address, with no resolved address or 0.0.0.0, and a host of at most 255 code units. Any refusal is IllegalArgument. |
| `SocksProtocol.RequestedMethod` | lib/src/main/java/org/briarproject/socks/SocksSocket.java:113-115 | Method 2 exactly when both credentials are set, and method 0 exactly when either is missing. |
| `SocksProtocol.MethodRequest` | lib/src/main/java/org/briarproject/socks/SocksSocket.java:116-120 | Version 5, then a method count that equals the number of methods listed after it, which is the one method asked for. |
| `SocksProtocol.CheckMethodResponse` | lib/src/main/java/org/briarproject/socks/SocksSocket.java:128-141 | Passes exactly when the reply is `[5, requested]`. Otherwise the checks fail in order: version (printed signed), then 0xFF meaning authentication required, then a method other than the one requested (printed signed). |
| `SocksProtocol.AuthRequest` | lib/src/main/java/org/briarproject/socks/SocksSocket.java:147-152 | Length 3 + len(u) + len(p). Layout: 1, len(u) mod 256, u, len(p) mod 256, p. |
| `SocksProtocol.AuthRequestRoundTrip` | lib/src/main/java/org/briarproject/socks/SocksSocket.java:144-155 | Credentials of at most 255 bytes each are read back by the proxy exactly. |
| `SocksProtocol.LongUsernameMisframed` | lib/src/main/java/org/briarproject/socks/SocksSocket.java:149 | A 256-byte username is sent with length byte 0, and the proxy no longer reads back the configured credentials. |
| `SocksProtocol.CheckAuthResponse` | lib/src/main/java/org/briarproject/socks/SocksSocket.java:160-165 | Passes exactly when the reply is `[1, 0]`. A bad version is reported before a bad status, each printed signed. |
| `SocksProtocol.LowBytes` | lib/src/main/java/org/briarproject/socks/SocksSocket.java:174-176 | One byte per code unit: its low eight bits. |
| `SocksProtocol.ConnectRequest` | lib/src/main/java/org/briarproject/socks/SocksSocket.java:169-177 | Length 7 + len(host). The header is 5, 1, 0, 3, len(host) mod 256; then the truncated host; then two bytes that decode to the port. |
| `SocksProtocol.ConnectRequestRoundTrip` | lib/src/main/java/org/briarproject/socks/SocksSocket.java:168-180 | For a host of at most 255 units, the proxy reads back the truncated host and the exact port. The host comes back unchanged when every unit is below 256. |
| `SocksProtocol.HostUnitsTruncated` | lib/src/main/java/org/briarproject/socks/SocksSocket.java:175 | Hosts "Ł" (U+0141) and "A" produce the same CONNECT request. |
| `SocksProtocol.DecimalString` | lib/src/main/java/org/briarproject/socks/SocksSocket.java:195 | A reply code is printed as decimal digits with no leading zero, and their value is the code. |
| `SocksProtocol.ReplyReason` | lib/src/main/java/org/briarproject/socks/SocksSocket.java:191-196 | Codes 0..8 give the matching `ERRORS` entry. Larger codes give the canonical decimal: digits with no leading zero whose value is the code. |
| `SocksProtocol.CheckConnectReply` | lib/src/main/java/org/briarproject/socks/SocksSocket.java:185-200 | Accepts exactly version 5, reply 0 and address type 1 or 4, and then asks for 4 or 16 address bytes. The failures, in order: unsupported version (unsigned); "Connection failed: " followed by the reason; unsupported address type (unsigned). |
| `SocksProtocol.ReservedByteIgnored` | lib/src/main/java/org/briarproject/socks/SocksSocket.java:185-187 | The reserved byte of the reply header never changes the decision. |
| `SocksHandshake.Write` | lib/src/main/java/org/briarproject/socks/SocksSocket.java:121 | A write appends to the output and changes nothing else. |
| `SocksHandshake.ReadFully` | lib/src/main/java/org/briarproject/util/IoUtils.java:14-21 | When `n` bytes remain it returns exactly those and advances by `n`. Otherwise it fails and the whole input is consumed. Output and timeout are untouched. |
| `SocksHandshake.SetSoTimeout` | lib/src/main/java/org/briarproject/socks/SocksSocket.java:102 | A negative timeout is refused with IllegalArgument and changes nothing. Any other timeout is stored. |
| `SocksHandshake.ReceiveMethodResponse` | lib/src/main/java/org/briarproject/socks/SocksSocket.java:125-142 | With two bytes left it consumes exactly those and its outcome is `CheckMethodResponse` of them. Otherwise it fails with EndOfStream having consumed the rest. Output and timeout are untouched. `MethodExchange` and `CheckMethodResponse` pin what passes. |
| `SocksHandshake.ReceiveAuthResponse` | lib/src/main/java/org/briarproject/socks/SocksSocket.java:157-166 | With two bytes left it consumes exactly those and its outcome is `CheckAuthResponse` of them. Otherwise it fails with EndOfStream having consumed the rest. `AuthExchange` and `CheckAuthResponse` pin what passes. |
| `SocksHandshake.ReceiveConnectResponse` | lib/src/main/java/org/briarproject/socks/SocksSocket.java:182-202 | Passes exactly when an accepted reply follows, and then consumes its 10 or 22 bytes. A refused header fails with the header's error after four bytes. A stream that ends early fails with EndOfStream having consumed the rest. `ConnectExchange` and `CheckConnectReply` pin the rest. |
| `SocksHandshake.MethodExchange` | lib/src/main/java/org/briarproject/socks/SocksSocket.java:91-92 | Sends `[5, 1, m]` before reading. Passes exactly when the next two bytes are `[5, m]`, and then consumes exactly those two. |
| `SocksHandshake.AuthExchange` | lib/src/main/java/org/briarproject/socks/SocksSocket.java:96-97 | Sends the subnegotiation request. Passes exactly when the next two bytes are `[1, 0]`, and then consumes exactly those two. |
| `SocksHandshake.ConnectExchange` | lib/src/main/java/org/briarproject/socks/SocksSocket.java:105-106 | Sends the CONNECT request. Passes exactly when an accepted reply follows, and then consumes its 10 or 22 bytes and no more. The timeout is untouched. |
| `SocksHandshake.Negotiate` | lib/src/main/java/org/briarproject/socks/SocksSocket.java:90-98 | Passes exactly when the method reply, and the `[1, 0]` reply when authenticating, come next. It then has sent the method and subnegotiation requests. A failure sends nothing beyond the exchange that failed. The timeout is untouched. |
| `SocksHandshake.ConnectPhase` | lib/src/main/java/org/briarproject/socks/SocksSocket.java:100-109 | Passes exactly when both timeouts are non-negative and the reply is accepted, and the timeout then ends at the entry value plus `extraSocketTimeout`. A negative raised timeout fails before anything is sent. Any later failure leaves the CONNECT request sent and the timeout at `timeout + extraConnectTimeout`. |
| `SocksHandshake.Handshake` | lib/src/main/java/org/briarproject/socks/SocksSocket.java:72-110 | The read timeout stays a non-negative Java `int` throughout. |
| `SocksSocketImpl.ArrayCopy` | lib/src/main/java/org/briarproject/socks/SocksSocket.java:150 | `arraycopy` replaces exactly the window at `destPos` with the source. |
| `SocksSocketImpl.BuildAuthRequest` | lib/src/main/java/org/briarproject/socks/SocksSocket.java:144-152 | The array it fills holds exactly `AuthRequest(u, p)`. |
| `SocksSocketImpl.BuildConnectRequest` | lib/src/main/java/org/briarproject/socks/SocksSocket.java:168-177 | The array filled by the loop and `writeUint16` holds exactly `ConnectRequest(host, port)`. The untouched reserved byte is 0, and `writeUint16` cannot fail here. |
| `SocksSocketImpl.SocksSocket.constructor` | lib/src/main/java/org/briarproject/socks/SocksSocket.java:61-69 | A socket without credentials: nothing read, nothing written, timeout 0. |
| `SocksSocketImpl.SocksSocket.WithCredentials` | lib/src/main/java/org/briarproject/socks/SocksSocket.java:51-59 | The same, with both credentials set. |
| `SocksSocketImpl.SocksSocket.ReadFully` | lib/src/main/java/org/briarproject/util/IoUtils.java:14-21 | Advances the read position exactly as `SocksHandshake.ReadFully` does. |
| `SocksSocketImpl.SocksSocket.Write` | lib/src/main/java/org/briarproject/socks/SocksSocket.java:121 | Appends to the output. |
| `SocksSocketImpl.SocksSocket.SetSoTimeout` | lib/src/main/java/org/briarproject/socks/SocksSocket.java:102 | Stores the timeout, or refuses a negative one, as `SocksHandshake.SetSoTimeout` does. |
| `SocksSocketImpl.SocksSocket.SendMethodRequest` | lib/src/main/java/org/briarproject/socks/SocksSocket.java:112-123 | Appends `[5, 1, m]`, where m is 2 exactly when both credentials are set. |
| `SocksSocketImpl.SocksSocket.ReceiveMethodResponse` | lib/src/main/java/org/briarproject/socks/SocksSocket.java:125-142 | Reads two bytes and checks them, as `SocksHandshake.ReceiveMethodResponse` does. |
| `SocksSocketImpl.SocksSocket.SendAuthRequest` | lib/src/main/java/org/briarproject/socks/SocksSocket.java:144-155 | Appends `AuthRequest(u, p)`. |
| `SocksSocketImpl.SocksSocket.ReceiveAuthResponse` | lib/src/main/java/org/briarproject/socks/SocksSocket.java:157-166 | Reads two bytes and checks them, as `SocksHandshake.ReceiveAuthResponse` does. |
| `SocksSocketImpl.SocksSocket.SendConnectRequest` | lib/src/main/java/org/briarproject/socks/SocksSocket.java:168-180 | Appends `ConnectRequest(host, port)`. |
| `SocksSocketImpl.SocksSocket.ReceiveConnectResponse` | lib/src/main/java/org/briarproject/socks/SocksSocket.java:182-202 | Reads the header, the bound address and the port, as `SocksHandshake.ReceiveConnectResponse` does. |
| `SocksSocketImpl.SocksSocket.Connect` | lib/src/main/java/org/briarproject/socks/SocksSocket.java:72-110 | The outcome and the new socket state are exactly those of `SocksHandshake.Handshake` on the old state. |
| `HandshakeProperties.HandshakeSucceeds` | lib/src/main/java/org/briarproject/socks/SocksSocket.java:72-110 | `connect` succeeds exactly when five things hold: the endpoint passes, the proxy is reached, every reply is accepted, and both timeout sums are non-negative. |
| `HandshakeProperties.HandshakeTranscript` | lib/src/main/java/org/briarproject/socks/SocksSocket.java:86-109 | After success, the method request, the subnegotiation request (if any) and the CONNECT request have been sent in that order. Exactly the replies have been read. The timeout is the entry value plus `extraSocketTimeout`. |
| `HandshakeProperties.HandshakeOutputStages` | lib/src/main/java/org/briarproject/socks/SocksSocket.java:90-106 | The output grows in whole requests only: nothing, the method request, the negotiation requests, or every request. |
| `HandshakeProperties.TimeoutStages` | lib/src/main/java/org/briarproject/socks/SocksSocket.java:101-109 | The timeout is unchanged until the CONNECT request is sent. After that, a failure leaves `timeout + extraConnectTimeout`. Success leaves the entry value plus `extraSocketTimeout`. |
| `HandshakeProperties.EndpointRejectedBeforeIO` | lib/src/main/java/org/briarproject/socks/SocksSocket.java:75-86 | A refused endpoint ends the call with IllegalArgument before anything is read or written. |
| `HandshakeProperties.MethodFailureEndsHandshake` | lib/src/main/java/org/briarproject/socks/SocksSocket.java:91-92 | A failed method exchange ends the call with only the method request sent and the timeout untouched. |
| `HandshakeProperties.AuthOnlyWithCredentials` | lib/src/main/java/org/briarproject/socks/SocksSocket.java:94-98 | After an accepted method reply, negotiation is the method exchange followed by the subnegotiation when both credentials are set, and the method exchange alone otherwise. A failed subnegotiation ends the call with the timeout untouched. |
| `HandshakeProperties.ConnectFailureKeepsRaisedTimeout` | lib/src/main/java/org/briarproject/socks/SocksSocket.java:101-106 | When negotiation passes and the CONNECT reply is refused, the call fails with every request sent and the timeout left at `timeout + extraConnectTimeout`. |
| `HandshakeProperties.ReplyPayloadIrrelevant` | lib/src/main/java/org/briarproject/socks/SocksSocket.java:198-201 | Only the version, reply and address-type bytes decide the CONNECT exchange's outcome and how much it reads. The reserved byte, the bound address and the port do not. |
| `HandshakeScenarios.ExampleConnectRequest` | lib/src/main/java/org/briarproject/socks/SocksSocket.java:168-177 | The CONNECT request for example.com:443 is `05 01 00 03 0B "example.com" 01 BB`. |
| `HandshakeScenarios.ExampleComSucceeds` | lib/src/main/java/org/briarproject/socks/SocksSocket.java:72-110 | example.com:443 without credentials, against `05 00` and then `05 00 00 01` plus six zero bytes, succeeds. It sends `05 01 00` and then that CONNECT request, reads all 12 bytes, and leaves the timeout at the entry value plus `extraSocketTimeout`. |
| `HandshakeScenarios.ConnectRefusedReported` | lib/src/main/java/org/briarproject/socks/SocksSocket.java:191-196 | A non-zero reply code fails the call with "Connection failed: " followed by its reason, and leaves the raised timeout. |
| `HandshakeScenarios.GeneralFailureReported` | lib/src/main/java/org/briarproject/socks/SocksSocket.java:28 | Reply 1 reads "Connection failed: General SOCKS server failure". |
| `HandshakeScenarios.TtlExpiredReported` | lib/src/main/java/org/briarproject/socks/SocksSocket.java:33 | Reply 6 reads "Connection failed: TTL expired". |
| `HandshakeScenarios.UnknownReplyReported` | lib/src/main/java/org/briarproject/socks/SocksSocket.java:195 | Reply 42 reads "Connection failed: 42". |
| `HandshakeScenarios.AuthRequiredWhateverCredentials` | lib/src/main/java/org/briarproject/socks/SocksSocket.java:133-134 | A `05 FF` reply fails with authentication required whatever credentials are set, after only the method request, with the timeout untouched. |
| `HandshakeScenarios.NoAuthRefusedWithCredentials` | lib/src/main/java/org/briarproject/socks/SocksSocket.java:136-141 | With credentials set, a `05 00` reply fails as unsupported method 0. |

## Left out

- `SocksSocketFactory` is not part of this model. It only chooses which constructor to call, and its other `createSocket` overloads throw.
- The TCP connection to the proxy (`super.connect(proxy, connectToProxyTimeout)`) is the boolean parameter `proxyReached`. The proxy address and `connectToProxyTimeout` are not modelled.
- `IoUtils.getInputStream` and `IoUtils.getOutputStream` are Android stream workarounds with no protocol content.
- The loop in `readFully` over `InputStream.read` is reduced to two outcomes: take exactly `n` bytes, or hit the end of the stream.
- `InetSocketAddress`, address resolution and `getHostName` are not modelled. The endpoint is given directly as optional address bytes, a host as UTF-16 code units, and a port in 0..65535.
- The UTF-8 encoding of the credentials is not modelled. Username and password are taken as bytes that are already encoded.
- Blocking, the expiry of a read timeout, and `flush` are not modelled. The proxy's bytes are a sequence fixed in advance. Only the stored value of `soTimeout` is tracked.
- Exception messages other than "Connection failed: ..." are error values that carry the number the message would print. The message text itself is not built.
- `BuildAuthRequest` does not model the Java `int` overflow of `3 + |u| + |p|` when allocating the array, because no real credential comes near 2^31 bytes.
- `SocksSocketImpl.SocksSocket.SendAuthRequest` requires both credentials to be set. This stands in for `requireNonNull`, which can only fail if the method is called outside `connect`.
- Calling `connect` on a socket that is already connected, and the rest of the `java.net.Socket` API, are not modelled.
