/**
  The SOCKS5 server side of crates/server/src/mixed_proxy.rs: method negotiation, user name and
  password, and the CONNECT request, against the dialog of sections 3 to 5 of RFC 1928 and section 2
  of RFC 1929.
 */
module Socks5 {
  import opened Bytes

  const VERSION: Byte := 5
  const NO_AUTH: Byte := 0
  const USERPASS: Byte := 2
  const NO_ACCEPTABLE_METHODS: Byte := 255
  const CMD_CONNECT: Byte := 1
  const REP_GENERAL_FAILURE: Byte := 1
  const REP_COMMAND_NOT_SUPPORTED: Byte := 7
  const REP_ADDRESS_TYPE_NOT_SUPPORTED: Byte := 8

  datatype SocksError =
    | Eof | UnsupportedVersion(v: Byte) | NoAcceptableAuth | AuthFailed
    | InvalidRequest | UnsupportedCommand(c: Byte) | UnsupportedAddressType(t: Byte) | InvalidAddress

  datatype Credentials = Credentials(username: seq<Byte>, password: seq<Byte>)

  /** What `Credentials::new` admits. */
  predicate Admitted(c: Credentials) {
    1 <= |c.username| <= 255 && 1 <= |c.password| <= 255
  }

  datatype Address = IPv4(octets: seq<Byte>) | Domain(name: seq<Byte>) | IPv6(groups: seq<Byte>)

  datatype Request = Request(address: Address, port: nat)

  /** Result of an exchange, the input it leaves and the bytes it wrote. */
  datatype Io<T> = Io(result: Result<T, SocksError>, input: seq<Byte>, output: seq<Byte>)

  /** `write_socks5_reply` without a bound address. */
  function Reply(rep: Byte): seq<Byte> {
    [VERSION, rep, 0, 1, 0, 0, 0, 0, 0, 0]
  }

  function Failed<T>(e: SocksError, input: seq<Byte>, output: seq<Byte>): Io<T> {
    Io(Err(e), input, output)
  }

  // ---- the server ----

  function Login(c: Credentials, input: seq<Byte>): Io<()> {
    if |input| < 2 then Failed(Eof, [], [])
    else
      var (ulen, afterHeader) := (input[1] as int, input[2..]);
      if input[0] != 1 || ulen == 0 then Failed(AuthFailed, afterHeader, [1, 1])
      else if |afterHeader| < ulen + 1 then Failed(Eof, [], [])
      else
        var username, plen, rest := afterHeader[..ulen], afterHeader[ulen] as int, afterHeader[ulen + 1..];
        if plen == 0 then Failed(AuthFailed, rest, [1, 1])
        else if |rest| < plen then Failed(Eof, [], [])
        else if c == Credentials(username, rest[..plen]) then Io(Ok(()), rest[plen..], [1, 0])
        else Failed(AuthFailed, rest[plen..], [1, 1])
  }

  function Negotiate(credentials: Option<Credentials>, input: seq<Byte>): Io<()> {
    if |input| < 2 then Failed(Eof, [], [])
    else if input[0] != VERSION then Failed(UnsupportedVersion(input[0]), input[2..], [])
    else
      var n, rest := input[1] as int, input[2..];
      if n == 0 then Failed(NoAcceptableAuth, rest, [VERSION, NO_ACCEPTABLE_METHODS])
      else if |rest| < n then Failed(Eof, [], [])
      else if credentials.Some? && USERPASS in rest[..n] then
        var login := Login(credentials.value, rest[n..]);
        login.(output := [VERSION, USERPASS] + login.output)
      else if credentials.None? && NO_AUTH in rest[..n] then Io(Ok(()), rest[n..], [VERSION, NO_AUTH])
      else Failed(NoAcceptableAuth, rest[n..], [VERSION, NO_ACCEPTABLE_METHODS])
  }

  function ReadDomain(utf8: seq<Byte> -> bool, input: seq<Byte>): Io<Address> {
    if |input| < 1 then Failed(Eof, [], [])
    else
      var n, rest := input[0] as int, input[1..];
      if n == 0 then Failed(InvalidAddress, rest, Reply(REP_ADDRESS_TYPE_NOT_SUPPORTED))
      else if |rest| < n then Failed(Eof, [], [])
      else if utf8(rest[..n]) then Io(Ok(Domain(rest[..n])), rest[n..], [])
      else Failed(InvalidAddress, rest[n..], [])
  }

  function ReadAddress(utf8: seq<Byte> -> bool, atyp: Byte, input: seq<Byte>): Io<Address> {
    if atyp == 1 then
      if |input| < 4 then Failed(Eof, [], []) else Io(Ok(IPv4(input[..4])), input[4..], [])
    else if atyp == 3 then ReadDomain(utf8, input)
    else if atyp == 4 then
      if |input| < 16 then Failed(Eof, [], []) else Io(Ok(IPv6(input[..16])), input[16..], [])
    else Failed(UnsupportedAddressType(atyp), input, Reply(REP_ADDRESS_TYPE_NOT_SUPPORTED))
  }

  function ReadRequest(utf8: seq<Byte> -> bool, input: seq<Byte>): Io<Request> {
    if |input| < 4 then Failed(Eof, [], [])
    else
      var rest := input[4..];
      if input[0] != VERSION || input[2] != 0 then Failed(InvalidRequest, rest, Reply(REP_GENERAL_FAILURE))
      else if input[1] != CMD_CONNECT then Failed(UnsupportedCommand(input[1]), rest, Reply(REP_COMMAND_NOT_SUPPORTED))
      else
        var a := ReadAddress(utf8, input[3], rest);
        match a.result
        case Err(e) => Failed(e, a.input, a.output)
        case Ok(address) =>
          if |a.input| < 2 then Failed(Eof, [], a.output)
          else Io(Ok(Request(address, U16(a.input[0], a.input[1]))), a.input[2..], a.output)
  }

  function Accept(utf8: seq<Byte> -> bool, credentials: Option<Credentials>, input: seq<Byte>): Io<Request> {
    var auth := Negotiate(credentials, input);
    if auth.result.Err? then Failed(auth.result.error, auth.input, auth.output)
    else
      var request := ReadRequest(utf8, auth.input);
      request.(output := auth.output + request.output)
  }

  // ---- the client's side of the dialog ----

  function EncodeLogin(c: Credentials): seq<Byte>
    requires Admitted(c)
  {
    [1, |c.username|] + c.username + [|c.password|] + c.password
  }

  predicate Offers(credentials: Option<Credentials>, methods: seq<Byte>) {
    1 <= |methods| <= 255 && (if credentials.Some? then USERPASS else NO_AUTH) in methods
  }

  function EncodeGreeting(credentials: Option<Credentials>, methods: seq<Byte>): seq<Byte>
    requires Offers(credentials, methods) && (credentials.Some? ==> Admitted(credentials.value))
  {
    [VERSION, |methods|] + methods + (if credentials.Some? then EncodeLogin(credentials.value) else [])
  }

  predicate Encodable(utf8: seq<Byte> -> bool, a: Address) {
    match a
    case IPv4(octets) => |octets| == 4
    case Domain(name) => 1 <= |name| <= 255 && utf8(name)
    case IPv6(groups) => |groups| == 16
  }

  function EncodeAddress(utf8: seq<Byte> -> bool, a: Address): seq<Byte>
    requires Encodable(utf8, a)
  {
    match a
    case IPv4(octets) => [1] + octets
    case Domain(name) => [3, |name|] + name
    case IPv6(groups) => [4] + groups
  }

  /** `port` is the two bytes of the port. */
  function EncodeRequest(utf8: seq<Byte> -> bool, a: Address, port: seq<Byte>): seq<Byte>
    requires Encodable(utf8, a)
  {
    [VERSION, CMD_CONNECT, 0] + EncodeAddress(utf8, a) + port
  }

  function Replies(credentials: Option<Credentials>): seq<Byte> {
    if credentials.Some? then [VERSION, USERPASS, 1, 0] else [VERSION, NO_AUTH]
  }

  // ---- the server accepts exactly that dialog ----

  lemma {:induction false} LoginComplete(c: Credentials, rest: seq<Byte>)
    requires Admitted(c)
    ensures Login(c, EncodeLogin(c) + rest) == Io(Ok(()), rest, [1, 0])
  {
    var input := EncodeLogin(c) + rest;
    var u, p := |c.username|, |c.password|;
    assert input[2..] == c.username + [p] + c.password + rest;
    assert input[2..][..u] == c.username && input[2..][u] == p;
    assert input[2..][u + 1..] == c.password + rest;
    assert (c.password + rest)[..p] == c.password && (c.password + rest)[p..] == rest;
  }

  lemma {:induction false} Cut(input: seq<Byte>, n: nat)
    requires 2 + n < |input|
    ensures var tail := input[2..];
            input == input[..2] + tail[..n] + [tail[n]] + tail[n + 1..]
  {
  }

  lemma {:induction false} LoginSound(c: Credentials, input: seq<Byte>)
    requires Admitted(c) && Login(c, input).result.Ok?
    ensures input == EncodeLogin(c) + Login(c, input).input && Login(c, input).output == [1, 0]
  {
    var u, tail := input[1] as int, input[2..];
    var p, rest := tail[u] as int, tail[u + 1..];
    Cut(input, u);
    assert input[..2] == [1, u];
    assert c.username == tail[..u] && c.password == rest[..p];
    assert rest == c.password + rest[p..];
    Assoc([1, u] + c.username + [p], c.password, rest[p..]);
  }

  lemma {:induction false} GreetingLayout(head: seq<Byte>, methods: seq<Byte>, login: seq<Byte>, rest: seq<Byte>)
    requires |head| == 2
    ensures var input := head + methods + login + rest;
            && |input| >= 2 && input[0] == head[0] && input[1] == head[1] && |input[2..]| >= |methods|
            && input[2..][..|methods|] == methods && input[2..][|methods|..] == login + rest
  {
    var input := head + methods + login + rest;
    assert input[2..] == methods + (login + rest);
  }

  lemma {:induction false} NegotiateComplete(credentials: Option<Credentials>, methods: seq<Byte>, rest: seq<Byte>)
    requires Offers(credentials, methods) && (credentials.Some? ==> Admitted(credentials.value))
    ensures Negotiate(credentials, EncodeGreeting(credentials, methods) + rest) == Io(Ok(()), rest, Replies(credentials))
  {
    if credentials.Some? {
      GreetingLayout([VERSION, |methods|], methods, EncodeLogin(credentials.value), rest);
      LoginComplete(credentials.value, rest);
    } else {
      GreetingLayout([VERSION, |methods|], methods, [], rest);
      assert [] + rest == rest;
    }
  }

  lemma {:induction false} GreetingJoin(input: seq<Byte>, n: nat, login: seq<Byte>, rest: seq<Byte>)
    requires |input| >= 2 + n && input[2..][n..] == login + rest
    ensures input == input[..2] + input[2..][..n] + login + rest
  {
    assert input == input[..2] + (input[2..][..n] + input[2..][n..]);
  }

  lemma {:induction false} NegotiateSound(credentials: Option<Credentials>, input: seq<Byte>) returns (methods: seq<Byte>)
    requires credentials.Some? ==> Admitted(credentials.value)
    requires Negotiate(credentials, input).result.Ok?
    ensures Offers(credentials, methods)
    ensures input == EncodeGreeting(credentials, methods) + Negotiate(credentials, input).input
    ensures Negotiate(credentials, input).output == Replies(credentials)
  {
    var n, rest := input[1] as int, input[2..];
    methods := rest[..n];
    assert input[..2] == [VERSION, n];
    if credentials.Some? {
      LoginSound(credentials.value, rest[n..]);
      GreetingJoin(input, n, EncodeLogin(credentials.value), Login(credentials.value, rest[n..]).input);
    } else {
      assert rest[n..] == [] + rest[n..];
      GreetingJoin(input, n, [], rest[n..]);
    }
  }

  lemma {:induction false} DomainComplete(utf8: seq<Byte> -> bool, name: seq<Byte>, rest: seq<Byte>)
    requires 1 <= |name| <= 255 && utf8(name)
    ensures ReadDomain(utf8, [|name|] + name + rest) == Io(Ok(Domain(name)), rest, [])
  {
    var input := [|name|] + name + rest;
    assert input[1..] == name + rest;
    assert (name + rest)[..|name|] == name && (name + rest)[|name|..] == rest;
  }

  /** The address after its type byte. */
  function AddressBody(utf8: seq<Byte> -> bool, a: Address): seq<Byte>
    requires Encodable(utf8, a)
  {
    EncodeAddress(utf8, a)[1..]
  }

  lemma {:induction false} AddressComplete(utf8: seq<Byte> -> bool, a: Address, rest: seq<Byte>)
    requires Encodable(utf8, a)
    ensures ReadAddress(utf8, EncodeAddress(utf8, a)[0], AddressBody(utf8, a) + rest) == Io(Ok(a), rest, [])
  {
    match a {
      case IPv4(octets) => assert AddressBody(utf8, a) == octets && (octets + rest)[..4] == octets && (octets + rest)[4..] == rest;
      case IPv6(groups) => assert AddressBody(utf8, a) == groups && (groups + rest)[..16] == groups && (groups + rest)[16..] == rest;
      case Domain(name) =>
        assert AddressBody(utf8, a) == [|name|] + name;
        DomainComplete(utf8, name, rest);
    }
  }

  lemma {:induction false} AddressSound(utf8: seq<Byte> -> bool, atyp: Byte, input: seq<Byte>)
    requires ReadAddress(utf8, atyp, input).result.Ok?
    ensures var io := ReadAddress(utf8, atyp, input);
            && Encodable(utf8, io.result.value) && io.output == []
            && [atyp] + input == EncodeAddress(utf8, io.result.value) + io.input
  {
    if atyp == 3 {
      var n, rest := input[0] as int, input[1..];
      assert input == [n] + rest && rest == rest[..n] + rest[n..];
    }
  }

  lemma {:induction false} RequestLayout(head: seq<Byte>, address: seq<Byte>, port: seq<Byte>, rest: seq<Byte>)
    requires |head| == 3 && |address| >= 1
    ensures var input := head + address + port + rest;
            && input[0] == head[0] && input[1] == head[1] && input[2] == head[2] && input[3] == address[0]
            && input[4..] == address[1..] + (port + rest)
  {
  }

  lemma {:induction false} RequestJoin(input: seq<Byte>, head: seq<Byte>, address: seq<Byte>, port: seq<Byte>, rest: seq<Byte>)
    requires |head| == 3 && |input| >= 4 && input[..3] == head
    requires [input[3]] + input[4..] == address + (port + rest)
    ensures input == head + address + port + rest
  {
    assert input == head + ([input[3]] + input[4..]);
  }

  lemma {:induction false} RequestComplete(utf8: seq<Byte> -> bool, a: Address, port: seq<Byte>, rest: seq<Byte>)
    requires Encodable(utf8, a) && |port| == 2
    ensures ReadRequest(utf8, EncodeRequest(utf8, a, port) + rest) == Io(Ok(Request(a, U16(port[0], port[1]))), rest, [])
  {
    var tail := port + rest;
    RequestLayout([VERSION, CMD_CONNECT, 0], EncodeAddress(utf8, a), port, rest);
    AddressComplete(utf8, a, tail);
    assert tail[2..] == rest && tail[0] == port[0] && tail[1] == port[1];
  }

  lemma {:induction false} RequestSound(utf8: seq<Byte> -> bool, input: seq<Byte>) returns (port: seq<Byte>)
    requires ReadRequest(utf8, input).result.Ok?
    ensures var io := ReadRequest(utf8, input);
            && |port| == 2 && io.result.value.port == U16(port[0], port[1])
            && Encodable(utf8, io.result.value.address) && io.output == []
            && input == EncodeRequest(utf8, io.result.value.address, port) + io.input
  {
    AddressSound(utf8, input[3], input[4..]);
    var a := ReadAddress(utf8, input[3], input[4..]);
    port := a.input[..2];
    assert a.input == port + a.input[2..];
    assert input[..3] == [VERSION, CMD_CONNECT, 0];
    RequestJoin(input, [VERSION, CMD_CONNECT, 0], EncodeAddress(utf8, a.result.value), port, a.input[2..]);
  }

  // ---- main results ----

  /** Every well-formed dialog is accepted, answered as prescribed, and consumed exactly. */
  lemma {:induction false} AcceptComplete(
    utf8: seq<Byte> -> bool, credentials: Option<Credentials>, methods: seq<Byte>, a: Address, port: seq<Byte>, rest: seq<Byte>)
    requires Offers(credentials, methods) && (credentials.Some? ==> Admitted(credentials.value))
    requires Encodable(utf8, a) && |port| == 2
    ensures Accept(utf8, credentials, EncodeGreeting(credentials, methods) + EncodeRequest(utf8, a, port) + rest) ==
            Io(Ok(Request(a, U16(port[0], port[1]))), rest, Replies(credentials))
  {
    Assoc(EncodeGreeting(credentials, methods), EncodeRequest(utf8, a, port), rest);
    NegotiateComplete(credentials, methods, EncodeRequest(utf8, a, port) + rest);
    RequestComplete(utf8, a, port, rest);
    assert Replies(credentials) + [] == Replies(credentials);
  }

  /**
    Nothing else is accepted: whatever yields a request began with a well-formed dialog, which with
    credentials configured contains exactly those.
   */
  lemma {:induction false} AcceptSound(utf8: seq<Byte> -> bool, credentials: Option<Credentials>, input: seq<Byte>)
    returns (methods: seq<Byte>, port: seq<Byte>)
    requires credentials.Some? ==> Admitted(credentials.value)
    requires Accept(utf8, credentials, input).result.Ok?
    ensures var io := Accept(utf8, credentials, input);
            var request := io.result.value;
            && Offers(credentials, methods) && Encodable(utf8, request.address)
            && |port| == 2 && request.port == U16(port[0], port[1])
            && input == EncodeGreeting(credentials, methods) + EncodeRequest(utf8, request.address, port) + io.input
            && io.output == Replies(credentials)
  {
    methods := NegotiateSound(credentials, input);
    var auth := Negotiate(credentials, input);
    port := RequestSound(utf8, auth.input);
    var io := ReadRequest(utf8, auth.input);
    Assoc(EncodeGreeting(credentials, methods), EncodeRequest(utf8, io.result.value.address, port), io.input);
    assert auth.output + [] == auth.output;
  }

  lemma {:induction false} LoginFollows(methods: seq<Byte>, login: seq<Byte>, tail: seq<Byte>)
    requires 1 <= |methods| <= 255
    ensures var input := [VERSION, |methods|] + methods + login + tail;
            |input| >= 2 && 2 + input[1] as int <= |input| && login <= input[2 + input[1] as int..]
  {
    var input := [VERSION, |methods|] + methods + login + tail;
    assert input[1] == |methods|;
    assert input[2 + |methods|..] == login + tail;
  }

  /** With credentials configured, no request comes of input that does not carry them. */
  lemma {:induction false} NoRequestWithoutCredentials(utf8: seq<Byte> -> bool, c: Credentials, input: seq<Byte>)
    requires Admitted(c) && Accept(utf8, Some(c), input).result.Ok?
    ensures |input| >= 2 && 2 + input[1] as int <= |input| && EncodeLogin(c) <= input[2 + input[1] as int..]
  {
    var methods, port := AcceptSound(utf8, Some(c), input);
    var io := Accept(utf8, Some(c), input);
    var request := EncodeRequest(utf8, io.result.value.address, port);
    Assoc(EncodeGreeting(Some(c), methods), request, io.input);
    LoginFollows(methods, EncodeLogin(c), request + io.input);
  }

  // ---- the server on a socket ----

  /** A connection: the bytes the client has still to be read of, and the bytes written to it. */
  class Socket {
    var input: seq<Byte>
    var output: seq<Byte>

    constructor (input: seq<Byte>)
      ensures this.input == input && output == []
    {
      this.input, this.output := input, [];
    }

    method ReadExact(n: nat) returns (r: Result<seq<Byte>, SocksError>)
      modifies this`input
      ensures if n <= |old(input)| then r == Ok(old(input)[..n]) && input == old(input)[n..]
              else r == Err(Eof) && input == []
    {
      if n <= |input| {
        r := Ok(input[..n]);
        input := input[n..];
      } else {
        r, input := Err(Eof), [];
      }
    }

    method WriteAll(data: seq<Byte>)
      modifies this`output
      ensures output == old(output) + data
    {
      output := output + data;
    }

    /** `authenticate_socks_userpass` */
    method AuthenticateUserPass(c: Credentials) returns (r: Result<(), SocksError>)
      modifies this
      ensures var io := Login(c, old(input));
              r == io.result && input == io.input && output == old(output) + io.output
    {
      var header := ReadExact(2);
      if header.Err? { return Err(header.error); }
      if header.value[0] != 1 || header.value[1] == 0 {
        WriteAll([1, 1]);
        return Err(AuthFailed);
      }
      ghost var afterHeader := input;
      var username := ReadExact(header.value[1] as int);
      if username.Err? { return Err(username.error); }
      var plen := ReadExact(1);
      if plen.Err? { return Err(plen.error); }
      ghost var u := header.value[1] as int;
      assert afterHeader[u..][1..] == afterHeader[u + 1..];
      if plen.value[0] == 0 {
        WriteAll([1, 1]);
        return Err(AuthFailed);
      }
      var password := ReadExact(plen.value[0] as int);
      if password.Err? { return Err(password.error); }
      if c.username == username.value && c.password == password.value {
        WriteAll([1, 0]);
        return Ok(());
      }
      WriteAll([1, 1]);
      return Err(AuthFailed);
    }

    method NegotiateAuth(credentials: Option<Credentials>) returns (r: Result<(), SocksError>)
      modifies this
      ensures var io := Negotiate(credentials, old(input));
              r == io.result && input == io.input && output == old(output) + io.output
    {
      var greeting := ReadExact(2);
      if greeting.Err? { return Err(greeting.error); }
      if greeting.value[0] != VERSION {
        return Err(UnsupportedVersion(greeting.value[0]));
      }
      if greeting.value[1] == 0 {
        WriteAll([VERSION, NO_ACCEPTABLE_METHODS]);
        return Err(NoAcceptableAuth);
      }
      var methods := ReadExact(greeting.value[1] as int);
      if methods.Err? { return Err(methods.error); }
      if credentials.Some? && USERPASS in methods.value {
        WriteAll([VERSION, USERPASS]);
        r := AuthenticateUserPass(credentials.value);
        Assoc(old(output), [VERSION, USERPASS], Login(credentials.value, old(input)[2..][greeting.value[1] as int..]).output);
      } else if credentials.None? && NO_AUTH in methods.value {
        WriteAll([VERSION, NO_AUTH]);
        r := Ok(());
      } else {
        WriteAll([VERSION, NO_ACCEPTABLE_METHODS]);
        r := Err(NoAcceptableAuth);
      }
    }

    method ReadSocksAddress(utf8: seq<Byte> -> bool, atyp: Byte) returns (r: Result<Address, SocksError>)
      modifies this
      ensures var io := ReadAddress(utf8, atyp, old(input));
              r == io.result && input == io.input && output == old(output) + io.output
    {
      if atyp == 1 {
        var octets := ReadExact(4);
        return if octets.Err? then Err(octets.error) else Ok(IPv4(octets.value));
      } else if atyp == 3 {
        var len := ReadExact(1);
        if len.Err? { return Err(len.error); }
        if len.value[0] == 0 {
          WriteAll(Reply(REP_ADDRESS_TYPE_NOT_SUPPORTED));
          return Err(InvalidAddress);
        }
        var name := ReadExact(len.value[0] as int);
        if name.Err? { return Err(name.error); }
        return if utf8(name.value) then Ok(Domain(name.value)) else Err(InvalidAddress);
      } else if atyp == 4 {
        var groups := ReadExact(16);
        return if groups.Err? then Err(groups.error) else Ok(IPv6(groups.value));
      } else {
        WriteAll(Reply(REP_ADDRESS_TYPE_NOT_SUPPORTED));
        return Err(UnsupportedAddressType(atyp));
      }
    }

    /** The part of `accept_socks5_connect` after negotiation. */
    method ReadConnect(utf8: seq<Byte> -> bool) returns (r: Result<Request, SocksError>)
      modifies this
      ensures var io := ReadRequest(utf8, old(input));
              r == io.result && input == io.input && output == old(output) + io.output
    {
      var header := ReadExact(4);
      if header.Err? { return Err(header.error); }
      if header.value[0] != VERSION || header.value[2] != 0 {
        WriteAll(Reply(REP_GENERAL_FAILURE));
        return Err(InvalidRequest);
      }
      if header.value[1] != CMD_CONNECT {
        WriteAll(Reply(REP_COMMAND_NOT_SUPPORTED));
        return Err(UnsupportedCommand(header.value[1]));
      }
      var address := ReadSocksAddress(utf8, header.value[3]);
      if address.Err? { return Err(address.error); }
      var port := ReadExact(2);
      if port.Err? { return Err(port.error); }
      return Ok(Request(address.value, U16(port.value[0], port.value[1])));
    }

    /** `accept_socks5_connect` */
    method AcceptConnect(utf8: seq<Byte> -> bool, credentials: Option<Credentials>) returns (r: Result<Request, SocksError>)
      modifies this
      ensures var io := Accept(utf8, credentials, old(input));
              r == io.result && input == io.input && output == old(output) + io.output
    {
      var auth := NegotiateAuth(credentials);
      if auth.Err? { return Err(auth.error); }
      ghost var mid := input;
      r := ReadConnect(utf8);
      Assoc(old(output), Negotiate(credentials, old(input)).output, ReadRequest(utf8, mid).output);
    }
  }
}
