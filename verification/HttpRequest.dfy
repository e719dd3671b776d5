/**
  The HTTP side of crates/server/src/mixed_proxy.rs, third part: request line, target, proxy
  authentication and the accepted request. UTF-8 validity and base64 are parameters.
 */
module HttpRequest {
  import opened Bytes
  import opened HttpHead
  import opened HttpForward

  datatype Env = Env(utf8: seq<Byte> -> bool, base64: seq<Byte> -> Option<seq<Byte>>)

  // ---- the request line ----

  function WordEnd(s: seq<Byte>): (n: nat)
    ensures n <= |s|
    ensures forall i :: 0 <= i < n ==> s[i] != 13 && s[i] != 10
  {
    if s == [] || SpaceAt(s) > 0 then 0 else 1 + WordEnd(s[1..])
  }

  /** The next word of `split_whitespace`, empty if there is none, and what follows it. */
  function NextWord(s: seq<Byte>): (r: (seq<Byte>, seq<Byte>))
    ensures forall i :: 0 <= i < |r.0| ==> r.0[i] != 13 && r.0[i] != 10
  {
    var t := TrimStart(s);
    (t[..WordEnd(t)], t[WordEnd(t)..])
  }

  /** `HTTP/1.` */
  const HTTP_1: seq<Byte> := [72, 84, 84, 80, 47, 49, 46]

  /** `CONNECT` */
  const CONNECT: seq<Byte> := [67, 79, 78, 78, 69, 67, 84]

  /** `http://` */
  const HTTP_SCHEME: seq<Byte> := [104, 116, 116, 112, 58, 47, 47]

  /** `basic` */
  const BASIC: seq<Byte> := [98, 97, 115, 105, 99]

  datatype RequestParts = RequestParts(verb: seq<Byte>, target: seq<Byte>, version: seq<Byte>)

  function ParseRequestLine(line: seq<Byte>): (r: Result<RequestParts, HttpError>)
    ensures r.Ok? ==> r.value.verb != [] && NoBreaks(r.value.verb) && NoBreaks(r.value.target) && NoBreaks(r.value.version)
  {
    var (verb, afterVerb) := NextWord(line);
    var (target, afterTarget) := NextWord(afterVerb);
    var (version, rest) := NextWord(afterTarget);
    if verb == [] || target == [] || version == [] || NextWord(rest).0 != [] || !(HTTP_1 <= version)
    then Err(InvalidHttpRequest)
    else Ok(RequestParts(verb, target, version))
  }

  predicate NoBreaks(s: seq<Byte>) {
    forall i :: 0 <= i < |s| ==> s[i] != 13 && s[i] != 10
  }

  // ---- the target ----

  const AT: Byte := 64
  const OPEN: Byte := 91
  const CLOSE: Byte := 93

  predicate AllDigits(s: seq<Byte>) {
    forall i :: 0 <= i < |s| ==> 48 <= s[i] <= 57
  }

  function Value(s: seq<Byte>): nat
    requires AllDigits(s)
  {
    if s == [] then 0 else Value(s[..|s| - 1]) * 10 + (s[|s| - 1] as int - 48)
  }

  /** Rust's `parse::<u16>`: digits with an optional plus sign in front. */
  function ParseU16(s: seq<Byte>): Option<nat> {
    var digits := if |s| > 0 && s[0] == 43 then s[1..] else s;
    if digits == [] || !AllDigits(digits) || Value(digits) > 65535 then None else Some(Value(digits))
  }

  /** Position of the last byte `b`, or the length. */
  function FindLast(s: seq<Byte>, b: Byte): (n: nat)
    ensures n <= |s| && (n < |s| ==> s[n] == b)
    ensures n < |s| ==> forall i :: n < i < |s| ==> s[i] != b
    ensures n == |s| ==> b !in s
  {
    if s == [] then 0
    else if s[|s| - 1] == b then |s| - 1
    else
      var n := FindLast(s[..|s| - 1], b);
      assert s == s[..|s| - 1] + [s[|s| - 1]];
      if n == |s| - 1 then |s| else n
  }

  datatype Target = Target(host: seq<Byte>, port: nat, hostHeader: seq<Byte>)

  function WithPort(host: seq<Byte>, portText: seq<Byte>, hostHeader: seq<Byte>, bracketed: bool): Result<Target, HttpError> {
    if host == [] || portText == [] || (!bracketed && COLON in host) then Err(InvalidHttpTarget)
    else
      match ParseU16(portText)
      case None => Err(InvalidHttpTarget)
      case Some(port) => if port == 0 then Err(InvalidHttpTarget) else Ok(Target(host, port, hostHeader))
  }

  function ParseBracketed(authority: seq<Byte>, defaultPort: Option<nat>): Result<Target, HttpError>
    requires |authority| > 0
  {
    var rest := authority[1..];
    var end := Find(rest, CLOSE);
    if end == |rest| || end == 0 then Err(InvalidHttpTarget)
    else
      var host, suffix := rest[..end], rest[end + 1..];
      if suffix != [] && suffix[0] == COLON then WithPort(host, suffix[1..], authority, true)
      else if suffix == [] && defaultPort.Some? then Ok(Target(host, defaultPort.value, [OPEN] + host + [CLOSE]))
      else Err(InvalidHttpTarget)
  }

  /** `parse_authority_with_default` */
  function ParseAuthority(authority: seq<Byte>, defaultPort: Option<nat>): Result<Target, HttpError> {
    if authority == [] || AT in authority then Err(InvalidHttpTarget)
    else if authority[0] == OPEN then ParseBracketed(authority, defaultPort)
    else
      var colon := FindLast(authority, COLON);
      if colon < |authority| then WithPort(authority[..colon], authority[colon + 1..], authority, false)
      else if defaultPort.Some? then Ok(Target(authority, defaultPort.value, authority))
      else Err(InvalidHttpTarget)
  }

  ghost predicate IsPort(text: seq<Byte>, port: nat) {
    ParseU16(text) == Some(port) && port != 0
  }

  ghost predicate IsHost(a: seq<Byte>, host: seq<Byte>) {
    COLON !in host && host != [] && host[0] != OPEN && a == host
  }

  ghost predicate IsHostPort(a: seq<Byte>, host: seq<Byte>, port: nat) {
    COLON !in host && host != [] && host[0] != OPEN && exists t :: a == host + [COLON] + t && IsPort(t, port)
  }

  ghost predicate IsBracketed(a: seq<Byte>, host: seq<Byte>) {
    CLOSE !in host && host != [] && a == [OPEN] + host + [CLOSE]
  }

  ghost predicate IsBracketedPort(a: seq<Byte>, host: seq<Byte>, port: nat) {
    CLOSE !in host && host != [] && exists t :: a == [OPEN] + host + [CLOSE, COLON] + t && IsPort(t, port)
  }

  /** The four shapes of an authority: host, host:port, [host] and [host]:port. */
  ghost predicate IsAuthority(a: seq<Byte>, defaultPort: Option<nat>, host: seq<Byte>, port: nat) {
    && AT !in a
    && (|| (defaultPort == Some(port) && (IsHost(a, host) || IsBracketed(a, host)))
        || IsHostPort(a, host, port)
        || IsBracketedPort(a, host, port))
  }

  lemma {:induction false} PortTextHasNoColon(t: seq<Byte>)
    requires ParseU16(t).Some?
    ensures COLON !in t && t != []
  {
    if t[0] == 43 {
      assert t == [43] + t[1..];
    }
  }

  lemma {:induction false} Unbracket(a: seq<Byte>)
    requires a != [] && a[0] == OPEN && Find(a[1..], CLOSE) < |a[1..]|
    ensures var rest := a[1..];
            var end := Find(rest, CLOSE);
            CLOSE !in rest[..end] && a == [OPEN] + rest[..end] + [CLOSE] + rest[end + 1..]
  {
    var rest := a[1..];
    var end := Find(rest, CLOSE);
    assert a == [OPEN] + rest;
    assert rest == rest[..end] + [CLOSE] + rest[end + 1..];
  }

  lemma {:induction false} BracketedSound(a: seq<Byte>, defaultPort: Option<nat>)
    requires a != [] && AT !in a && a[0] == OPEN && ParseBracketed(a, defaultPort).Ok?
    ensures var t := ParseBracketed(a, defaultPort).value;
            IsAuthority(a, defaultPort, t.host, t.port) && t.hostHeader == a
  {
    Unbracket(a);
    var rest := a[1..];
    var end := Find(rest, CLOSE);
    var host, suffix, t := rest[..end], rest[end + 1..], ParseBracketed(a, defaultPort).value;
    if suffix != [] {
      assert IsPort(suffix[1..], t.port);
      WithColon(host, suffix);
    } else {
      assert a == [OPEN] + host + [CLOSE];
    }
  }

  lemma {:induction false} WithColon(host: seq<Byte>, suffix: seq<Byte>)
    requires suffix != [] && suffix[0] == COLON
    ensures [OPEN] + host + [CLOSE] + suffix == [OPEN] + host + [CLOSE, COLON] + suffix[1..]
  {
  }

  lemma {:induction false} PlainSound(a: seq<Byte>, defaultPort: Option<nat>)
    requires a != [] && AT !in a && a[0] != OPEN && ParseAuthority(a, defaultPort).Ok?
    ensures var t := ParseAuthority(a, defaultPort).value;
            IsAuthority(a, defaultPort, t.host, t.port) && t.hostHeader == a
  {
    var colon := FindLast(a, COLON);
    if colon < |a| {
      var t := ParseAuthority(a, defaultPort).value;
      SplitOnce(a, colon);
      assert t.host == a[..colon] && IsPort(a[colon + 1..], t.port);
      assert a == t.host + [COLON] + a[colon + 1..];
      assert IsHostPort(a, t.host, t.port);
    }
  }

  lemma {:induction false} FindIs(s: seq<Byte>, b: Byte, n: nat)
    requires n < |s| && s[n] == b && forall i :: 0 <= i < n ==> s[i] != b
    ensures Find(s, b) == n
  {
  }

  lemma {:induction false} FindLastIs(s: seq<Byte>, b: Byte, n: nat)
    requires n < |s| && s[n] == b && forall i :: n < i < |s| ==> s[i] != b
    ensures FindLast(s, b) == n
  {
    assert s[n] in s;
  }

  lemma {:induction false} BracketedComplete(host: seq<Byte>, suffix: seq<Byte>, defaultPort: Option<nat>)
    requires host != [] && CLOSE !in host && AT !in [OPEN] + host + [CLOSE] + suffix
    ensures var a := [OPEN] + host + [CLOSE] + suffix;
            ParseAuthority(a, defaultPort) ==
            if suffix != [] && suffix[0] == COLON then WithPort(host, suffix[1..], a, true)
            else if suffix == [] && defaultPort.Some? then Ok(Target(host, defaultPort.value, a))
            else Err(InvalidHttpTarget)
  {
    var a := [OPEN] + host + [CLOSE] + suffix;
    var rest := a[1..];
    assert rest == host + [CLOSE] + suffix;
    assert forall i :: 0 <= i < |host| ==> rest[i] == host[i];
    FindIs(rest, CLOSE, |host|);
    assert rest[|host| + 1..] == suffix && rest[..|host|] == host;
    if suffix == [] {
      assert a == [OPEN] + host + [CLOSE];
    }
  }

  /** The parser accepts exactly the four shapes, and the Host header it makes is the authority itself. */
  lemma {:induction false} AuthorityExact(a: seq<Byte>, defaultPort: Option<nat>, t: Target)
    ensures ParseAuthority(a, defaultPort) == Ok(t) <==>
            IsAuthority(a, defaultPort, t.host, t.port) && t.hostHeader == a
  {
    if ParseAuthority(a, defaultPort) == Ok(t) {
      if a[0] == OPEN {
        BracketedSound(a, defaultPort);
      } else {
        PlainSound(a, defaultPort);
      }
    }
    if IsAuthority(a, defaultPort, t.host, t.port) && t.hostHeader == a {
      AuthorityComplete(a, defaultPort, t);
    }
  }

  lemma {:induction false} HostPortComplete(a: seq<Byte>, defaultPort: Option<nat>, host: seq<Byte>, port: nat)
    requires IsHostPort(a, host, port) && AT !in a
    ensures ParseAuthority(a, defaultPort) == Ok(Target(host, port, a))
  {
    var u :| a == host + [COLON] + u && IsPort(u, port);
    PortTextHasNoColon(u);
    PlainComplete(host, u, defaultPort);
  }

  lemma {:induction false} BracketedPortComplete(a: seq<Byte>, defaultPort: Option<nat>, host: seq<Byte>, port: nat)
    requires IsBracketedPort(a, host, port) && AT !in a
    ensures ParseAuthority(a, defaultPort) == Ok(Target(host, port, a))
  {
    var u :| a == [OPEN] + host + [CLOSE, COLON] + u && IsPort(u, port);
    PortTextHasNoColon(u);
    var suffix := [COLON] + u;
    assert suffix[1..] == u;
    WithColon(host, suffix);
    BracketedComplete(host, suffix, defaultPort);
  }

  lemma {:induction false} AuthorityComplete(a: seq<Byte>, defaultPort: Option<nat>, t: Target)
    requires IsAuthority(a, defaultPort, t.host, t.port) && t.hostHeader == a
    ensures ParseAuthority(a, defaultPort) == Ok(t)
  {
    if IsHostPort(a, t.host, t.port) {
      HostPortComplete(a, defaultPort, t.host, t.port);
    } else if IsBracketedPort(a, t.host, t.port) {
      BracketedPortComplete(a, defaultPort, t.host, t.port);
    } else if IsBracketed(a, t.host) {
      assert a == [OPEN] + t.host + [CLOSE] + [];
      BracketedComplete(t.host, [], defaultPort);
    }
  }

  lemma {:induction false} PlainComplete(host: seq<Byte>, text: seq<Byte>, defaultPort: Option<nat>)
    requires host != [] && COLON !in host && host[0] != OPEN && AT !in host + [COLON] + text
    requires ParseU16(text).Some?
    ensures var a := host + [COLON] + text;
            ParseAuthority(a, defaultPort) == WithPort(host, text, a, false)
  {
    var a := host + [COLON] + text;
    PortTextHasNoColon(text);
    assert a[|host| + 1..] == text && a[..|host|] == host;
    assert forall i :: |host| < i < |a| ==> a[i] == text[i - |host| - 1];
    FindLastIs(a, COLON, |host|);
  }

  /** Position of the first slash or question mark, or the length. */
  function PathStart(s: seq<Byte>): (n: nat)
    ensures n <= |s| && (n < |s| ==> s[n] == 47 || s[n] == 63)
    ensures forall i :: 0 <= i < n ==> s[i] != 47 && s[i] != 63
  {
    if s == [] || s[0] == 47 || s[0] == 63 then 0 else 1 + PathStart(s[1..])
  }

  datatype Uri = Uri(target: Target, originForm: seq<Byte>)

  function OriginForm(path: seq<Byte>): seq<Byte> {
    if path != [] && path[0] == 47 then path else [47] + path
  }

  /** What follows the scheme, up to the path and from it. */
  function AuthorityOf(target: seq<Byte>): seq<Byte>
    requires |target| >= 7
  {
    target[7..][..PathStart(target[7..])]
  }

  function PathOf(target: seq<Byte>): seq<Byte>
    requires |target| >= 7
  {
    target[7..][PathStart(target[7..])..]
  }

  /** `parse_absolute_http_uri` */
  function ParseAbsoluteUri(target: seq<Byte>): (r: Result<Uri, HttpError>)
    ensures r.Ok? ==> |target| >= 7
  {
    if !(HTTP_SCHEME <= target) || |target| == 7 || 35 in target[7..] then Err(InvalidHttpTarget)
    else
      match ParseAuthority(AuthorityOf(target), Some(80))
      case Err(e) => Err(e)
      case Ok(t) => Ok(Uri(t, OriginForm(PathOf(target))))
  }

  lemma {:induction false} UriParts(target: seq<Byte>)
    requires |target| >= 7 && HTTP_SCHEME <= target
    ensures target == HTTP_SCHEME + AuthorityOf(target) + PathOf(target)
    ensures var path := PathOf(target); path == [] || path[0] == 47 || path[0] == 63
  {
    var rest := target[7..];
    assert rest == AuthorityOf(target) + PathOf(target);
    assert target == HTTP_SCHEME + rest;
    Assoc(HTTP_SCHEME, AuthorityOf(target), PathOf(target));
  }

  /**
    An accepted absolute URI is the scheme, the Host header and the path; the path goes out as it is,
    with a slash put in front when it does not start with one.
   */
  lemma {:induction false} UriReassembles(target: seq<Byte>)
    requires ParseAbsoluteUri(target).Ok?
    ensures var u, path := ParseAbsoluteUri(target).value, PathOf(target);
            && target == HTTP_SCHEME + u.target.hostHeader + path
            && (path == [] || path[0] == 47 || path[0] == 63)
            && u.originForm == (if path != [] && path[0] == 47 then path else [47] + path)
            && IsAuthority(u.target.hostHeader, Some(80), u.target.host, u.target.port)
  {
    UriParts(target);
    AuthorityExact(AuthorityOf(target), Some(80), ParseAbsoluteUri(target).value.target);
  }

  // ---- proxy authentication ----

  /** Index of the first header line called `name`, or the number of lines. */
  function FirstNamed(headers: seq<seq<Byte>>, name: seq<Byte>): (n: nat)
    ensures n <= |headers| && (n < |headers| ==> Named(headers[n], name))
  {
    if headers == [] || Named(headers[0], name) then 0 else 1 + FirstNamed(headers[1..], name)
  }

  lemma {:induction false} FirstNamedIsFirst(headers: seq<seq<Byte>>, name: seq<Byte>, i: nat)
    requires i < FirstNamed(headers, name)
    ensures !Named(headers[i], name)
  {
    if i > 0 {
      FirstNamedIsFirst(headers[1..], name, i - 1);
    }
  }

  /** The trimmed text after the first colon. */
  function HeaderValue(line: seq<Byte>): seq<Byte> {
    if Find(line, COLON) < |line| then Trim(line[Find(line, COLON) + 1..]) else []
  }

  function ProxyAuth(headers: seq<seq<Byte>>, name: seq<Byte>): Option<seq<Byte>> {
    var n := FirstNamed(headers, name);
    if n < |headers| then Some(HeaderValue(headers[n])) else None
  }

  /** `authenticate_http_basic`; `credentials` is the text user:password. */
  function AuthenticateBasic(env: Env, proxyAuth: Option<seq<Byte>>, credentials: seq<Byte>): Result<(), HttpError> {
    match proxyAuth
    case None => Err(HttpAuthRequired)
    case Some(value) =>
      var space := Find(value, 32);
      if space == |value| || !EqIgnoreCase(value[..space], BASIC) then Err(HttpAuthRequired)
      else
        match env.base64(Trim(value[space + 1..]))
        case None => Err(HttpAuthRequired)
        case Some(decoded) => if decoded == credentials then Ok(()) else Err(HttpAuthFailed)
  }

  /** The first line called `name` carries the credentials under the basic scheme. */
  ghost predicate Presents(env: Env, headers: seq<seq<Byte>>, name: seq<Byte>, credentials: seq<Byte>) {
    exists i :: 0 <= i < |headers| && IsFirst(headers, name, i) && IsBasic(env, HeaderValue(headers[i]), credentials)
  }

  ghost predicate IsFirst(headers: seq<seq<Byte>>, name: seq<Byte>, i: nat) {
    i < |headers| && Named(headers[i], name) && forall k :: 0 <= k < i ==> !Named(headers[k], name)
  }

  ghost predicate IsBasic(env: Env, value: seq<Byte>, credentials: seq<Byte>) {
    exists scheme, token :: value == scheme + [32] + token && IsToken(env, scheme, token, credentials)
  }

  predicate IsToken(env: Env, scheme: seq<Byte>, token: seq<Byte>, credentials: seq<Byte>) {
    EqIgnoreCase(scheme, BASIC) && env.base64(Trim(token)) == Some(credentials)
  }

  lemma {:induction false} AuthenticatedIsBasic(env: Env, value: seq<Byte>, credentials: seq<Byte>)
    requires AuthenticateBasic(env, Some(value), credentials).Ok?
    ensures IsBasic(env, value, credentials)
  {
    SplitOnce(value, Find(value, 32));
  }

  lemma {:induction false} NoSpaceInScheme(scheme: seq<Byte>)
    requires EqIgnoreCase(scheme, BASIC)
    ensures forall i :: 0 <= i < |scheme| ==> scheme[i] != 32
  {
    forall i | 0 <= i < |scheme| ensures scheme[i] != 32 {
      assert Lower(BASIC[i]) != 32;
    }
  }

  /** The scheme has no space in it, so the first space is the one that ends it. */
  lemma {:induction false} BasicAuthenticates(env: Env, scheme: seq<Byte>, token: seq<Byte>, credentials: seq<Byte>)
    requires IsToken(env, scheme, token, credentials)
    ensures AuthenticateBasic(env, Some(scheme + [32] + token), credentials).Ok?
  {
    var value := scheme + [32] + token;
    NoSpaceInScheme(scheme);
    FindIs(value, 32, |scheme|);
    assert value[..|scheme|] == scheme && value[|scheme| + 1..] == token;
  }

  lemma {:induction false} SplitOnce(s: seq<Byte>, n: nat)
    requires n < |s|
    ensures s == s[..n] + [s[n]] + s[n + 1..]
  {
  }

  /** Authentication succeeds exactly when the first line of that name carries the credentials. */
  lemma {:induction false} AuthenticatedPresents(env: Env, headers: seq<seq<Byte>>, name: seq<Byte>, credentials: seq<Byte>)
    ensures AuthenticateBasic(env, ProxyAuth(headers, name), credentials).Ok? <==> Presents(env, headers, name, credentials)
  {
    var n := FirstNamed(headers, name);
    forall i | 0 <= i < n ensures !Named(headers[i], name) {
      FirstNamedIsFirst(headers, name, i);
    }
    if Presents(env, headers, name, credentials) {
      var i :| 0 <= i < |headers| && IsFirst(headers, name, i) && IsBasic(env, HeaderValue(headers[i]), credentials);
      assert i == n;
      var scheme, token :| HeaderValue(headers[i]) == scheme + [32] + token && IsToken(env, scheme, token, credentials);
      BasicAuthenticates(env, scheme, token, credentials);
    }
    if AuthenticateBasic(env, ProxyAuth(headers, name), credentials).Ok? {
      AuthenticatedIsBasic(env, HeaderValue(headers[n]), credentials);
      assert IsFirst(headers, name, n);
    }
  }

  // ---- the request ----

  datatype Request =
    | Connect(target: Target, initial: seq<Byte>)
    | Forward(target: Target, outbound: seq<Byte>)

  /** What a head asks for, before anything is rewritten. */
  datatype Plan = ConnectTo(target: Target) | ForwardTo(parts: RequestParts, uri: Uri)

  function ParseHead(env: Env, credentials: Option<seq<Byte>>, head: seq<Byte>): Result<Plan, HttpError> {
    if !env.utf8(head) then Err(InvalidHttpRequest)
    else
      var lines := Split(head);
      match ParseRequestLine(lines[0])
      case Err(e) => Err(e)
      case Ok(parts) =>
        var auth := if credentials.None? then Ok(())
                    else AuthenticateBasic(env, ProxyAuth(lines[1..], PROXY_AUTHORIZATION), credentials.value);
        if auth.Err? then Err(auth.error)
        else if parts.verb == CONNECT then
          match ParseAuthority(parts.target, None)
          case Err(e) => Err(e)
          case Ok(t) => Ok(ConnectTo(t))
        else
          match ParseAbsoluteUri(parts.target)
          case Err(e) => Err(e)
          case Ok(u) => Ok(ForwardTo(parts, u))
  }

  function ForwardRequestLine(parts: RequestParts, uri: Uri): seq<Byte> {
    RequestLine(parts.verb, uri.originForm, parts.version)
  }

  /** The head `out` in new lines, ending where the body starts. */
  ghost predicate ForwardsAs(out: seq<Byte>, request: seq<Byte>, host: seq<Byte>, headers: seq<seq<Byte>>, body: seq<Byte>) {
    && Split(out) == ForwardLines(request, host, headers) + [[], []]
    && |out| >= 4 && FirstEnd(out + body, |out| - 4)
  }

  /** What the origin server gets: the rewritten head and the body. */
  ghost predicate Forwards(outbound: seq<Byte>, request: seq<Byte>, host: seq<Byte>, headers: seq<seq<Byte>>, body: seq<Byte>) {
    exists out :: outbound == out + body && ForwardsAs(out, request, host, headers, body)
  }

  /** `r` answers the head `h`, for a client that showed the credentials if there are any. */
  ghost predicate Accepts(env: Env, credentials: Option<seq<Byte>>, h: Head, r: Request) {
    var lines := Split(h.head);
    && (credentials.Some? ==> Presents(env, lines[1..], PROXY_AUTHORIZATION, credentials.value))
    && ParseRequestLine(lines[0]).Ok?
    && var parts := ParseRequestLine(lines[0]).value;
       match r
       case Connect(t, initial) =>
         parts.verb == CONNECT && IsAuthority(parts.target, None, t.host, t.port) && initial == h.initial
       case Forward(t, outbound) =>
         && parts.verb != CONNECT && ParseAbsoluteUri(parts.target).Ok?
         && ParseAbsoluteUri(parts.target).value.target == t
         && Forwards(outbound, ForwardRequestLine(parts, ParseAbsoluteUri(parts.target).value), t.hostHeader,
                     lines[1..], h.initial)
  }

  lemma {:induction false} NoBreaksConcat(a: seq<Byte>, b: seq<Byte>)
    ensures NoBreaks(a + b) <==> NoBreaks(a) && NoBreaks(b)
  {
    assert forall i :: 0 <= i < |a| ==> a[i] == (a + b)[i];
    assert forall i :: 0 <= i < |b| ==> b[i] == (a + b)[|a| + i];
  }

  lemma {:induction false} RequestLineHasNoBreaks(verb: seq<Byte>, target: seq<Byte>, version: seq<Byte>)
    requires NoBreaks(verb) && NoBreaks(target) && NoBreaks(version)
    ensures OneLine(RequestLine(verb, target, version)) && RequestLine(verb, target, version) != []
  {
    NoBreaksConcat(verb, [32]);
    NoBreaksConcat(verb + [32], target);
    NoBreaksConcat(verb + [32] + target, [32]);
    NoBreaksConcat(verb + [32] + target + [32], version);
  }

  lemma {:induction false} NoBreaksParts(a: seq<Byte>, b: seq<Byte>, c: seq<Byte>)
    requires NoBreaks(a + b + c)
    ensures NoBreaks(b) && NoBreaks(c) && NoBreaks([47] + c)
  {
    NoBreaksConcat(a + b, c);
    NoBreaksConcat(a, b);
    NoBreaksConcat([47], c);
  }

  lemma {:induction false} HostHeaderIsAuthority(target: seq<Byte>)
    requires ParseAbsoluteUri(target).Ok?
    ensures ParseAbsoluteUri(target).value.target.hostHeader == AuthorityOf(target)
  {
    AuthorityExact(AuthorityOf(target), Some(80), ParseAbsoluteUri(target).value.target);
  }

  lemma {:induction false} UriHasNoBreaks(target: seq<Byte>)
    requires NoBreaks(target) && ParseAbsoluteUri(target).Ok?
    ensures var u := ParseAbsoluteUri(target).value;
            NoBreaks(u.originForm) && NoBreaks(u.target.hostHeader)
  {
    UriParts(target);
    NoBreaksParts(HTTP_SCHEME, AuthorityOf(target), PathOf(target));
    HostHeaderIsAuthority(target);
  }

  lemma {:induction false} ForwardsHead(request: seq<Byte>, host: seq<Byte>, headers: seq<seq<Byte>>, body: seq<Byte>)
    requires OneLine(request) && request != [] && OneLine(HOST_PREFIX + host)
    requires forall i :: 0 <= i < |headers| ==> OneLine(headers[i])
    ensures Forwards(Terminated(ForwardLines(request, host, headers)) + CRLF + body, request, host, headers, body)
  {
    ForwardedHead(request, host, headers, body);
    assert ForwardsAs(Terminated(ForwardLines(request, host, headers)) + CRLF, request, host, headers, body);
  }

  lemma {:induction false} HeadIsLines(parts: RequestParts, uri: Uri)
    requires NoBreaks(parts.verb) && NoBreaks(parts.target) && NoBreaks(parts.version)
    requires ParseAbsoluteUri(parts.target) == Ok(uri)
    ensures OneLine(ForwardRequestLine(parts, uri)) && ForwardRequestLine(parts, uri) != []
    ensures OneLine(HOST_PREFIX + uri.target.hostHeader)
  {
    UriHasNoBreaks(parts.target);
    RequestLineHasNoBreaks(parts.verb, uri.originForm, parts.version);
    NoBreaksConcat(HOST_PREFIX, uri.target.hostHeader);
  }

  lemma {:induction false} AcceptsConnect(env: Env, credentials: Option<seq<Byte>>, h: Head, t: Target)
    requires ParseHead(env, credentials, h.head) == Ok(ConnectTo(t))
    ensures Accepts(env, credentials, h, Connect(t, h.initial))
  {
    var lines := Split(h.head);
    if credentials.Some? {
      AuthenticatedPresents(env, lines[1..], PROXY_AUTHORIZATION, credentials.value);
    }
    AuthorityExact(ParseRequestLine(lines[0]).value.target, None, t);
  }

  /** What a plan to forward tells about the head. */
  lemma {:induction false} ForwardPlan(env: Env, credentials: Option<seq<Byte>>, head: seq<Byte>, parts: RequestParts, uri: Uri)
    requires ParseHead(env, credentials, head) == Ok(ForwardTo(parts, uri))
    ensures ParseRequestLine(Split(head)[0]) == Ok(parts) && parts.verb != CONNECT && ParseAbsoluteUri(parts.target) == Ok(uri)
    ensures credentials.Some? ==> Presents(env, Split(head)[1..], PROXY_AUTHORIZATION, credentials.value)
  {
    if credentials.Some? {
      AuthenticatedPresents(env, Split(head)[1..], PROXY_AUTHORIZATION, credentials.value);
    }
  }

  lemma {:induction false} HeaderLines(head: seq<Byte>)
    ensures forall i :: 0 <= i < |Split(head)[1..]| ==> OneLine(Split(head)[1..][i])
  {
    SplitLines(head);
  }

  lemma {:induction false} AcceptsForward(env: Env, credentials: Option<seq<Byte>>, h: Head, parts: RequestParts, uri: Uri, outbound: seq<Byte>)
    requires ParseHead(env, credentials, h.head) == Ok(ForwardTo(parts, uri))
    requires outbound ==
             Terminated(ForwardLines(ForwardRequestLine(parts, uri), uri.target.hostHeader, Split(h.head)[1..])) + CRLF + h.initial
    ensures Accepts(env, credentials, h, Forward(uri.target, outbound))
  {
    ForwardPlan(env, credentials, h.head, parts, uri);
    HeaderLines(h.head);
    HeadIsLines(parts, uri);
    ForwardsHead(ForwardRequestLine(parts, uri), uri.target.hostHeader, Split(h.head)[1..], h.initial);
  }

  /**
    Every accepted request answers the head that was read: a tunnel to the authority asked for with
    the bytes after the head, or the rewritten head followed by those bytes. A request is accepted
    whenever there is a head to read and `ParseHead` finds nothing wrong with it.
   */
  method AcceptHttpRequest(env: Env, credentials: Option<seq<Byte>>, arrivals: seq<seq<Byte>>)
    returns (r: Result<Request, HttpError>, taken: nat)
    ensures r.Ok? ==> exists h :: Reads(arrivals, h, taken) && Accepts(env, credentials, h, r.value)
    ensures forall h, k :: Reads(arrivals, h, k) ==>
              taken == k && (r.Ok? <==> ParseHead(env, credentials, h.head).Ok?)
  {
    var head;
    head, taken := ReadHttpHead(arrivals);
    if head.Err? {
      forall h, k ensures !Reads(arrivals, h, k) {
        FailedReads(arrivals, taken, h, k);
      }
      return Err(head.error), taken;
    }
    var h := head.value;
    assert Reads(arrivals, h, taken);
    forall g, k | Reads(arrivals, g, k) ensures g == h && k == taken {
      ReadsUnique(arrivals, g, k, h, taken);
    }
    var plan := ParseHead(env, credentials, h.head);
    if plan.Err? {
      return Err(plan.error), taken;
    }
    match plan.value {
      case ConnectTo(t) =>
        AcceptsConnect(env, credentials, h, t);
        r := Ok(Connect(t, h.initial));
      case ForwardTo(parts, uri) =>
        var outbound := BuildForwardHead(ForwardRequestLine(parts, uri), uri.target.hostHeader, Split(h.head)[1..]);
        AcceptsForward(env, credentials, h, parts, uri, outbound + h.initial);
        r := Ok(Forward(uri.target, outbound + h.initial));
    }
  }
}
