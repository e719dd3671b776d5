/**
  The HTTP side of crates/server/src/mixed_proxy.rs, second part: header lines and the head that is
  sent on to the origin server.
 */
module HttpForward {
  import opened Bytes
  import opened HttpHead

  // ---- lines ----

  /** Position of the first line break, or the length. */
  function FirstBreak(s: seq<Byte>): (n: nat)
    ensures n <= |s|
  {
    if |s| < 2 then |s|
    else if s[0] == 13 && s[1] == 10 then 0
    else 1 + FirstBreak(s[1..])
  }

  lemma {:induction false} FirstBreakIsBreak(s: seq<Byte>)
    ensures FirstBreak(s) < |s| ==> BreakAt(s, FirstBreak(s))
  {
    if |s| >= 2 && !(s[0] == 13 && s[1] == 10) {
      FirstBreakIsBreak(s[1..]);
    }
  }

  /** Rust's `split("\r\n")`. */
  function Split(s: seq<Byte>): seq<seq<Byte>> {
    var n := FirstBreak(s);
    if n == |s| then [s]
    else
      FirstBreakIsBreak(s);
      [s[..n]] + Split(s[n + 2..])
  }

  ghost predicate OneLine(s: seq<Byte>) {
    forall i: nat :: !BreakAt(s, i)
  }

  /** Every line followed by a line break. */
  function Terminated(lines: seq<seq<Byte>>): seq<Byte> {
    if lines == [] then [] else lines[0] + CRLF + Terminated(lines[1..])
  }

  lemma {:induction false} FirstBreakAfterLine(line: seq<Byte>, rest: seq<Byte>)
    requires OneLine(line)
    ensures FirstBreak(line + CRLF + rest) == |line|
  {
    var s := line + CRLF + rest;
    if line != [] {
      assert s[1..] == line[1..] + CRLF + rest;
      assert !BreakAt(line, 0);
      forall i: nat ensures !BreakAt(line[1..], i) {
        assert !BreakAt(line, i + 1);
      }
      FirstBreakAfterLine(line[1..], rest);
    }
  }

  lemma {:induction false} SplitTerminated(lines: seq<seq<Byte>>, tail: seq<Byte>)
    requires forall i :: 0 <= i < |lines| ==> OneLine(lines[i])
    ensures Split(Terminated(lines) + tail) == lines + Split(tail)
  {
    if lines == [] {
      assert Terminated(lines) + tail == tail;
    } else {
      var line, rest := lines[0], Terminated(lines[1..]) + tail;
      var s := line + CRLF + rest;
      Assoc(line + CRLF, Terminated(lines[1..]), tail);
      FirstBreakAfterLine(line, rest);
      assert s[..|line|] == line && s[|line| + 2..] == rest;
      SplitTerminated(lines[1..], tail);
      assert lines == [line] + lines[1..];
    }
  }

  lemma {:induction false} FirstBreakIsFirst(s: seq<Byte>, i: nat)
    requires i < FirstBreak(s)
    ensures !BreakAt(s, i)
  {
    if i > 0 {
      FirstBreakIsFirst(s[1..], i - 1);
    }
  }

  lemma {:induction false} SplitLines(s: seq<Byte>)
    ensures forall i :: 0 <= i < |Split(s)| ==> OneLine(Split(s)[i])
    decreases |s|
  {
    var n := FirstBreak(s);
    var line := s[..n];
    forall i: nat ensures !BreakAt(line, i) {
      if BreakAt(line, i) {
        FirstBreakIsFirst(s, i);
      }
    }
    if n < |s| {
      FirstBreakIsBreak(s);
      SplitLines(s[n + 2..]);
    } else {
      assert line == s;
    }
  }

  // ---- where the rewritten head ends ----

  lemma {:induction false} NoBreakInLine(line: seq<Byte>, rest: seq<Byte>, i: nat)
    requires OneLine(line) && i < |line|
    ensures !BreakAt(line + CRLF + rest, i)
  {
    FirstBreakAfterLine(line, rest);
    FirstBreakIsFirst(line + CRLF + rest, i);
  }

  /** Non-empty lines followed by an empty one: the first empty line is that one. */
  lemma {:induction false} EndsAtEmptyLine(lines: seq<seq<Byte>>, rest: seq<Byte>)
    requires lines != [] && forall i :: 0 <= i < |lines| ==> OneLine(lines[i]) && lines[i] != []
    ensures var s := Terminated(lines) + CRLF + rest;
            |Terminated(lines)| >= 2 && FirstEnd(s, |Terminated(lines)| - 2)
    decreases |lines|
  {
    var line, others := lines[0], lines[1..];
    var after := Terminated(others) + CRLF + rest;
    var s := Terminated(lines) + CRLF + rest;
    assert s == line + CRLF + after;
    forall i: nat | i < |line| ensures !EndAt(s, i) {
      NoBreakInLine(line, after, i);
    }
    assert s[|line| + 2..] == after;
    if others == [] {
      assert after == CRLF + rest;
      assert EndAt(s, |line|);
    } else {
      EndsAtEmptyLine(others, rest);
      NextLineNotEmpty(others, rest);
      EndShifts(line, after, |Terminated(others)| - 2);
    }
  }

  lemma {:induction false} NextLineNotEmpty(lines: seq<seq<Byte>>, rest: seq<Byte>)
    requires lines != [] && OneLine(lines[0]) && lines[0] != []
    ensures !BreakAt(Terminated(lines) + CRLF + rest, 0)
  {
    var after := Terminated(lines[1..]) + CRLF + rest;
    assert Terminated(lines) + CRLF + rest == lines[0] + CRLF + after;
    NoBreakInLine(lines[0], after, 0);
  }

  /** A line put in front moves the first empty line along. */
  lemma {:induction false} EndShifts(line: seq<Byte>, after: seq<Byte>, p: nat)
    requires OneLine(line) && FirstEnd(after, p) && !BreakAt(after, 0)
    ensures FirstEnd(line + CRLF + after, |line| + 2 + p)
  {
    var s, n := line + CRLF + after, |line|;
    assert s[n + 2..] == after;
    assert forall i: nat :: BreakAt(s, n + 2 + i) <==> BreakAt(after, i);
    assert EndAt(after, p) && EndAt(s, n + 2 + p);
    forall i: nat | i < n + 2 + p ensures !EndAt(s, i) {
      if i < n {
        NoBreakInLine(line, after, i);
      } else if i == n {
        assert !BreakAt(s, n + 2 + 0);
      } else if i > n + 1 {
        assert !EndAt(after, i - n - 2);
      }
    }
  }

  // ---- header names ----

  /** Bytes of the Unicode white space at the front of `s`; 0 if there is none. */
  function SpaceAt(s: seq<Byte>): (n: nat)
    ensures n <= |s|
  {
    if |s| >= 1 && (9 <= s[0] <= 13 || s[0] == 32) then 1
    else if |s| >= 2 && s[0] == 0xC2 && (s[1] == 0x85 || s[1] == 0xA0) then 2
    else if |s| >= 3 && WideSpace(s[0], s[1], s[2]) then 3
    else 0
  }

  predicate WideSpace(a: Byte, b: Byte, c: Byte) {
    || (a == 0xE1 && b == 0x9A && c == 0x80)
    || (a == 0xE2 && b == 0x80 && (0x80 <= c <= 0x8A || c == 0xA8 || c == 0xA9 || c == 0xAF))
    || (a == 0xE2 && b == 0x81 && c == 0x9F)
    || (a == 0xE3 && b == 0x80 && c == 0x80)
  }

  function SpaceEnd(s: seq<Byte>): (n: nat)
    ensures n <= |s|
  {
    if |s| >= 1 && SpaceAt(s[|s| - 1..]) == 1 then 1
    else if |s| >= 2 && SpaceAt(s[|s| - 2..]) == 2 then 2
    else if |s| >= 3 && SpaceAt(s[|s| - 3..]) == 3 then 3
    else 0
  }

  function TrimStart(s: seq<Byte>): seq<Byte> {
    if SpaceAt(s) == 0 then s else TrimStart(s[SpaceAt(s)..])
  }

  function TrimEnd(s: seq<Byte>): seq<Byte> {
    if SpaceEnd(s) == 0 then s else TrimEnd(s[..|s| - SpaceEnd(s)])
  }

  function Trim(s: seq<Byte>): seq<Byte> {
    TrimEnd(TrimStart(s))
  }

  /** Position of the first byte `b`, or the length. */
  function Find(s: seq<Byte>, b: Byte): (n: nat)
    ensures n <= |s| && (n < |s| ==> s[n] == b)
    ensures forall i :: 0 <= i < n ==> s[i] != b
  {
    if s == [] || s[0] == b then 0 else 1 + Find(s[1..], b)
  }

  function Lower(b: Byte): Byte {
    if 65 <= b <= 90 then b as int + 32 else b
  }

  predicate EqIgnoreCase(a: seq<Byte>, b: seq<Byte>) {
    |a| == |b| && forall i :: 0 <= i < |a| ==> Lower(a[i]) == Lower(b[i])
  }

  const COLON: Byte := 58

  /** `host` */
  const HOST: seq<Byte> := [104, 111, 115, 116]

  /** `proxy-authorization` */
  const PROXY_AUTHORIZATION: seq<Byte> :=
    [112, 114, 111, 120, 121, 45, 97, 117, 116, 104, 111, 114, 105, 122, 97, 116, 105, 111, 110]

  /** `proxy-connection` */
  const PROXY_CONNECTION: seq<Byte> := [112, 114, 111, 120, 121, 45, 99, 111, 110, 110, 101, 99, 116, 105, 111, 110]

  /** `Host: ` */
  const HOST_PREFIX: seq<Byte> := [72, 111, 115, 116, 58, 32]

  /** The line has a colon, and the trimmed text before it is `name` up to case. */
  predicate Named(line: seq<Byte>, name: seq<Byte>) {
    var colon := Find(line, COLON);
    colon < |line| && EqIgnoreCase(Trim(line[..colon]), name)
  }

  predicate HostLine(line: seq<Byte>) {
    Named(line, HOST)
  }

  /** A line meant for the proxy. */
  predicate ProxyLine(line: seq<Byte>) {
    Named(line, PROXY_AUTHORIZATION) || Named(line, PROXY_CONNECTION)
  }

  predicate Kept(line: seq<Byte>) {
    line != [] && !HostLine(line) && !ProxyLine(line)
  }

  function KeptLines(lines: seq<seq<Byte>>): seq<seq<Byte>> {
    if lines == [] then []
    else
      var before, line := KeptLines(lines[..|lines| - 1]), lines[|lines| - 1];
      if Kept(line) then before + [line] else before
  }

  lemma {:induction false} KeptLinesAreKept(lines: seq<seq<Byte>>)
    ensures forall i :: 0 <= i < |KeptLines(lines)| ==> Kept(KeptLines(lines)[i]) && KeptLines(lines)[i] in lines
  {
    if lines != [] {
      KeptLinesAreKept(lines[..|lines| - 1]);
      assert forall l :: l in lines[..|lines| - 1] ==> l in lines;
    }
  }

  lemma {:induction false} TerminatedAppend(a: seq<seq<Byte>>, line: seq<Byte>)
    ensures Terminated(a + [line]) == Terminated(a) + line + CRLF
  {
    if a == [] {
      assert a + [line] == [line];
      assert Terminated([line]) == line + CRLF + Terminated([]);
    } else {
      assert (a + [line])[1..] == a[1..] + [line];
      TerminatedAppend(a[1..], line);
    }
  }

  function RequestLine(verb: seq<Byte>, target: seq<Byte>, version: seq<Byte>): seq<Byte> {
    verb + [32] + target + [32] + version
  }

  function ForwardLines(request: seq<Byte>, host: seq<Byte>, headers: seq<seq<Byte>>): seq<seq<Byte>> {
    [request, HOST_PREFIX + host] + KeptLines(headers)
  }

  /** The tests by which the loop skips a line. */
  method KeepLine(line: seq<Byte>) returns (keep: bool)
    ensures keep <==> Kept(line)
  {
    if line == [] {
      return false;
    }
    var colon := Find(line, COLON);
    if colon < |line| {
      var name := Trim(line[..colon]);
      if EqIgnoreCase(name, HOST) || EqIgnoreCase(name, PROXY_AUTHORIZATION) || EqIgnoreCase(name, PROXY_CONNECTION) {
        return false;
      }
    }
    return true;
  }

  /** `build_http_forward_head`; `headers` are the lines after the request line. */
  method BuildForwardHead(request: seq<Byte>, host: seq<Byte>, headers: seq<seq<Byte>>) returns (out: seq<Byte>)
    ensures out == Terminated(ForwardLines(request, host, headers)) + CRLF
  {
    out := request + CRLF + HOST_PREFIX + host + CRLF;
    FirstTwo(request, HOST_PREFIX + host);
    assert out == Terminated([request, HOST_PREFIX + host]);
    assert headers[..0] == [] && [request, HOST_PREFIX + host] + [] == [request, HOST_PREFIX + host];
    for k := 0 to |headers|
      invariant out == Terminated(ForwardLines(request, host, headers[..k]))
    {
      var line := headers[k];
      ghost var before := ForwardLines(request, host, headers[..k]);
      KeptStep(request, host, headers, k);
      var keep := KeepLine(line);
      if !keep {
        continue;
      }
      TerminatedAppend(before, line);
      out := out + line + CRLF;
    }
    assert headers[..|headers|] == headers;
    out := out + CRLF;
  }

  lemma {:induction false} FirstTwo(a: seq<Byte>, b: seq<Byte>)
    ensures Terminated([a, b]) == a + CRLF + b + CRLF
  {
    TerminatedAppend([a], b);
    TerminatedAppend([], a);
    assert [] + [a] == [a] && [a] + [b] == [a, b];
  }

  lemma {:induction false} KeptStep(request: seq<Byte>, host: seq<Byte>, headers: seq<seq<Byte>>, k: nat)
    requires k < |headers|
    ensures var before := ForwardLines(request, host, headers[..k]);
            ForwardLines(request, host, headers[..k + 1]) == if Kept(headers[k]) then before + [headers[k]] else before
  {
    assert headers[..k + 1][..k] == headers[..k];
  }

  // ---- what the origin server sees ----

  lemma {:induction false} HostColon(host: seq<Byte>)
    ensures Find(HOST_PREFIX + host, COLON) == 4 && (HOST_PREFIX + host)[..4] == [72, 111, 115, 116]
  {
    var line := HOST_PREFIX + host;
    assert line[0] == 72 && line[1] == 111 && line[2] == 115 && line[3] == 116 && line[4] == COLON;
  }

  lemma {:induction false} HostLineNamed(line: seq<Byte>, host: seq<Byte>, name: seq<Byte>)
    requires line == HOST_PREFIX + host && name == HOST
    ensures Named(line, name)
  {
    HostColon(host);
    TrimHost(line[..4]);
    HostIgnoresCase();
  }

  lemma {:induction false} HostIgnoresCase()
    ensures EqIgnoreCase([72, 111, 115, 116], HOST)
  {
  }

  lemma {:induction false} TrimHost(s: seq<Byte>)
    requires s == [72, 111, 115, 116]
    ensures Trim(s) == s
  {
    assert SpaceAt(s) == 0;
    assert s[3..] == [116] && s[2..] == [115, 116] && s[1..] == [111, 115, 116];
    assert SpaceEnd(s) == 0;
  }

  lemma {:induction false} ForwardLinesFit(request: seq<Byte>, host: seq<Byte>, headers: seq<seq<Byte>>)
    requires OneLine(request) && request != [] && OneLine(HOST_PREFIX + host)
    requires forall i :: 0 <= i < |headers| ==> OneLine(headers[i])
    ensures var lines := ForwardLines(request, host, headers);
            forall i :: 0 <= i < |lines| ==> OneLine(lines[i]) && lines[i] != []
  {
    var lines, kept := ForwardLines(request, host, headers), KeptLines(headers);
    KeptLinesAreKept(headers);
    forall i | 0 <= i < |lines| ensures OneLine(lines[i]) && lines[i] != [] {
      if i >= 2 {
        assert lines[i] == kept[i - 2] && kept[i - 2] in headers;
      }
    }
  }

  /**
    The rewritten head, whatever follows it: split into lines it is the new request line, one Host
    line and the kept header lines in their order, and its first empty line is its own end, so the
    body starts right after it.
   */
  lemma {:induction false} ForwardedHead(request: seq<Byte>, host: seq<Byte>, headers: seq<seq<Byte>>, body: seq<Byte>)
    requires OneLine(request) && request != [] && OneLine(HOST_PREFIX + host)
    requires forall i :: 0 <= i < |headers| ==> OneLine(headers[i])
    ensures var lines := ForwardLines(request, host, headers);
            var out := Terminated(lines) + CRLF;
            && Split(out) == lines + [[], []]
            && |out| >= 4 && FirstEnd(out + body, |out| - 4)
  {
    var lines := ForwardLines(request, host, headers);
    ForwardLinesFit(request, host, headers);
    SplitTerminated(lines, CRLF);
    assert CRLF[..0] == [] && CRLF[2..] == [];
    assert Split(CRLF) == [[], []];
    EndsAtEmptyLine(lines, body);
  }

  lemma {:induction false} OthersAreKept(request: seq<Byte>, host: seq<Byte>, headers: seq<seq<Byte>>, i: nat)
    requires 2 <= i < |ForwardLines(request, host, headers)|
    ensures Kept(ForwardLines(request, host, headers)[i])
  {
    KeptLinesAreKept(headers);
    assert ForwardLines(request, host, headers)[i] == KeptLines(headers)[i - 2];
  }

  lemma {:induction false} SecondIsHost(request: seq<Byte>, host: seq<Byte>, headers: seq<seq<Byte>>)
    ensures HostLine(ForwardLines(request, host, headers)[1])
  {
    HostLineNamed(HOST_PREFIX + host, host, HOST);
  }

  /** Of its header lines exactly the first is a Host line, and none is for the proxy. */
  lemma {:induction false} ForwardedNames(request: seq<Byte>, host: seq<Byte>, headers: seq<seq<Byte>>)
    ensures var lines := ForwardLines(request, host, headers);
            && (forall i :: 1 <= i < |lines| ==> (HostLine(lines[i]) <==> i == 1))
            && (forall i :: 2 <= i < |lines| ==> !ProxyLine(lines[i]))
  {
    var lines := ForwardLines(request, host, headers);
    SecondIsHost(request, host, headers);
    forall i | 2 <= i < |lines| ensures !HostLine(lines[i]) && !ProxyLine(lines[i]) {
      OthersAreKept(request, host, headers, i);
    }
  }
}
