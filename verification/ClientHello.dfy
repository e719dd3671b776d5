/**
  The TLS 1.3 ClientHello parser and printer of crates/reality/src/hello.rs.
 */
module ClientHello {
  import opened Bytes

  const EXT_KEY_SHARE := 0x0033
  const GROUP_X25519 := 0x001D

  datatype ParseError =
    | ShortRecordHeader
    | NotHandshake(b: Byte)
    | ShortRecord
    | ShortHandshakeHeader
    | NotClientHello(b: Byte)
    | ShortHandshakeBody
    | NoRandom
    | NoSessionIdLength
    | SessionIdLength(n: nat)
    | SessionIdTruncated
    | CipherSuitesTruncated
    | ExtensionsTruncated
    | KeyShareMissing
    | X25519Missing

  datatype Parsed = Parsed(rawBody: seq<Byte>, random: seq<Byte>, sessionId: seq<Byte>, keyShare: seq<Byte>)

  // ---- scanning the extensions ----

  datatype Scan = Key(key: seq<Byte>) | NoKeyShare | NoX25519

  /** Scans key share entries from `pos`; `sharesEnd` is where the parser believes they end. */
  function FindX25519(ext: seq<Byte>, end: nat, sharesEnd: nat, pos: nat): Scan
    requires end <= |ext|
    decreases end - pos
  {
    if pos + 4 <= end && pos + 4 <= sharesEnd then
      var group := U16(ext[pos], ext[pos + 1]);
      var len := U16(ext[pos + 2], ext[pos + 3]);
      if group == GROUP_X25519 && len == 32 then
        if pos + 36 > end then NoX25519 else Key(ext[pos + 4..pos + 36])
      else FindX25519(ext, end, sharesEnd, pos + 4 + len)
    else NoX25519
  }

  /** The body of a key_share extension; its length field is taken to be part of the shares. */
  function FindShare(ext: seq<Byte>, end: nat, pos: nat): Scan
    requires end <= |ext|
  {
    if pos + 2 > end then NoKeyShare
    else FindX25519(ext, end, pos + U16(ext[pos], ext[pos + 1]), pos + 2)
  }

  /** Scans extensions from `pos` for the first key_share extension. */
  function FindKeyShare(ext: seq<Byte>, end: nat, pos: nat): Scan
    requires end <= |ext|
    decreases end - pos
  {
    if pos + 4 <= end then
      var ty := U16(ext[pos], ext[pos + 1]);
      var len := U16(ext[pos + 2], ext[pos + 3]);
      if ty == EXT_KEY_SHARE then FindShare(ext, end, pos + 4)
      else FindKeyShare(ext, end, pos + 4 + len)
    else NoKeyShare
  }

  /** The nested scan as the program runs it. It stays in bounds and terminates on every input. */
  method ParseKeyShareExt(ext: seq<Byte>, end: nat) returns (r: Scan)
    requires end <= |ext|
    ensures r == FindKeyShare(ext, end, 0)
    ensures r.Key? ==> |r.key| == 32
  {
    var pos: nat := 0;
    while pos + 4 <= end
      invariant FindKeyShare(ext, end, 0) == FindKeyShare(ext, end, pos)
      decreases end - pos
    {
      var ty := U16(ext[pos], ext[pos + 1]);
      var extLen := U16(ext[pos + 2], ext[pos + 3]);
      pos := pos + 4;
      if ty == EXT_KEY_SHARE {
        if pos + 2 > end {
          break;
        }
        var sharesEnd := pos + U16(ext[pos], ext[pos + 1]);
        pos := pos + 2;
        r := ParseShares(ext, end, sharesEnd, pos);
        return;
      }
      pos := pos + extLen;
    }
    return NoKeyShare;
  }

  /** The inner loop over key share entries. */
  method ParseShares(ext: seq<Byte>, end: nat, sharesEnd: nat, start: nat) returns (r: Scan)
    requires end <= |ext|
    ensures r == FindX25519(ext, end, sharesEnd, start)
    ensures r.Key? ==> |r.key| == 32
  {
    var pos := start;
    while pos + 4 <= end && pos + 4 <= sharesEnd
      invariant FindX25519(ext, end, sharesEnd, start) == FindX25519(ext, end, sharesEnd, pos)
      decreases end - pos
    {
      var group := U16(ext[pos], ext[pos + 1]);
      var keLen := U16(ext[pos + 2], ext[pos + 3]);
      pos := pos + 4;
      if group == GROUP_X25519 && keLen == 32 {
        if pos + 32 > end {
          return NoX25519;
        }
        return Key(ext[pos..pos + 32]);
      }
      pos := pos + keLen;
    }
    return NoX25519;
  }

  // ---- parsing the record ----

  function ParseExtensions(body: seq<Byte>, start: nat): Result<seq<Byte>, ParseError> {
    if start + 2 > |body| then Err(ExtensionsTruncated)
    else
      var ext := body[start + 2..];
      match FindKeyShare(ext, Min(U16(body[start], body[start + 1]), |ext|), 0)
      case Key(key) => Ok(key)
      case NoKeyShare => Err(KeyShareMissing)
      case NoX25519 => Err(X25519Missing)
  }

  /** Parses a handshake message that has already been cut to its announced length. */
  function ParseBody(body: seq<Byte>): Result<Parsed, ParseError> {
    if |body| < 38 then Err(NoRandom)
    else if |body| < 39 then Err(NoSessionIdLength)
    else if body[38] != 32 then Err(SessionIdLength(body[38]))
    else if |body| < 71 then Err(SessionIdTruncated)
    else if |body| < 75 then Err(CipherSuitesTruncated)
    else
      match ParseExtensions(body, ExtStart(body))
      case Err(e) => Err(e)
      case Ok(key) => Ok(Parsed(body, body[6..38], body[39..71], key))
  }

  function ParseClientHello(buf: seq<Byte>): Result<Parsed, ParseError> {
    if |buf| < 5 then Err(ShortRecordHeader)
    else if buf[0] != 0x16 then Err(NotHandshake(buf[0]))
    else if |buf| < 5 + U16(buf[3], buf[4]) then Err(ShortRecord)
    else
      var hs := buf[5..];
      if |hs| < 4 then Err(ShortHandshakeHeader)
      else if hs[0] != 0x01 then Err(NotClientHello(hs[0]))
      else
        var bodyEnd := 4 + U24(hs[1], hs[2], hs[3]);
        if |hs| < bodyEnd then Err(ShortHandshakeBody) else ParseBody(hs[..bodyEnd])
  }

  // ---- well-formed hellos (sections 4.1.2 and 4.2.8 of RFC 8446) ----

  /** A two-byte type, a two-byte length and data: an extension, or a key share entry. */
  datatype Item = Item(t0: Byte, t1: Byte, l0: Byte, l1: Byte, data: seq<Byte>)

  predicate ItemOk(e: Item) {
    U16(e.l0, e.l1) == |e.data|
  }

  function Type(e: Item): nat {
    U16(e.t0, e.t1)
  }

  function EncodeItem(e: Item): seq<Byte> {
    [e.t0, e.t1, e.l0, e.l1] + e.data
  }

  function EncodeItems(es: seq<Item>): seq<Byte> {
    if es == [] then [] else EncodeItem(es[0]) + EncodeItems(es[1..])
  }

  predicate IsX25519(e: Item) {
    Type(e) == GROUP_X25519 && |e.data| == 32
  }

  /** The first 32-byte X25519 entry of the list is number `m`. */
  ghost predicate FirstX25519(ss: seq<Item>, m: nat) {
    && m < |ss| && IsX25519(ss[m])
    && (forall i :: 0 <= i < |ss| ==> ItemOk(ss[i]))
    && forall i :: 0 <= i < m ==> !IsX25519(ss[i])
  }

  /** The body of a key_share extension: a two-byte length and the shares. */
  ghost predicate IsShareList(data: seq<Byte>, ss: seq<Item>) {
    |data| >= 2 && U16(data[0], data[1]) == |EncodeItems(ss)| && data[2..] == EncodeItems(ss)
  }

  /** Extension `k` is the first key_share extension and holds exactly the list `ss`. */
  ghost predicate FirstKeyShare(es: seq<Item>, k: nat, ss: seq<Item>) {
    && k < |es| && Type(es[k]) == EXT_KEY_SHARE && IsShareList(es[k].data, ss)
    && (forall i :: 0 <= i < |es| ==> ItemOk(es[i]))
    && forall i :: 0 <= i < k ==> Type(es[i]) != EXT_KEY_SHARE
  }

  function Next(pos: nat, e: Item): nat {
    pos + (4 + |e.data|)
  }

  /** `s[pos..]` starts with the encoding of `e`, and `next` is where it ends. */
  ghost predicate At(s: seq<Byte>, pos: nat, e: Item, next: nat) {
    && next == Next(pos, e) && next <= |s|
    && s[pos] == e.t0 && s[pos + 1] == e.t1 && s[pos + 2] == e.l0 && s[pos + 3] == e.l1
    && s[pos + 4..next] == e.data
  }

  lemma {:induction false} FrontOf(t: seq<Byte>, e: Item, tail: seq<Byte>)
    requires t == EncodeItem(e) + tail
    ensures At(t, 0, e, Next(0, e)) && t[Next(0, e)..] == tail
  {
  }

  lemma {:induction false} Shift(s: seq<Byte>, pos: nat, e: Item)
    requires pos <= |s| && At(s[pos..], 0, e, Next(0, e))
    ensures At(s, pos, e, Next(pos, e)) && s[Next(pos, e)..] == s[pos..][Next(0, e)..]
  {
    Sub(s, pos, |s|, 4, Next(0, e));
  }

  lemma {:induction false} EncodeItemsHead(es: seq<Item>, rest: seq<Byte>)
    requires es != []
    ensures EncodeItems(es) + rest == EncodeItem(es[0]) + (EncodeItems(es[1..]) + rest)
    ensures |EncodeItems(es)| == 4 + |es[0].data| + |EncodeItems(es[1..])|
  {
    Assoc(EncodeItem(es[0]), EncodeItems(es[1..]), rest);
  }

  /** The head of an encoded list, and where its tail starts. */
  lemma {:induction false} HeadAt(s: seq<Byte>, pos: nat, es: seq<Item>, rest: seq<Byte>)
    requires es != [] && pos <= |s| && s[pos..] == EncodeItems(es) + rest
    ensures At(s, pos, es[0], Next(pos, es[0]))
    ensures s[Next(pos, es[0])..] == EncodeItems(es[1..]) + rest
    ensures |EncodeItems(es)| == 4 + |es[0].data| + |EncodeItems(es[1..])|
  {
    EncodeItemsHead(es, rest);
    FrontOf(s[pos..], es[0], EncodeItems(es[1..]) + rest);
    Shift(s, pos, es[0]);
  }

  lemma {:induction false} ShareHit(ext: seq<Byte>, sharesEnd: nat, pos: nat, e: Item, next: nat)
    requires At(ext, pos, e, next) && ItemOk(e) && IsX25519(e) && pos + 4 <= sharesEnd
    ensures FindX25519(ext, |ext|, sharesEnd, pos) == Key(e.data)
  {
  }

  lemma {:induction false} ShareSkip(ext: seq<Byte>, sharesEnd: nat, pos: nat, e: Item, next: nat)
    requires At(ext, pos, e, next) && ItemOk(e) && !IsX25519(e) && pos + 4 <= sharesEnd
    ensures FindX25519(ext, |ext|, sharesEnd, pos) == FindX25519(ext, |ext|, sharesEnd, next)
  {
  }

  lemma {:induction false} ExtSkip(ext: seq<Byte>, pos: nat, e: Item, next: nat)
    requires At(ext, pos, e, next) && ItemOk(e) && Type(e) != EXT_KEY_SHARE
    ensures FindKeyShare(ext, |ext|, pos) == FindKeyShare(ext, |ext|, next)
  {
  }

  lemma {:induction false} ExtHit(ext: seq<Byte>, pos: nat, e: Item, next: nat)
    requires At(ext, pos, e, next) && Type(e) == EXT_KEY_SHARE
    ensures FindKeyShare(ext, |ext|, pos) == FindShare(ext, |ext|, pos + 4)
  {
  }

  /** A list that contains an X25519 entry is at least that entry long. */
  lemma {:induction false} SharesLength(ss: seq<Item>, m: nat)
    requires m < |ss| && IsX25519(ss[m])
    ensures |EncodeItems(ss)| >= 36
  {
    if m > 0 {
      SharesLength(ss[1..], m - 1);
    }
  }

  lemma {:induction false} LaterX25519(ss: seq<Item>, m: nat)
    requires FirstX25519(ss, m) && m > 0
    ensures FirstX25519(ss[1..], m - 1) && !IsX25519(ss[0])
  {
  }

  /**
    The share scan finds the first X25519 entry although `sharesEnd` is two bytes short of the
    end of the list.
   */
  lemma {:induction false} ScanShares(ext: seq<Byte>, sharesEnd: nat, pos: nat, ss: seq<Item>, m: nat, rest: seq<Byte>)
    requires FirstX25519(ss, m) && pos <= |ext| && ext[pos..] == EncodeItems(ss) + rest
    requires sharesEnd + 2 == pos + |EncodeItems(ss)|
    ensures FindX25519(ext, |ext|, sharesEnd, pos) == Key(ss[m].data)
    decreases |ss|
  {
    var next := Next(pos, ss[0]);
    SharesLength(ss, m);
    HeadAt(ext, pos, ss, rest);
    if m == 0 {
      ShareHit(ext, sharesEnd, pos, ss[0], next);
    } else {
      LaterX25519(ss, m);
      ShareSkip(ext, sharesEnd, pos, ss[0], next);
      ScanShares(ext, sharesEnd, next, ss[1..], m - 1, rest);
    }
  }

  lemma {:induction false} ScanShareList(ext: seq<Byte>, pos: nat, data: seq<Byte>, rest: seq<Byte>, ss: seq<Item>, m: nat)
    requires FirstX25519(ss, m) && IsShareList(data, ss)
    requires pos <= |ext| && ext[pos..] == data + rest
    ensures FindShare(ext, |ext|, pos) == Key(ss[m].data)
  {
    var t := ext[pos..];
    assert t[0] == data[0] && t[1] == data[1];
    assert ext[pos + 2..] == t[2..] == data[2..] + rest;
    ScanShares(ext, pos + |EncodeItems(ss)|, pos + 2, ss, m, rest);
  }

  lemma {:induction false} LaterKeyShare(es: seq<Item>, k: nat, ss: seq<Item>)
    requires FirstKeyShare(es, k, ss) && k > 0
    ensures FirstKeyShare(es[1..], k - 1, ss) && Type(es[0]) != EXT_KEY_SHARE
  {
  }

  /** The extension scan returns the first X25519 key of the first key_share extension. */
  lemma {:induction false} ScanExtensions(ext: seq<Byte>, pos: nat, es: seq<Item>, k: nat, ss: seq<Item>, m: nat)
    requires FirstKeyShare(es, k, ss) && FirstX25519(ss, m)
    requires pos <= |ext| && ext[pos..] == EncodeItems(es) + []
    ensures FindKeyShare(ext, |ext|, pos) == Key(ss[m].data)
    decreases |es|
  {
    var next := Next(pos, es[0]);
    HeadAt(ext, pos, es, []);
    if k > 0 {
      LaterKeyShare(es, k, ss);
      ExtSkip(ext, pos, es[0], next);
      ScanExtensions(ext, next, es[1..], k - 1, ss, m);
    } else {
      ExtHit(ext, pos, es[0], next);
      assert ext[pos + 4..] == ext[pos + 4..next] + ext[next..];
      ScanShareList(ext, pos + 4, es[0].data, ext[next..], ss, m);
    }
  }

  /** Where the parser looks for the extensions' length. */
  function ExtStart(body: seq<Byte>): nat
    requires |body| >= 73
  {
    73 + U16(body[71], body[72]) + 2
  }

  /** A ClientHello message with a 32-byte session id and one null compression method. */
  ghost predicate IsBody(body: seq<Byte>, random: seq<Byte>, sid: seq<Byte>, es: seq<Item>) {
    && |body| >= 77
    && body[0] == 0x01 && U24(body[1], body[2], body[3]) == |body| - 4
    && body[6..38] == random && body[38] == 32 && body[39..71] == sid
    && var start := ExtStart(body);
    && |body| == start + 2 + |EncodeItems(es)|
    && body[start - 2] == 1 && body[start - 1] == 0
    && U16(body[start], body[start + 1]) == |EncodeItems(es)|
    && body[start + 2..] == EncodeItems(es)
  }

  /** A TLS handshake record that carries one whole message. */
  ghost predicate IsRecord(buf: seq<Byte>, body: seq<Byte>) {
    |buf| == 5 + |body| && buf[0] == 0x16 && U16(buf[3], buf[4]) == |body| && buf[5..] == body
  }

  lemma {:induction false} BodyParses(body: seq<Byte>, random: seq<Byte>, sid: seq<Byte>, es: seq<Item>, key: seq<Byte>)
    requires IsBody(body, random, sid, es)
    requires FindKeyShare(EncodeItems(es), |EncodeItems(es)|, 0) == Key(key)
    ensures ParseBody(body) == Ok(Parsed(body, random, sid, key))
  {
    assert ParseExtensions(body, ExtStart(body)) == Ok(key);
  }

  lemma {:induction false} RecordParses(buf: seq<Byte>, body: seq<Byte>)
    requires IsRecord(buf, body) && |body| >= 4
    requires body[0] == 0x01 && U24(body[1], body[2], body[3]) == |body| - 4
    ensures ParseClientHello(buf) == ParseBody(body)
  {
    assert buf[5..][..|body|] == body;
  }

  /** Every well-formed hello parses to its own random, session id and first X25519 key. */
  lemma {:induction false} WellFormedParses(buf: seq<Byte>, body: seq<Byte>, random: seq<Byte>, sid: seq<Byte>,
                                            es: seq<Item>, k: nat, ss: seq<Item>, m: nat)
    requires IsRecord(buf, body) && IsBody(body, random, sid, es)
    requires FirstKeyShare(es, k, ss) && FirstX25519(ss, m)
    ensures ParseClientHello(buf) == Ok(Parsed(body, random, sid, ss[m].data))
  {
    var ext := EncodeItems(es);
    assert ext[0..] == ext + [];
    ScanExtensions(ext, 0, es, k, ss, m);
    BodyParses(body, random, sid, es, ss[m].data);
    RecordParses(buf, body);
  }

  // ---- the session id is not looked at ----

  /** The record with other session id bytes in its place (record header 5, offset 39). */
  function WithSessionId(buf: seq<Byte>, sid: seq<Byte>): seq<Byte>
    requires |buf| >= 76
  {
    buf[..44] + sid + buf[76..]
  }

  function BodyWithSessionId(body: seq<Byte>, sid: seq<Byte>): seq<Byte>
    requires |body| >= 71
  {
    body[..39] + sid + body[71..]
  }

  lemma {:induction false} SpliceAgrees(s: seq<Byte>, at: nat, mid: seq<Byte>)
    requires at + 32 <= |s| && |mid| == 32
    ensures var t := s[..at] + mid + s[at + 32..];
            && |t| == |s|
            && (forall i :: 0 <= i < at ==> t[i] == s[i])
            && (forall i :: at + 32 <= i < |s| ==> t[i] == s[i])
            && t[at..at + 32] == mid
  {
  }

  lemma {:induction false} BodyIgnoresSessionId(body: seq<Byte>, sid: seq<Byte>)
    requires ParseBody(body).Ok? && |sid| == 32
    ensures |body| >= 71
    ensures ParseBody(BodyWithSessionId(body, sid)) ==
            Ok(ParseBody(body).value.(rawBody := BodyWithSessionId(body, sid), sessionId := sid))
  {
    var body' := BodyWithSessionId(body, sid);
    SpliceAgrees(body, 39, sid);
    assert body'[6..38] == body[6..38];
    var start := ExtStart(body);
    assert ExtStart(body') == start;
    assert body'[start + 2..] == body[start + 2..];
  }

  /** The part of `ParseClientHello` that comes before the message itself. */
  predicate Framed(buf: seq<Byte>) {
    && |buf| >= 9 && buf[0] == 0x16 && |buf| >= 5 + U16(buf[3], buf[4]) && buf[5] == 0x01
    && |buf| >= 9 + U24(buf[6], buf[7], buf[8])
  }

  function Message(buf: seq<Byte>): seq<Byte>
    requires Framed(buf)
  {
    buf[5..9 + U24(buf[6], buf[7], buf[8])]
  }

  lemma {:induction false} ParseOfMessage(buf: seq<Byte>)
    ensures if Framed(buf) then ParseClientHello(buf) == ParseBody(Message(buf)) else ParseClientHello(buf).Err?
  {
    if Framed(buf) {
      var hs := buf[5..];
      assert hs[1] == buf[6] && hs[2] == buf[7] && hs[3] == buf[8];
      assert hs[..4 + U24(hs[1], hs[2], hs[3])] == Message(buf);
    }
  }

  lemma {:induction false} MessageWithSessionId(buf: seq<Byte>, sid: seq<Byte>)
    requires Framed(buf) && |Message(buf)| >= 71 && |sid| == 32
    ensures Framed(WithSessionId(buf, sid))
    ensures Message(WithSessionId(buf, sid)) == BodyWithSessionId(Message(buf), sid)
  {
    SpliceAgrees(buf, 44, sid);
    SpliceAgrees(Message(buf), 39, sid);
  }

  /** Exchanging the session id changes the parse in the session id and in nothing else. */
  lemma {:induction false} ParseIgnoresSessionId(buf: seq<Byte>, sid: seq<Byte>)
    requires ParseClientHello(buf).Ok? && |sid| == 32
    ensures |buf| >= 76
    ensures var p := ParseClientHello(buf).value;
            && |p.rawBody| >= 71
            && ParseClientHello(WithSessionId(buf, sid)) ==
               Ok(p.(rawBody := BodyWithSessionId(p.rawBody, sid), sessionId := sid))
  {
    ParseOfMessage(buf);
    BodyIgnoresSessionId(Message(buf), sid);
    MessageWithSessionId(buf, sid);
    ParseOfMessage(WithSessionId(buf, sid));
  }
}
