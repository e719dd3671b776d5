/**
  `build_reality_client_hello` of crates/reality/src/hello.rs: a printer that back-patches its
  lengths and truncates them to the width of their fields.
 */
module RealityHello {
  import opened Bytes
  import opened ClientHello

  /** supported_versions, signature_algorithms, supported_groups and the head of key_share. */
  const FIXED_EXTS: seq<Byte> := [
    0x00, 0x2b, 0x00, 0x03, 0x02, 0x03, 0x04,
    0x00, 0x0d, 0x00, 0x06, 0x00, 0x04, 0x08, 0x07, 0x04, 0x03,
    0x00, 0x0a, 0x00, 0x04, 0x00, 0x02, 0x00, 0x1d,
    0x00, 0x33, 0x00, 0x26, 0x00, 0x24, 0x00, 0x1d, 0x00, 0x20]

  /** server_name. Its three lengths are 16-bit sums that wrap around. */
  function ServerName(host: seq<Byte>): (s: seq<Byte>)
    ensures |s| == 9 + |host|
  {
    [0x00, 0x00] + Be16(5 + |host|) + Be16(3 + |host|) + [0x00] + Be16(|host|) + host
  }

  function Extensions(keyShare: seq<Byte>, host: seq<Byte>): seq<Byte> {
    FIXED_EXTS + keyShare + ServerName(host)
  }

  /** Version, random, session id, one cipher suite, null compression. */
  function Front(random: seq<Byte>, sid: seq<Byte>): seq<Byte> {
    [0x03, 0x03] + random + [32] + sid + [0x00, 0x02, 0x13, 0x01, 0x01, 0x00]
  }

  function Body(random: seq<Byte>, sid: seq<Byte>, keyShare: seq<Byte>, host: seq<Byte>): seq<Byte> {
    [0x01] + Be24(151 + |host|) + Front(random, sid) + Be16(76 + |host|) + Extensions(keyShare, host)
  }

  function Record(random: seq<Byte>, sid: seq<Byte>, keyShare: seq<Byte>, host: seq<Byte>): seq<Byte> {
    [0x16, 0x03, 0x01] + Be16(155 + |host|) + Body(random, sid, keyShare, host)
  }

  ghost predicate Sizes(random: seq<Byte>, sid: seq<Byte>, keyShare: seq<Byte>) {
    |random| == 32 && |sid| == 32 && |keyShare| == 32
  }

  method BuildRealityClientHello(random: seq<Byte>, sid: seq<Byte>, keyShare: seq<Byte>, host: seq<Byte>)
      returns (record: seq<Byte>)
    requires Sizes(random, sid, keyShare)
    ensures record == Record(random, sid, keyShare, host)
  {
    var body := BuildBody(random, sid, keyShare, host);
    record := [0x16];
    record := record + [0x03, 0x01];
    record := record + Be16(|body|);
    record := record + body;
  }

  /** Everything behind the message length. */
  function Rest(random: seq<Byte>, sid: seq<Byte>, keyShare: seq<Byte>, host: seq<Byte>): seq<Byte> {
    Front(random, sid) + Be16(76 + |host|) + Extensions(keyShare, host)
  }

  lemma {:induction false} BodySplit(random: seq<Byte>, sid: seq<Byte>, keyShare: seq<Byte>, host: seq<Byte>)
    requires Sizes(random, sid, keyShare)
    ensures Body(random, sid, keyShare, host) == [0x01] + Be24(151 + |host|) + Rest(random, sid, keyShare, host)
    ensures |Rest(random, sid, keyShare, host)| == 151 + |host|
  {
    FrontLayout(random, sid);
    ExtensionsStart(keyShare, host);
    Group([0x01] + Be24(151 + |host|), Front(random, sid), Be16(76 + |host|), Extensions(keyShare, host));
  }

  lemma {:induction false} Group(a: seq<Byte>, b: seq<Byte>, c: seq<Byte>, d: seq<Byte>)
    ensures a + b + c + d == a + (b + c + d)
  {
    Assoc(a, b, c);
    Assoc(a, b + c, d);
  }

  /** The message, printed with a zero length that is filled in at the end. */
  method BuildBody(random: seq<Byte>, sid: seq<Byte>, keyShare: seq<Byte>, host: seq<Byte>)
      returns (body: seq<Byte>)
    requires Sizes(random, sid, keyShare)
    ensures body == Body(random, sid, keyShare, host) && |body| == 155 + |host|
  {
    BodySplit(random, sid, keyShare, host);
    body := BuildUnpatched(random, sid, keyShare, host);
    PatchLength(Rest(random, sid, keyShare, host));
    var hsLen := |body| - 4;
    body := body[1 := (hsLen / 65536) % 256];
    body := body[2 := (hsLen / 256) % 256];
    body := body[3 := hsLen % 256];
  }

  method BuildUnpatched(random: seq<Byte>, sid: seq<Byte>, keyShare: seq<Byte>, host: seq<Byte>)
      returns (body: seq<Byte>)
    requires Sizes(random, sid, keyShare)
    ensures body == [0x01, 0x00, 0x00, 0x00] + Rest(random, sid, keyShare, host)
  {
    var extensions := BuildExtensions(keyShare, host);
    body := [0x01] + [0x00, 0x00, 0x00];
    body := body + [0x03, 0x03] + random + [32] + sid + [0x00, 0x02, 0x13, 0x01] + [0x01, 0x00];
    assert body == [0x01, 0x00, 0x00, 0x00] + Front(random, sid);
    body := body + Be16(|extensions|);
    body := body + extensions;
  }

  lemma {:induction false} PatchLength(rest: seq<Byte>)
    ensures var n := |rest|;
            var body := [0x01, 0x00, 0x00, 0x00] + rest;
            body[1 := (n / 65536) % 256][2 := (n / 256) % 256][3 := n % 256] == [0x01] + Be24(n) + rest
  {
  }

  method BuildExtensions(keyShare: seq<Byte>, host: seq<Byte>) returns (ext: seq<Byte>)
    requires |keyShare| == 32
    ensures ext == Extensions(keyShare, host) && |ext| == 76 + |host|
  {
    ext := [0x00, 0x2b, 0x00, 0x03, 0x02, 0x03, 0x04];
    ext := ext + [0x00, 0x0d, 0x00, 0x06, 0x00, 0x04, 0x08, 0x07, 0x04, 0x03];
    ext := ext + [0x00, 0x0a, 0x00, 0x04, 0x00, 0x02, 0x00, 0x1d];
    ext := ext + [0x00, 0x33, 0x00, 0x26, 0x00, 0x24, 0x00, 0x1d, 0x00, 0x20];
    assert ext == FIXED_EXTS;
    ext := ext + keyShare;
    ext := ext + ServerName(host);
  }

  // ---- parsing what was built ----

  lemma {:induction false} FrontLayout(random: seq<Byte>, sid: seq<Byte>)
    requires |random| == 32 && |sid| == 32
    ensures var f := Front(random, sid);
            |f| == 73 && f[2..34] == random && f[34] == 32 && f[35..67] == sid && f[67] == 0 && f[68] == 2
  {
  }

  /** Offsets inside the message, whatever its length fields hold. */
  lemma {:induction false} BodyLayout(len: seq<Byte>, front: seq<Byte>, extLen: seq<Byte>, ext: seq<Byte>)
    requires |len| == 3 && |front| == 73 && |extLen| == 2
    ensures var body := [0x01] + len + front + extLen + ext;
            && |body| == 79 + |ext|
            && body[0] == 0x01 && body[1] == len[0] && body[2] == len[1] && body[3] == len[2]
            && body[6..38] == front[2..34] && body[38] == front[34] && body[39..71] == front[35..67]
            && body[71] == front[67] && body[72] == front[68]
            && body[77] == extLen[0] && body[78] == extLen[1] && body[79..] == ext
  {
  }

  /** A buffer that starts with the printer's extensions up to and including the key. */
  ghost predicate StartsWithKey(ext: seq<Byte>, keyShare: seq<Byte>) {
    |ext| >= 67 && ext[..35] == FIXED_EXTS && ext[35..67] == keyShare
  }

  lemma {:induction false} FixedAt(ext: seq<Byte>, keyShare: seq<Byte>, i: nat)
    requires StartsWithKey(ext, keyShare) && i < 35
    ensures ext[i] == FIXED_EXTS[i]
  {
    assert ext[..35][i] == ext[i];
  }

  /** The scan steps over the printed extension that starts at `pos`. */
  lemma {:induction false} SkipPrinted(ext: seq<Byte>, end: nat, keyShare: seq<Byte>, pos: nat, next: nat)
    requires StartsWithKey(ext, keyShare) && pos + 4 <= end <= |ext|
    requires (pos == 0 && next == 7) || (pos == 7 && next == 17) || (pos == 17 && next == 25)
    ensures FindKeyShare(ext, end, pos) == FindKeyShare(ext, end, next)
  {
    FixedAt(ext, keyShare, pos);
    FixedAt(ext, keyShare, pos + 1);
    FixedAt(ext, keyShare, pos + 2);
    FixedAt(ext, keyShare, pos + 3);
  }

  lemma {:induction false} ScanEntry(ext: seq<Byte>, end: nat, keyShare: seq<Byte>)
    requires StartsWithKey(ext, keyShare) && 31 <= end <= |ext|
    ensures FindX25519(ext, end, 65, 31) == if end >= 67 then Key(keyShare) else NoX25519
  {
    FixedAt(ext, keyShare, 31);
    FixedAt(ext, keyShare, 32);
    FixedAt(ext, keyShare, 33);
    FixedAt(ext, keyShare, 34);
  }

  lemma {:induction false} ScanKeyShare(ext: seq<Byte>, end: nat, keyShare: seq<Byte>)
    requires StartsWithKey(ext, keyShare) && 29 <= end <= |ext|
    ensures FindKeyShare(ext, end, 25).Key? <==> end >= 67
    ensures end >= 67 ==> FindKeyShare(ext, end, 25) == Key(keyShare)
  {
    FixedAt(ext, keyShare, 25);
    FixedAt(ext, keyShare, 26);
    FixedAt(ext, keyShare, 29);
    FixedAt(ext, keyShare, 30);
    if end >= 31 {
      ScanEntry(ext, end, keyShare);
      assert FindShare(ext, end, 29) == FindX25519(ext, end, 65, 31);
    }
  }

  /** The scan finds the printed key exactly when the announced extension length reaches past it. */
  lemma {:induction false} ScanPrinted(ext: seq<Byte>, end: nat, keyShare: seq<Byte>)
    requires StartsWithKey(ext, keyShare) && end <= |ext|
    ensures FindKeyShare(ext, end, 0).Key? <==> end >= 67
    ensures end >= 67 ==> FindKeyShare(ext, end, 0) == Key(keyShare)
  {
    if end >= 29 {
      SkipPrinted(ext, end, keyShare, 0, 7);
      SkipPrinted(ext, end, keyShare, 7, 17);
      SkipPrinted(ext, end, keyShare, 17, 25);
      ScanKeyShare(ext, end, keyShare);
    } else {
      ShortScan(ext, end, keyShare);
    }
  }

  lemma {:induction false} ShortScan(ext: seq<Byte>, end: nat, keyShare: seq<Byte>)
    requires StartsWithKey(ext, keyShare) && end <= |ext| && end < 29
    ensures FindKeyShare(ext, end, 0) == NoKeyShare
  {
    if end >= 4 {
      SkipPrinted(ext, end, keyShare, 0, 7);
    }
    if end >= 11 {
      SkipPrinted(ext, end, keyShare, 7, 17);
    }
    if end >= 21 {
      SkipPrinted(ext, end, keyShare, 17, 25);
    }
  }

  lemma {:induction false} ExtensionsStart(keyShare: seq<Byte>, host: seq<Byte>)
    requires |keyShare| == 32
    ensures StartsWithKey(Extensions(keyShare, host), keyShare) && |Extensions(keyShare, host)| == 76 + |host|
  {
  }

  /** The message parses to its own fields exactly when its extension length field reaches the key. */
  lemma {:induction false} BuiltBodyParses(random: seq<Byte>, sid: seq<Byte>, keyShare: seq<Byte>, host: seq<Byte>)
    requires Sizes(random, sid, keyShare)
    ensures var body := Body(random, sid, keyShare, host);
            if (76 + |host|) % 65536 >= 67 then ParseBody(body) == Ok(Parsed(body, random, sid, keyShare))
            else ParseBody(body).Err?
  {
    var body, ext := Body(random, sid, keyShare, host), Extensions(keyShare, host);
    var len, extLen := Be24(151 + |host|), Be16(76 + |host|);
    FrontLayout(random, sid);
    BodyLayout(len, Front(random, sid), extLen, ext);
    Be16Value(76 + |host|);
    ExtensionsStart(keyShare, host);
    ScanPrinted(ext, Min(U16(extLen[0], extLen[1]), |ext|), keyShare);
    assert ExtStart(body) == 77;
  }

  /** A record around a message, whatever their length fields hold. */
  lemma {:induction false} RecordAround(recordLen: seq<Byte>, len: seq<Byte>, rest: seq<Byte>)
    requires |recordLen| == 2 && |len| == 3
    requires U16(recordLen[0], recordLen[1]) <= 4 + |rest| && U24(len[0], len[1], len[2]) <= |rest|
    ensures var body := [0x01] + len + rest;
            var record := [0x16, 0x03, 0x01] + recordLen + body;
            && record[5..] == body && Framed(record)
            && Message(record) == body[..4 + U24(len[0], len[1], len[2])]
  {
    var body := [0x01] + len + rest;
    var record := [0x16, 0x03, 0x01] + recordLen + body;
    assert record[5] == 1 && record[6] == len[0] && record[7] == len[1] && record[8] == len[2];
    assert record[3] == recordLen[0] && record[4] == recordLen[1];
  }

  /** `record` is a record around `body` that announces a message of `cut` bytes. */
  ghost predicate Around(record: seq<Byte>, body: seq<Byte>, cut: nat) {
    && |record| == 5 + |body| && record[5..] == body && 4 + cut <= |body|
    && Framed(record) && Message(record) == body[..4 + cut]
  }

  /** The 24-bit length the printer announces. */
  function Announced(host: seq<Byte>): nat {
    var len := Be24(151 + |host|);
    U24(len[0], len[1], len[2])
  }

  lemma {:induction false} RecordFraming(random: seq<Byte>, sid: seq<Byte>, keyShare: seq<Byte>, host: seq<Byte>)
    requires Sizes(random, sid, keyShare)
    ensures Around(Record(random, sid, keyShare, host), Body(random, sid, keyShare, host), Announced(host))
    ensures |Body(random, sid, keyShare, host)| == 155 + |host|
  {
    BodySplit(random, sid, keyShare, host);
    Be24AtMost(151 + |host|);
    Be16AtMost(155 + |host|);
    RecordAround(Be16(155 + |host|), Be24(151 + |host|), Rest(random, sid, keyShare, host));
  }

  /** What cutting the message to `cut` bytes does to its parse. */
  lemma {:induction false} CutParse(record: seq<Byte>, cut: nat, parsed: Parsed)
    requires Around(record, parsed.rawBody, cut)
    ensures ParseClientHello(record) == Ok(parsed) <==>
            4 + cut == |parsed.rawBody| && ParseBody(parsed.rawBody) == Ok(parsed)
  {
    ParseOfMessage(record);
    if 4 + cut == |parsed.rawBody| {
      assert Message(record) == parsed.rawBody;
    } else {
      ParsedBodyIsInput(Message(record));
    }
  }

  /**
    Parsing undoes building exactly for host names below 2^24 - 151 bytes whose extension block,
    cut to 16 bits, still covers the key share; in particular whenever 155 + |host| <= 65535.
   */
  lemma {:induction false} ParseUndoesBuild(random: seq<Byte>, sid: seq<Byte>, keyShare: seq<Byte>, host: seq<Byte>)
    requires Sizes(random, sid, keyShare)
    ensures ParseClientHello(Record(random, sid, keyShare, host)) ==
            Ok(Parsed(Body(random, sid, keyShare, host), random, sid, keyShare))
            <==> 151 + |host| < 16777216 && (76 + |host|) % 65536 >= 67
  {
    RecordFraming(random, sid, keyShare, host);
    BuiltBodyParses(random, sid, keyShare, host);
    Be24AtMost(151 + |host|);
    CutParse(Record(random, sid, keyShare, host), Announced(host),
             Parsed(Body(random, sid, keyShare, host), random, sid, keyShare));
  }

  /** Hosts for which the printed extension length wraps to a value short of the key. */
  lemma {:induction false} LongHostUnparsable(random: seq<Byte>, sid: seq<Byte>, keyShare: seq<Byte>, host: seq<Byte>)
    requires Sizes(random, sid, keyShare) && 65460 <= |host| <= 65526
    ensures ParseClientHello(Record(random, sid, keyShare, host)).Err?
  {
    RecordFraming(random, sid, keyShare, host);
    BuiltBodyParses(random, sid, keyShare, host);
    Be24AtMost(151 + |host|);
    Low16(1, |host| - 65460);
    assert 76 + |host| == 65536 * 1 + (|host| - 65460);
    WholeParse(Record(random, sid, keyShare, host), Body(random, sid, keyShare, host));
  }

  lemma {:induction false} WholeParse(record: seq<Byte>, body: seq<Byte>)
    requires |body| >= 4 && Around(record, body, |body| - 4)
    ensures ParseClientHello(record) == ParseBody(body)
  {
    ParseOfMessage(record);
    assert Message(record) == body;
  }

  lemma {:induction false} ParsedBodyIsInput(body: seq<Byte>)
    ensures ParseBody(body).Ok? ==> ParseBody(body).value.rawBody == body
  {
  }

  /** The printer puts the session id where `WithSessionId` exchanges it. */
  lemma {:induction false} BuildWithSessionId(random: seq<Byte>, sid: seq<Byte>, sid': seq<Byte>, keyShare: seq<Byte>, host: seq<Byte>)
    requires Sizes(random, sid, keyShare) && |sid'| == 32
    ensures |Record(random, sid, keyShare, host)| >= 76
    ensures WithSessionId(Record(random, sid, keyShare, host), sid') == Record(random, sid', keyShare, host)
  {
    var a := [0x16, 0x03, 0x01] + Be16(155 + |host|) + ([0x01] + Be24(151 + |host|)) + ([0x03, 0x03] + random + [32]);
    var z := [0x00, 0x02, 0x13, 0x01, 0x01, 0x00] + (Be16(76 + |host|) + Extensions(keyShare, host));
    assert |a| == 44;
    RecordParts(random, sid, keyShare, host);
    RecordParts(random, sid', keyShare, host);
    assert (a + sid + z)[..44] == a && (a + sid + z)[76..] == z;
  }

  lemma {:induction false} RecordParts(random: seq<Byte>, sid: seq<Byte>, keyShare: seq<Byte>, host: seq<Byte>)
    ensures Record(random, sid, keyShare, host) ==
            [0x16, 0x03, 0x01] + Be16(155 + |host|) + ([0x01] + Be24(151 + |host|)) + ([0x03, 0x03] + random + [32])
            + sid + ([0x00, 0x02, 0x13, 0x01, 0x01, 0x00] + (Be16(76 + |host|) + Extensions(keyShare, host)))
  {
  }
}
