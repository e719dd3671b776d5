/**
  REALITY authentication (crates/reality/src/auth.rs): the client seals a timestamp and a short id
  into the session id of its ClientHello, with the hello itself as associated data; the server
  recomputes key and associated data from what it parsed.
 */
module RealityAuth {
  import opened Bytes
  import opened Aead
  import opened ClientHello
  import RealityHello

  /** X25519, HKDF-SHA256 and AES-256-GCM keyed by the auth key. */
  datatype Crypto = Crypto(
    publicKey: seq<Byte> -> seq<Byte>,
    diffieHellman: (seq<Byte>, seq<Byte>) -> seq<Byte>,
    hkdf: (seq<Byte>, seq<Byte>) -> seq<Byte>,
    aes: seq<Byte> -> Cipher)

  ghost predicate LawfulCrypto(k: Crypto) {
    && (forall a: seq<Byte>, b: seq<Byte> ::
          k.diffieHellman(a, k.publicKey(b)) == k.diffieHellman(b, k.publicKey(a)))
    && (forall a: seq<Byte> :: |k.publicKey(a)| == 32)
    && (forall key: seq<Byte> :: Lawful(k.aes(key)))
  }

  datatype Config = Config(privateKey: seq<Byte>, shortIds: seq<seq<Byte>>, maxTimeDiff: nat)

  datatype AuthError = DecryptFailed | PayloadTooShort | ReservedNotZero | TimestampOutOfRange | UnknownShortId

  datatype Payload = Payload(version: seq<Byte>, timestamp: nat, shortId: seq<Byte>)

  type Word = n: nat | n < 4294967296

  // ---- keys ----

  function DeriveAuthKey(k: Crypto, serverKey: seq<Byte>, keyShare: seq<Byte>, random: seq<Byte>): seq<Byte>
    requires |random| == 32
  {
    k.hkdf(random[..20], k.diffieHellman(serverKey, keyShare))
  }

  function DeriveClientAuthKey(k: Crypto, random: seq<Byte>, shared: seq<Byte>): seq<Byte>
    requires |random| == 32
  {
    k.hkdf(random[..20], shared)
  }

  // ---- the sealed session id ----

  function Plaintext(timestamp: Word, shortId: seq<Byte>): seq<Byte> {
    [1, 2, 3, 0] + Be32(timestamp) + shortId + Zeros(4)
  }

  function BuildSessionId(k: Crypto, authKey: seq<Byte>, random: seq<Byte>, timestamp: Word,
                          shortId: seq<Byte>, aad: seq<Byte>): Option<seq<Byte>>
    requires |random| == 32
  {
    k.aes(authKey).encrypt(random[20..32], Plaintext(timestamp, shortId), aad)
  }

  function DecryptSessionId(k: Crypto, authKey: seq<Byte>, random: seq<Byte>, sid: seq<Byte>, aad: seq<Byte>)
      : Result<Payload, AuthError>
    requires |random| == 32
  {
    match k.aes(authKey).decrypt(random[20..32], sid, aad)
    case None => Err(DecryptFailed)
    case Some(p) =>
      if |p| < 16 then Err(PayloadTooShort)
      else if p[3] != 0 then Err(ReservedNotZero)
      else Ok(Payload(p[0..3], U32(p[4], p[5], p[6], p[7]), p[8..12]))
  }

  // ---- the server ----

  function AbsDiff(a: nat, b: nat): nat {
    if a < b then b - a else a - b
  }

  /** The ClientHello body with bytes 39 to 70 zeroed. */
  function Aad(rawBody: seq<Byte>): seq<Byte> {
    if |rawBody| >= 71 then BodyWithSessionId(rawBody, Zeros(32)) else rawBody
  }

  function Authenticate(k: Crypto, hello: Parsed, config: Config, now: nat): Result<seq<Byte>, AuthError>
    requires |hello.random| == 32
  {
    var authKey := DeriveAuthKey(k, config.privateKey, hello.keyShare, hello.random);
    match DecryptSessionId(k, authKey, hello.random, hello.sessionId, Aad(hello.rawBody))
    case Err(e) => Err(e)
    case Ok(payload) =>
      if AbsDiff(now, payload.timestamp) > config.maxTimeDiff then Err(TimestampOutOfRange)
      else if payload.shortId in config.shortIds then Ok(authKey)
      else Err(UnknownShortId)
  }

  // ---- what the two ends agree on ----

  /** The verdict a well-behaved client is entitled to. */
  function Verdict(authKey: seq<Byte>, config: Config, timestamp: Word, shortId: seq<Byte>, now: nat)
      : Result<seq<Byte>, AuthError>
  {
    if AbsDiff(now, timestamp) > config.maxTimeDiff then Err(TimestampOutOfRange)
    else if shortId in config.shortIds then Ok(authKey)
    else Err(UnknownShortId)
  }

  /** Whatever session id a body carries, zeroing bytes 39..71 gives the same associated data. */
  lemma {:induction false} AadForgetsSessionId(body: seq<Byte>, sid: seq<Byte>)
    requires |body| >= 71 && |sid| == 32
    ensures Aad(BodyWithSessionId(body, sid)) == Aad(body)
  {
    var t := BodyWithSessionId(body, sid);
    SpliceAgrees(body, 39, sid);
    assert t[..39] == body[..39];
    assert t[71..] == body[71..];
  }

  /** A session id sealed by the client opens at the server to the same timestamp and short id. */
  lemma {:induction false} SessionIdRoundTrip(k: Crypto, authKey: seq<Byte>, random: seq<Byte>, timestamp: Word,
                                              shortId: seq<Byte>, aad: seq<Byte>)
    requires LawfulCrypto(k) && |random| == 32 && |shortId| == 4
    ensures var sid := BuildSessionId(k, authKey, random, timestamp, shortId, aad);
            && sid.Some? && |sid.value| == 32
            && DecryptSessionId(k, authKey, random, sid.value, aad) == Ok(Payload([1, 2, 3], timestamp, shortId))
  {
    var p := Plaintext(timestamp, shortId);
    PlaintextLayout(Be32(timestamp), shortId);
    Be32Exact(timestamp);
    assert Lawful(k.aes(authKey));
  }

  lemma {:induction false} PlaintextLayout(ts: seq<Byte>, shortId: seq<Byte>)
    requires |ts| == 4 && |shortId| == 4
    ensures var p := [1, 2, 3, 0] + ts + shortId + Zeros(4);
            && |p| == 16 && p[0..3] == [1, 2, 3] && p[3] == 0
            && p[4] == ts[0] && p[5] == ts[1] && p[6] == ts[2] && p[7] == ts[3] && p[8..12] == shortId
  {
  }

  lemma {:induction false} ParsedRandom(buf: seq<Byte>)
    ensures ParseClientHello(buf).Ok? ==> |ParseClientHello(buf).value.random| == 32
  {
    ParseOfMessage(buf);
  }

  /**
    Agreement for any hello. Take any record that parses with the client's public key as its key
    share, seal the session id with the zeroed message as associated data and put it in place.
    The record still parses, and the server accepts it with the client's own key exactly when the
    timestamp is in range and the short id is listed.
   */
  lemma {:induction false} Agreement(k: Crypto, buf: seq<Byte>, clientKey: seq<Byte>, config: Config,
                                     timestamp: Word, shortId: seq<Byte>, now: nat)
    requires LawfulCrypto(k) && |shortId| == 4
    requires ParseClientHello(buf).Ok? && ParseClientHello(buf).value.keyShare == k.publicKey(clientKey)
    ensures |ParseClientHello(buf).value.random| == 32 && |buf| >= 76
    ensures var p := ParseClientHello(buf).value;
            var authKey := DeriveClientAuthKey(k, p.random, k.diffieHellman(clientKey, k.publicKey(config.privateKey)));
            var sid := BuildSessionId(k, authKey, p.random, timestamp, shortId, Aad(p.rawBody));
            && sid.Some?
            && ParseClientHello(WithSessionId(buf, sid.value)).Ok?
            && var hello := ParseClientHello(WithSessionId(buf, sid.value)).value;
            && |hello.random| == 32
            && Authenticate(k, hello, config, now) == Verdict(authKey, config, timestamp, shortId, now)
  {
    ParsedRandom(buf);
    var p := ParseClientHello(buf).value;
    var shared := k.diffieHellman(clientKey, k.publicKey(config.privateKey));
    var authKey := DeriveClientAuthKey(k, p.random, shared);
    SessionIdRoundTrip(k, authKey, p.random, timestamp, shortId, Aad(p.rawBody));
    var sid := BuildSessionId(k, authKey, p.random, timestamp, shortId, Aad(p.rawBody)).value;
    ParseIgnoresSessionId(buf, sid);
    AadForgetsSessionId(p.rawBody, sid);
    assert shared == k.diffieHellman(config.privateKey, p.keyShare);
  }

  /** The associated data the shipped client uses: its own hello, built with a zero session id. */
  function ClientAad(random: seq<Byte>, keyShare: seq<Byte>, host: seq<Byte>): seq<Byte> {
    RealityHello.Body(random, Zeros(32), keyShare, host)
  }

  /**
    Agreement for the shipped client, for every host name its printer can print: the hello built
    with the sealed session id parses, and the verdict is the one the client is entitled to.
   */
  lemma {:induction false} ClientServerAgreement(k: Crypto, clientKey: seq<Byte>, random: seq<Byte>, host: seq<Byte>,
                                                 config: Config, timestamp: Word, shortId: seq<Byte>, now: nat)
    requires LawfulCrypto(k) && |random| == 32 && |shortId| == 4
    requires 151 + |host| < 16777216 && (76 + |host|) % 65536 >= 67
    ensures var keyShare := k.publicKey(clientKey);
            var authKey := DeriveClientAuthKey(k, random, k.diffieHellman(clientKey, k.publicKey(config.privateKey)));
            var sid := BuildSessionId(k, authKey, random, timestamp, shortId, ClientAad(random, keyShare, host));
            && sid.Some?
            && var hello := ParseClientHello(RealityHello.Record(random, sid.value, keyShare, host));
            && hello.Ok? && |hello.value.random| == 32
            && Authenticate(k, hello.value, config, now) == Verdict(authKey, config, timestamp, shortId, now)
  {
    var keyShare := k.publicKey(clientKey);
    var blank := RealityHello.Record(random, Zeros(32), keyShare, host);
    RealityHello.ParseUndoesBuild(random, Zeros(32), keyShare, host);
    Agreement(k, blank, clientKey, config, timestamp, shortId, now);
    var p := ParseClientHello(blank).value;
    BlankAad(random, keyShare, host);
    var authKey := DeriveClientAuthKey(k, random, k.diffieHellman(clientKey, k.publicKey(config.privateKey)));
    SessionIdRoundTrip(k, authKey, random, timestamp, shortId, Aad(p.rawBody));
    var sid := BuildSessionId(k, authKey, random, timestamp, shortId, Aad(p.rawBody)).value;
    RealityHello.BuildWithSessionId(random, Zeros(32), sid, keyShare, host);
  }

  /** A body built with a zero session id is its own associated data. */
  lemma {:induction false} BlankAad(random: seq<Byte>, keyShare: seq<Byte>, host: seq<Byte>)
    requires |random| == 32 && |keyShare| == 32
    ensures Aad(RealityHello.Body(random, Zeros(32), keyShare, host)) == ClientAad(random, keyShare, host)
  {
    var body := RealityHello.Body(random, Zeros(32), keyShare, host);
    RealityHello.FrontLayout(random, Zeros(32));
    RealityHello.BodyLayout(Be24(151 + |host|), RealityHello.Front(random, Zeros(32)), Be16(76 + |host|),
                            RealityHello.Extensions(keyShare, host));
    assert body[39..71] == Zeros(32);
    assert body == body[..39] + body[39..71] + body[71..];
  }
}
