/**
  The REALITY front end from the client's printer to the server's verdict: the hello travels over a
  socket that delivers it in any pieces, with more bytes possibly behind it.
 */
module RealityEndToEnd {
  import opened Bytes
  import opened ClientHello
  import opened RealityAuth
  import H = RealityHello
  import A = RealityAccept

  /** A whole record is what its header announces, and never more than 65531 bytes of it. */
  lemma {:induction false} WholeIsAnnounced(client: seq<Byte>, s: seq<A.Arrival>)
    requires A.Receive(client, s).outcome == A.Whole
    ensures |client| >= 5 && var len := U16(client[3], client[4]);
            len <= A.MAX_RECORD && 5 + len <= |client| && A.Receive(client, s).buffered == client[..5 + len]
  {
  }

  lemma {:induction false} RecordLength(random: seq<Byte>, sid: seq<Byte>, keyShare: seq<Byte>, host: seq<Byte>, more: seq<Byte>)
    requires H.Sizes(random, sid, keyShare)
    ensures var client := H.Record(random, sid, keyShare, host) + more;
            && |H.Record(random, sid, keyShare, host)| == 160 + |host|
            && U16(client[3], client[4]) == (155 + |host|) % 65536
  {
    H.RecordFraming(random, sid, keyShare, host);
    Be16Value(155 + |host|);
    LengthBytes(Be16(155 + |host|), H.Body(random, sid, keyShare, host), more);
  }

  /** A hello within the limit is held whole by a server whose socket serves a read per byte of it. */
  lemma {:induction false} HelloWhole(random: seq<Byte>, sid: seq<Byte>, keyShare: seq<Byte>, host: seq<Byte>,
                                      more: seq<Byte>, s: seq<A.Arrival>)
    requires H.Sizes(random, sid, keyShare) && 155 + |host| <= A.MAX_RECORD && A.Serves(s, 160 + |host|)
    ensures A.Receive(H.Record(random, sid, keyShare, host) + more, s).outcome == A.Whole
  {
    RecordLength(random, sid, keyShare, host, more);
    Low16Is(155 + |host|);
    A.WholeWhenServed(H.Record(random, sid, keyShare, host) + more, s);
  }

  lemma {:induction false} LengthBytes(len: seq<Byte>, body: seq<Byte>, more: seq<Byte>)
    requires |len| == 2
    ensures var client := [0x16, 0x03, 0x01] + len + body + more;
            client[3] == len[0] && client[4] == len[1]
  {
  }

  /**
    When the server holds a whole record, it is the client's hello exactly for host names of at most
    65376 bytes; longer hellos announce a length cut to 16 bits.
   */
  lemma {:induction false} HelloBuffered(random: seq<Byte>, sid: seq<Byte>, keyShare: seq<Byte>, host: seq<Byte>,
                                         more: seq<Byte>, s: seq<A.Arrival>)
    requires H.Sizes(random, sid, keyShare)
    requires A.Receive(H.Record(random, sid, keyShare, host) + more, s).outcome == A.Whole
    ensures A.Receive(H.Record(random, sid, keyShare, host) + more, s).buffered == H.Record(random, sid, keyShare, host) <==>
            155 + |host| <= A.MAX_RECORD
  {
    var record := H.Record(random, sid, keyShare, host);
    WholeIsAnnounced(record + more, s);
    RecordLength(random, sid, keyShare, host, more);
    PrefixIs(record, more, 5 + (155 + |host|) % 65536);
    Low16Is(155 + |host|);
  }

  lemma {:induction false} PrefixIs(record: seq<Byte>, more: seq<Byte>, n: nat)
    requires n <= |record + more|
    ensures (record + more)[..n] == record <==> n == |record|
  {
  }

  lemma {:induction false} Low16Is(n: nat)
    ensures n % 65536 == n <==> n < 65536
  {
  }

  /** The session id the client seals for its own hello. */
  function SealedId(k: Crypto, clientKey: seq<Byte>, random: seq<Byte>, host: seq<Byte>, config: Config,
                    timestamp: Word, shortId: seq<Byte>): Option<seq<Byte>>
    requires |random| == 32 && |shortId| == 4
  {
    BuildSessionId(k, ClientKey(k, clientKey, random, config), random, timestamp, shortId,
                   ClientAad(random, k.publicKey(clientKey), host))
  }

  /** The key the client derives for this connection. */
  function ClientKey(k: Crypto, clientKey: seq<Byte>, random: seq<Byte>, config: Config): seq<Byte>
    requires |random| == 32
  {
    DeriveClientAuthKey(k, random, k.diffieHellman(clientKey, k.publicKey(config.privateKey)))
  }

  /**
    From printer to verdict. However the hello is cut into reads and whatever follows it, once the
    server holds a whole record the record parses, and the server's verdict, with the client's own
    key, is the one the client's timestamp and short id are entitled to. It does hold a whole record
    when the socket serves a read for each byte of the hello.
   */
  lemma {:induction false} VerdictOverTheWire(k: Crypto, clientKey: seq<Byte>, random: seq<Byte>, host: seq<Byte>,
                                              config: Config, timestamp: Word, shortId: seq<Byte>, now: nat,
                                              more: seq<Byte>, s: seq<A.Arrival>)
    requires LawfulCrypto(k) && |random| == 32 && |shortId| == 4 && 155 + |host| <= A.MAX_RECORD
    ensures SealedId(k, clientKey, random, host, config, timestamp, shortId).Some?
    ensures var sid := SealedId(k, clientKey, random, host, config, timestamp, shortId).value;
            var got := A.Receive(H.Record(random, sid, k.publicKey(clientKey), host) + more, s);
            && (A.Serves(s, 160 + |host|) ==> got.outcome == A.Whole)
            && (got.outcome == A.Whole ==>
                  && ParseClientHello(got.buffered).Ok? && |ParseClientHello(got.buffered).value.random| == 32
                  && Authenticate(k, ParseClientHello(got.buffered).value, config, now) ==
                     Verdict(ClientKey(k, clientKey, random, config), config, timestamp, shortId, now))
  {
    ClientServerAgreement(k, clientKey, random, host, config, timestamp, shortId, now);
    var sid := SealedId(k, clientKey, random, host, config, timestamp, shortId).value;
    SessionIdRoundTrip(k, ClientKey(k, clientKey, random, config), random, timestamp, shortId,
                       ClientAad(random, k.publicKey(clientKey), host));
    if A.Serves(s, 160 + |host|) {
      HelloWhole(random, sid, k.publicKey(clientKey), host, more, s);
    }
    if A.Receive(H.Record(random, sid, k.publicKey(clientKey), host) + more, s).outcome == A.Whole {
      HelloBuffered(random, sid, k.publicKey(clientKey), host, more, s);
    }
  }
}
