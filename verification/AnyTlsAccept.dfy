/**
  AnyTLS authentication (crates/anytls/src/lib.rs, crates/anytls/src/auth.rs): a 34-byte
  header read exactly, a constant-time hash comparison and a padding run consumed byte by byte.
 */
module AnyTlsAccept {
  import opened Bytes
  import opened TlsPlaintext

  const HASH_LEN := 32
  const AUTH_HEADER := 34

  // ---- constant-time comparison ----

  /** Bitwise exclusive or. */
  function Xor(a: nat, b: nat): nat {
    if a == 0 && b == 0 then 0 else (a % 2 + b % 2) % 2 + 2 * Xor(a / 2, b / 2)
  }

  /** Bitwise or. */
  function Or(a: nat, b: nat): nat {
    if a == 0 && b == 0 then 0
    else (if a % 2 == 1 || b % 2 == 1 then 1 else 0) + 2 * Or(a / 2, b / 2)
  }

  lemma {:induction false} XorZero(a: nat, b: nat)
    ensures Xor(a, b) == 0 <==> a == b
    decreases a + b
  {
    if a != 0 || b != 0 {
      XorZero(a / 2, b / 2);
    }
  }

  lemma {:induction false} OrZero(a: nat, b: nat)
    ensures Or(a, b) == 0 <==> a == 0 && b == 0
    decreases a + b
  {
    if a != 0 || b != 0 {
      OrZero(a / 2, b / 2);
    }
  }

  /** OR-ing together the XOR of every byte pair decides equality. */
  method VerifyPasswordHash(received: seq<Byte>, expected: seq<Byte>) returns (same: bool)
    requires |received| == HASH_LEN && |expected| == HASH_LEN
    ensures same <==> received == expected
  {
    var acc := 0;
    for i := 0 to HASH_LEN
      invariant acc == 0 <==> received[..i] == expected[..i]
    {
      XorZero(received[i], expected[i]);
      OrZero(acc, Xor(received[i], expected[i]));
      acc := Or(acc, Xor(received[i], expected[i]));
      assert received[..i + 1] == received[..i] + [received[i]];
      assert expected[..i + 1] == expected[..i] + [expected[i]];
    }
    assert received[..HASH_LEN] == received && expected[..HASH_LEN] == expected;
    return acc == 0;
  }

  // ---- accepting a connection ----

  datatype Cause = Io(error: IoError) | AuthFailed

  /**
    `buffered` is the only plaintext the fallback destination is sent. The error carries the raw socket,
    not the TLS connection, so what follows is TLS records, and plaintext already decrypted is dropped.
   */
  datatype AcceptError = AcceptError(cause: Cause, buffered: seq<Byte>)

  function PaddingLen(s: seq<Byte>): nat
    requires |s| >= AUTH_HEADER
  {
    U16(s[32], s[33])
  }

  /** The stream opens with the configured hash and carries all the padding it announces. */
  predicate Authentic(s: seq<Byte>, passwordHash: seq<Byte>) {
    |s| >= AUTH_HEADER && s[..HASH_LEN] == passwordHash && |s| >= AUTH_HEADER + PaddingLen(s)
  }

  /** `now` is what remains of `before` once some bytes have been consumed. */
  ghost predicate Suffix(now: seq<Byte>, before: seq<Byte>) {
    |now| <= |before| && now == before[|before| - |now|..]
  }

  /**
    Consumes up to `n` bytes one at a time, and all of them exactly on success. Schedules may be
    arbitrarily unfriendly; what is consumed is always a prefix of the stream.
   */
  method SkipPadding(conn: TlsConn, n: nat) returns (r: Result<(), IoError>)
    modifies conn
    ensures Suffix(conn.unread, old(conn.unread)) && |old(conn.unread)| - |conn.unread| <= n
    ensures r.Ok? <==> |old(conn.unread)| - |conn.unread| == n
    ensures NoFailure(old(conn.schedule)) && |old(conn.unread)| >= n && r.Err? ==> r.error == Starved
    ensures Serves(old(conn.schedule), old(conn.unread), n) ==> r.Ok?
  {
    var byte := new Byte[1];
    ghost var used := 0;
    for i := 0 to n
      modifies conn, byte
      invariant |old(conn.unread)| >= i && conn.unread == old(conn.unread)[i..]
      invariant 0 <= used <= |old(conn.schedule)| && conn.schedule == old(conn.schedule)[used..]
      invariant Serves(old(conn.schedule), old(conn.unread), n) ==>
                  Deliveries(conn.schedule) >= Deliveries(old(conn.schedule)) - i
    {
      ghost var before := conn.schedule;
      var step, got := TlsReadExact(conn, byte);
      used := used + (|before| - |conn.schedule|);
      if step.Err? {
        return step;
      }
    }
    return Ok(());
  }

  /** Reads the 34-byte header into zeroed memory; what does not arrive stays zero. */
  method ReadAuthHeader(conn: TlsConn) returns (r: Result<(), IoError>, header: seq<Byte>)
    modifies conn
    ensures Suffix(conn.unread, old(conn.unread))
    ensures var got := |old(conn.unread)| - |conn.unread|;
            got <= AUTH_HEADER && (r.Ok? <==> got == AUTH_HEADER) && header == old(conn.unread)[..got] + Zeros(AUTH_HEADER - got)
    ensures |conn.schedule| <= |old(conn.schedule)|
    ensures conn.schedule == old(conn.schedule)[|old(conn.schedule)| - |conn.schedule|..]
    ensures Serves(old(conn.schedule), old(conn.unread), AUTH_HEADER) ==>
              r.Ok? && Deliveries(conn.schedule) >= Deliveries(old(conn.schedule)) - AUTH_HEADER
  {
    var buf := new Byte[AUTH_HEADER](_ => 0);
    assert buf[..] == Zeros(AUTH_HEADER);
    ghost var got;
    r, got := TlsReadExact(conn, buf);
    header := buf[..];
    assert header == buf[..got] + buf[got..];
    assert Zeros(AUTH_HEADER)[got..] == Zeros(AUTH_HEADER - got);
  }

  /** The plaintext sent to the fallback, when `left` remains of the client's plaintext. */
  ghost predicate FallbackGets(client: seq<Byte>, left: seq<Byte>, error: AcceptError) {
    && Suffix(left, client)
    && var taken := client[..|client| - |left|];
       if error.cause.AuthFailed? then error.buffered == taken
       else if |taken| < AUTH_HEADER then error.buffered == taken + Zeros(AUTH_HEADER - |taken|)
       else error.buffered == []
  }

  /** Checks the hash in the header and consumes the padding it announces. */
  method CheckHeader(conn: TlsConn, header: seq<Byte>, passwordHash: seq<Byte>, ghost client: seq<Byte>)
    returns (r: Result<(), AcceptError>)
    requires |passwordHash| == HASH_LEN && |header| == AUTH_HEADER && client == header + conn.unread
    modifies conn
    ensures r.Ok? ==> Authentic(client, passwordHash) && conn.unread == client[AUTH_HEADER + PaddingLen(client)..]
    ensures r.Err? ==> FallbackGets(client, conn.unread, r.error)
    ensures r.Err? ==> (r.error.cause.AuthFailed? <==> client[..HASH_LEN] != passwordHash)
    ensures r.Err? && r.error.cause.AuthFailed? ==> r.error.buffered == header
    ensures Serves(old(conn.schedule), old(conn.unread), PaddingLen(client)) && client[..HASH_LEN] == passwordHash ==> r.Ok?
  {
    assert client[..HASH_LEN] == header[..HASH_LEN];
    var same := VerifyPasswordHash(header[..HASH_LEN], passwordHash);
    if !same {
      return Err(AcceptError(AuthFailed, header));
    }
    var paddingLen := U16(header[32], header[33]);
    assert paddingLen == PaddingLen(client);
    var skipped := SkipPadding(conn, paddingLen);
    if skipped.Err? {
      return Err(AcceptError(Io(skipped.error), []));
    }
    return Ok(());
  }

  /**
    On success the stream opened with the configured hash and stands right after the padding. On any
    failure a prefix of the stream is gone. The plaintext the fallback is sent is exactly that prefix
    when authentication fails, as it does on every served header with another hash; after a read
    failure in the header it is padded with zeros to 34 bytes, and after one in the padding it is empty.
   */
  method AcceptAnyTls(conn: TlsConn, passwordHash: seq<Byte>) returns (r: Result<(), AcceptError>)
    requires |passwordHash| == HASH_LEN
    modifies conn
    ensures r.Ok? ==> Authentic(old(conn.unread), passwordHash)
                      && conn.unread == old(conn.unread)[AUTH_HEADER + PaddingLen(old(conn.unread))..]
    ensures r.Err? ==> FallbackGets(old(conn.unread), conn.unread, r.error)
    ensures r.Err? && r.error.cause.AuthFailed? ==>
              |r.error.buffered| == AUTH_HEADER && r.error.buffered[..HASH_LEN] != passwordHash
    ensures Serves(old(conn.schedule), old(conn.unread), AUTH_HEADER) && old(conn.unread)[..HASH_LEN] != passwordHash ==>
              r.Err? && r.error.cause.AuthFailed?
    ensures NoFailure(old(conn.schedule)) && Deliveries(old(conn.schedule)) >= |old(conn.unread)| ==>
              (r.Ok? <==> Authentic(old(conn.unread), passwordHash))
  {
    var step, header := ReadAuthHeader(conn);
    if step.Err? {
      return Err(AcceptError(Io(step.error), header));
    }
    assert header == old(conn.unread)[..AUTH_HEADER];
    r := CheckHeader(conn, header, passwordHash, old(conn.unread));
  }

  /**
    The fallback is sent the client's whole plaintext exactly when that ends with the header: nothing
    is left after a failed authentication, or the part of the header that was not read is all zeros.
   */
  lemma {:induction false} FallbackIsExact(client: seq<Byte>, left: seq<Byte>, error: AcceptError)
    requires FallbackGets(client, left, error)
    ensures error.buffered == client <==>
            if error.cause.AuthFailed? then left == []
            else |client| == AUTH_HEADER && left != [] && left == Zeros(|left|)
  {
    var taken := client[..|client| - |left|];
    assert client == taken + left;
    if !error.cause.AuthFailed? && |taken| < AUTH_HEADER {
      SameTail(taken, Zeros(AUTH_HEADER - |taken|), left);
    }
  }

  lemma {:induction false} SameTail(a: seq<Byte>, b: seq<Byte>, c: seq<Byte>)
    ensures a + b == a + c <==> b == c
  {
    assert (a + b)[|a|..] == b && (a + c)[|a|..] == c;
  }

  /** One byte behind a header with the wrong hash never reaches the fallback. */
  lemma {:induction false} PipelinedByteLost(client: seq<Byte>, left: seq<Byte>, error: AcceptError)
    requires |client| == AUTH_HEADER + 1
    requires FallbackGets(client, left, error) && error.cause.AuthFailed? && |error.buffered| == AUTH_HEADER
    ensures left == [client[AUTH_HEADER]] && error.buffered == client[..AUTH_HEADER] && error.buffered != client
  {
    FallbackIsExact(client, left, error);
  }

  // ---- what follows authentication ----

  const CMD_SETTINGS: Byte := 4

  datatype PostAuthProtocol = Vless | SingAnyTls

  /** Consumes exactly the first byte after authentication and classifies the stream by it. */
  method DetectPostAuthProtocol(conn: TlsConn) returns (r: Result<(PostAuthProtocol, Byte), IoError>)
    modifies conn
    ensures r.Ok? ==> |old(conn.unread)| >= 1 && conn.unread == old(conn.unread)[1..]
                      && r.value.1 == old(conn.unread)[0]
                      && (r.value.0 == SingAnyTls <==> old(conn.unread)[0] == CMD_SETTINGS)
    ensures r.Err? ==> conn.unread == old(conn.unread)
  {
    var first := new Byte[1];
    var step, got := TlsReadExact(conn, first);
    if step.Err? {
      return Err(step.error);
    }
    return Ok((if first[0] == CMD_SETTINGS then SingAnyTls else Vless, first[0]));
  }
}
