/**
  The front end of crates/reality/src/tls.rs: reading the first TLS record off a socket under
  any fragmentation, and replaying it through `BufferedStream` or to the fallback destination.
 */
module RealityAccept {
  import opened Bytes

  const HEADER := 5
  const FIRST_READ := 4096
  const MAX_RECORD := 65531

  /** What the socket does on one `read`: hand over at most `n + 1` bytes, or fail. */
  datatype Arrival = Bytes(n: nat) | IoError

  /** A socket whose schedule has run out fails. */
  predicate Fails(s: seq<Arrival>) {
    s == [] || s[0].IoError?
  }

  /** Bytes returned by one read of at most `want` when `avail` are left. */
  function Share(s: seq<Arrival>, avail: nat, want: nat): nat
    requires !Fails(s)
  {
    Min(s[0].n + 1, Min(avail, want))
  }

  function Rest(s: seq<Arrival>): seq<Arrival> {
    if s == [] then [] else s[1..]
  }

  // ---- the record-reading part of `accept_reality`, as byte counts ----

  datatype Phase = Phase(count: nat, ok: bool, schedule: seq<Arrival>)

  /** The header loop: reads into the 4096-byte buffer until five bytes are there. */
  function HeaderPhase(total: nat, s: seq<Arrival>, n: nat): (p: Phase)
    requires n <= total && n <= FIRST_READ
    ensures n <= p.count <= total && p.count <= FIRST_READ && (p.ok <==> p.count >= HEADER)
    decreases total - n
  {
    if n >= HEADER then Phase(n, true, s)
    else if n == total || Fails(s) then Phase(n, false, Rest(s))
    else HeaderPhase(total, Rest(s), n + Share(s, total - n, FIRST_READ - n))
  }

  /** `read_exact` of `want` bytes when `avail` are left: what it takes, and whether it fills up. */
  function BodyPhase(avail: nat, s: seq<Arrival>, want: nat): (p: Phase)
    ensures p.count <= avail && p.count <= want && (p.ok <==> p.count == want)
    decreases want
  {
    if want == 0 then Phase(0, true, s)
    else if avail == 0 || Fails(s) then Phase(0, false, Rest(s))
    else
      var m := Share(s, avail, want);
      var p := BodyPhase(avail - m, Rest(s), want - m);
      p.(count := m + p.count)
  }

  lemma {:induction false} BodyStep(avail: nat, s: seq<Arrival>, want: nat)
    requires want > 0 && avail > 0 && !Fails(s)
    ensures var m := Share(s, avail, want);
            var p := BodyPhase(avail - m, Rest(s), want - m);
            0 < m && BodyPhase(avail, s, want) == Phase(m + p.count, p.ok, p.schedule)
  {
  }

  lemma {:induction false} HeaderStep(total: nat, s: seq<Arrival>, n: nat)
    requires n < total && n < HEADER && !Fails(s)
    ensures var m := Share(s, total - n, FIRST_READ - n);
            0 < m && HeaderPhase(total, s, n) == HeaderPhase(total, Rest(s), n + m)
  {
  }

  lemma {:induction false} HeaderStops(total: nat, s: seq<Arrival>, n: nat)
    requires n <= total && n < HEADER && (n == total || Fails(s))
    ensures HeaderPhase(total, s, n) == Phase(n, false, Rest(s))
  {
  }

  lemma {:induction false} BodyStops(avail: nat, s: seq<Arrival>, want: nat)
    requires want > 0 && (avail == 0 || Fails(s))
    ensures BodyPhase(avail, s, want) == Phase(0, false, Rest(s))
  {
  }

  datatype Outcome = Whole | HeaderFailed | TooLarge | BodyFailed

  /** What `accept_reality` holds in its buffer, what it has left on the socket, and how the socket goes on. */
  datatype Received = Received(outcome: Outcome, buffered: seq<Byte>, socket: seq<Byte>, schedule: seq<Arrival>)

  function Receive(client: seq<Byte>, s: seq<Arrival>): Received {
    AfterHeader(client, HeaderPhase(|client|, s, 0))
  }

  function AfterHeader(client: seq<Byte>, h: Phase): Received
    requires h.count <= |client| && (h.ok ==> h.count >= HEADER)
  {
    var n := h.count;
    if !h.ok then Received(HeaderFailed, client[..n], client[n..], h.schedule)
    else
      var recordLen := U16(client[3], client[4]);
      if recordLen > MAX_RECORD then Received(TooLarge, client[..n], client[n..], h.schedule)
      else
        var total := HEADER + recordLen;
        if n >= total then Received(Whole, client[..total], client[n..], h.schedule)
        else
          var b := BodyPhase(|client| - n, h.schedule, total - n);
          if b.ok then Received(Whole, client[..total], client[total..], b.schedule)
          else Received(BodyFailed, client[..n], client[n + b.count..], b.schedule)
  }

  /** The header loop ran past the end of the record. */
  predicate Overrun(client: seq<Byte>, s: seq<Arrival>) {
    var h := HeaderPhase(|client|, s, 0);
    h.ok && U16(client[3], client[4]) <= MAX_RECORD && h.count > HEADER + U16(client[3], client[4])
  }

  /** The record broke off after some of its body had been taken. */
  predicate BrokenBody(client: seq<Byte>, s: seq<Arrival>) {
    var h := HeaderPhase(|client|, s, 0);
    && h.ok && U16(client[3], client[4]) <= MAX_RECORD
    && h.count < HEADER + U16(client[3], client[4])
    && var b := BodyPhase(|client| - h.count, h.schedule, HEADER + U16(client[3], client[4]) - h.count);
    !b.ok && b.count > 0
  }

  /**
    The buffered bytes followed by the socket are the client's bytes, in order and complete,
    exactly when the header loop did not overrun the record and the body, if it was begun, was
    read in full. It does not matter how the bytes were fragmented otherwise.
   */
  lemma {:induction false} ReplayIsExact(client: seq<Byte>, s: seq<Arrival>)
    ensures var r := Receive(client, s);
            r.buffered + r.socket == client <==> !Overrun(client, s) && !BrokenBody(client, s)
  {
    var h := HeaderPhase(|client|, s, 0);
    var n := h.count;
    Splice(client, n, n);
    if h.ok && U16(client[3], client[4]) <= MAX_RECORD {
      var total := HEADER + U16(client[3], client[4]);
      if n < total {
        var b := BodyPhase(|client| - n, h.schedule, total - n);
        if b.ok {
          Splice(client, total, total);
        } else {
          Splice(client, n, n + b.count);
        }
      } else {
        Splice(client, total, n);
      }
    }
  }

  /** A prefix and a suffix make up the whole exactly when they meet. */
  lemma {:induction false} Splice(client: seq<Byte>, a: nat, b: nat)
    requires a <= |client| && b <= |client|
    ensures client[..a] + client[b..] == client <==> a == b
  {
    if a == b {
      assert client[..a] + client[a..] == client;
    } else {
      assert |client[..a] + client[b..]| != |client|;
    }
  }

  /** Two bytes behind a five-byte record that arrive with it are lost. */
  lemma {:induction false} PipelinedBytesLost(a: Byte, b: Byte)
    ensures var client := [0x16, 0x03, 0x01, 0x00, 0x00, a, b];
            Receive(client, [Bytes(100)]) == Received(Whole, client[..5], [], [])
  {
    var client := [0x16, 0x03, 0x01, 0x00, 0x00, a, b];
    assert HeaderPhase(7, [], 7) == Phase(7, true, []);
    assert HeaderPhase(7, [Bytes(100)], 0) == HeaderPhase(7, Rest([Bytes(100)]), 7);
    assert Rest([Bytes(100)]) == [];
  }

  lemma {:induction false} FirstReadOfFive(total: nat, rest: seq<Arrival>)
    requires total >= HEADER
    ensures HeaderPhase(total, [Bytes(4)] + rest, 0) == Phase(5, true, rest)
  {
    var s := [Bytes(4)] + rest;
    assert Rest(s) == rest;
    HeaderStep(total, s, 0);
  }

  lemma {:induction false} BodyBreaksOff(avail: nat, s: seq<Arrival>, want: nat)
    requires avail == 1 && want == 3 && s == [Bytes(0)]
    ensures BodyPhase(avail, s, want) == Phase(1, false, [])
  {
    BodyStep(avail, s, want);
    assert Rest(s) == [];
  }

  /** A record of three bytes breaks off after the first: that byte is lost. */
  lemma {:induction false} BrokenBodyLost(client: seq<Byte>, s: seq<Arrival>)
    requires |client| == 6 && U16(client[3], client[4]) == 3 && s == [Bytes(4), Bytes(0)]
    ensures BrokenBody(client, s)
    ensures Receive(client, s) == Received(BodyFailed, client[..5], [], [])
  {
    var rest := s[1..];
    assert s == [Bytes(4)] + rest;
    FirstReadOfFive(|client|, rest);
    BodyBreaksOff(|client| - 5, rest, 3);
  }

  /** Once the record is whole, only an overrun loses bytes. */
  lemma {:induction false} WholeReplay(client: seq<Byte>, s: seq<Arrival>)
    requires Receive(client, s).outcome == Whole
    ensures Receive(client, s).buffered + Receive(client, s).socket == client <==> !Overrun(client, s)
  {
    ReplayIsExact(client, s);
  }

  /** The socket serves `n` reads. */
  ghost predicate Serves(s: seq<Arrival>, n: nat) {
    |s| >= n && forall i :: 0 <= i < n ==> !s[i].IoError?
  }

  lemma {:induction false} ServesRest(s: seq<Arrival>, n: nat, m: nat)
    requires Serves(s, n) && m < n
    ensures !Fails(s) && Serves(Rest(s), m)
  {
    assert forall i :: 0 <= i < m ==> Rest(s)[i] == s[i + 1];
  }

  /** Every read brings a byte, so a socket that serves `m` reads gets the header and has reads to spare. */
  lemma {:induction false} HeaderServed(total: nat, s: seq<Arrival>, n: nat, m: nat)
    requires HEADER <= total && n <= total && n <= FIRST_READ && n + m >= HEADER && Serves(s, m)
    ensures var h := HeaderPhase(total, s, n);
            h.ok && (h.count <= n + m ==> Serves(h.schedule, n + m - h.count))
    decreases total - n
  {
    if n < HEADER {
      ServesRest(s, m, m - 1);
      HeaderStep(total, s, n);
      var k := Share(s, total - n, FIRST_READ - n);
      HeaderServed(total, Rest(s), n + k, m - 1);
      var h := HeaderPhase(total, s, n);
      if h.count <= n + m {
        ServesLess(h.schedule, n + k + (m - 1) - h.count, n + m - h.count);
      }
    }
  }

  lemma {:induction false} ServesLess(s: seq<Arrival>, n: nat, m: nat)
    requires Serves(s, n) && m <= n
    ensures Serves(s, m)
  {
  }

  lemma {:induction false} BodyServed(avail: nat, s: seq<Arrival>, want: nat)
    requires want <= avail && Serves(s, want)
    ensures BodyPhase(avail, s, want).ok
    decreases want
  {
    if want > 0 {
      ServesRest(s, want, want - 1);
      var k := Share(s, avail, want);
      BodyStep(avail, s, want);
      ServesLess(Rest(s), want - 1, want - k);
      BodyServed(avail - k, Rest(s), want - k);
    }
  }

  /** The client sent all of a record that is not too long. */
  predicate SentRecord(client: seq<Byte>) {
    |client| >= HEADER && U16(client[3], client[4]) <= MAX_RECORD && |client| >= HEADER + U16(client[3], client[4])
  }

  lemma {:induction false} BodyIsWhole(client: seq<Byte>, h: Phase)
    requires SentRecord(client) && h.ok && HEADER <= h.count <= |client|
    requires var total := HEADER + U16(client[3], client[4]);
             h.count < total ==> Serves(h.schedule, total - h.count)
    ensures AfterHeader(client, h).outcome == Whole
  {
    var total := HEADER + U16(client[3], client[4]);
    if h.count < total {
      BodyServed(|client| - h.count, h.schedule, total - h.count);
    }
  }

  /** A record is held whole only if it was sent, and always if it was and the socket serves a read per byte. */
  lemma {:induction false} WholeWhenServed(client: seq<Byte>, s: seq<Arrival>)
    ensures Receive(client, s).outcome == Whole ==> SentRecord(client)
    ensures SentRecord(client) && Serves(s, HEADER + U16(client[3], client[4])) ==> Receive(client, s).outcome == Whole
  {
    if SentRecord(client) && Serves(s, HEADER + U16(client[3], client[4])) {
      HeaderServed(|client|, s, 0, HEADER + U16(client[3], client[4]));
      BodyIsWhole(client, HeaderPhase(|client|, s, 0));
    }
  }

  // ---- the same, as the program does it ----

  class Socket {
    var input: seq<Byte>
    var schedule: seq<Arrival>

    constructor (input: seq<Byte>, schedule: seq<Arrival>)
      ensures this.input == input && this.schedule == schedule
    {
      this.input, this.schedule := input, schedule;
    }

    /** `read`: `None` is an I/O error, the empty result is end of file. */
    method Read(want: nat) returns (r: Option<seq<Byte>>)
      modifies this
      ensures schedule == Rest(old(schedule))
      ensures if old(input) == [] then r == Some([]) && input == []
              else if Fails(old(schedule)) then r.None? && input == old(input)
              else r.Some? && |r.value| == Share(old(schedule), |old(input)|, want)
                   && r.value == old(input)[..|r.value|] && input == old(input)[|r.value|..]
    {
      var s := schedule;
      schedule := Rest(schedule);
      if input == [] {
        return Some([]);
      }
      if Fails(s) {
        return None;
      }
      var m := Share(s, |input|, want);
      r := Some(input[..m]);
      input := input[m..];
    }
  }

  lemma {:induction false} Extend(all: seq<Byte>, n: nat, more: seq<Byte>)
    requires n + |more| <= |all| && all[n..][..|more|] == more
    ensures all[..n] + more == all[..n + |more|] && all[n..][|more|..] == all[n + |more|..]
  {
    assert all[..n + |more|] == all[..n] + all[n..][..|more|];
  }

  /** One read of the header loop after `n` bytes; `None` at end of file or on an error. */
  method HeaderTurn(sock: Socket, ghost total: nat, n: nat) returns (more: Option<seq<Byte>>)
    requires n < HEADER && total == n + |sock.input|
    modifies sock
    ensures more.None? ==> sock.input == old(sock.input)
                           && HeaderPhase(total, old(sock.schedule), n) == Phase(n, false, sock.schedule)
    ensures more.Some? ==> 0 < |more.value| <= FIRST_READ - n && |more.value| <= |old(sock.input)|
    ensures more.Some? ==> more.value == old(sock.input)[..|more.value|] && sock.input == old(sock.input)[|more.value|..]
    ensures more.Some? ==> HeaderPhase(total, old(sock.schedule), n) == HeaderPhase(total, sock.schedule, n + |more.value|)
  {
    ghost var s := sock.schedule;
    var got := sock.Read(FIRST_READ - n);
    if got.None? || got.value == [] {
      HeaderStops(total, s, n);
      return None;
    }
    HeaderStep(total, s, n);
    return got;
  }

  /** The header loop. `ok` is false at end of file or on an error. */
  method ReadHeader(sock: Socket) returns (ok: bool, buf: seq<Byte>)
    modifies sock
    ensures var h := HeaderPhase(|old(sock.input)|, old(sock.schedule), 0);
            && ok == h.ok && buf == old(sock.input)[..h.count]
            && sock.input == old(sock.input)[h.count..] && sock.schedule == h.schedule
  {
    ghost var client, whole := sock.input, HeaderPhase(|sock.input|, sock.schedule, 0);
    buf := [];
    while |buf| < HEADER
      invariant |buf| <= |client| && |buf| <= FIRST_READ
      invariant buf == client[..|buf|] && sock.input == client[|buf|..]
      invariant whole == HeaderPhase(|client|, sock.schedule, |buf|)
      decreases |client| - |buf|
    {
      var more := HeaderTurn(sock, |client|, |buf|);
      if more.None? {
        return false, buf;
      }
      Extend(client, |buf|, more.value);
      buf := buf + more.value;
    }
    return true, buf;
  }

  /** One read of `read_exact` with `want` bytes to go; `None` at end of file or on an error. */
  method BodyTurn(sock: Socket, want: nat) returns (more: Option<seq<Byte>>)
    requires want > 0
    modifies sock
    ensures more.None? ==> sock.input == old(sock.input)
                           && BodyPhase(|old(sock.input)|, old(sock.schedule), want) == Phase(0, false, sock.schedule)
    ensures more.Some? ==> 0 < |more.value| <= want && |more.value| <= |old(sock.input)|
    ensures more.Some? ==> more.value == old(sock.input)[..|more.value|] && sock.input == old(sock.input)[|more.value|..]
    ensures more.Some? ==>
              var before := BodyPhase(|old(sock.input)|, old(sock.schedule), want);
              var after := BodyPhase(|sock.input|, sock.schedule, want - |more.value|);
              before == Phase(|more.value| + after.count, after.ok, after.schedule)
  {
    ghost var s, avail := sock.schedule, |sock.input|;
    var got := sock.Read(want);
    if got.None? || got.value == [] {
      BodyStops(avail, s, want);
      return None;
    }
    BodyStep(avail, s, want);
    return got;
  }

  /** `read_exact` of `want` bytes. On failure the bytes already taken are gone. */
  method ReadExact(sock: Socket, want: nat) returns (ok: bool, data: seq<Byte>)
    modifies sock
    ensures var b := BodyPhase(|old(sock.input)|, old(sock.schedule), want);
            && ok == b.ok && data == old(sock.input)[..b.count]
            && sock.input == old(sock.input)[b.count..] && sock.schedule == b.schedule
  {
    ghost var rest := sock.input;
    ghost var whole := BodyPhase(|rest|, sock.schedule, want);
    ghost var left := whole;
    data := [];
    while |data| < want
      invariant |data| <= want && |data| <= |rest|
      invariant data == rest[..|data|] && sock.input == rest[|data|..]
      invariant left == BodyPhase(|sock.input|, sock.schedule, want - |data|)
      invariant whole == Phase(|data| + left.count, left.ok, left.schedule)
      decreases want - |data|
    {
      var more := BodyTurn(sock, want - |data|);
      if more.None? {
        return false, data;
      }
      Extend(rest, |data|, more.value);
      data := data + more.value;
      left := BodyPhase(|sock.input|, sock.schedule, want - |data|);
    }
    return true, data;
  }

  /** What `accept_reality` does once it has the header. */
  method AcceptBody(sock: Socket, header: seq<Byte>, ghost client: seq<Byte>) returns (outcome: Outcome, buffered: seq<Byte>)
    requires |header| >= HEADER && client == header + sock.input
    modifies sock
    ensures Received(outcome, buffered, sock.input, sock.schedule) ==
            AfterHeader(client, Phase(|header|, true, old(sock.schedule)))
  {
    var recordLen := U16(header[3], header[4]);
    if recordLen > MAX_RECORD {
      return TooLarge, header;
    }
    var total := HEADER + recordLen;
    if |header| >= total {
      return Whole, header[..total];
    }
    var filled, data := ReadExact(sock, total - |header|);
    if !filled {
      return BodyFailed, header;
    }
    return Whole, header + data;
  }

  method AcceptRecord(sock: Socket) returns (outcome: Outcome, buffered: seq<Byte>)
    modifies sock
    ensures Received(outcome, buffered, sock.input, sock.schedule) == Receive(old(sock.input), old(sock.schedule))
  {
    ghost var client := sock.input;
    var ok, buf := ReadHeader(sock);
    if !ok {
      return HeaderFailed, buf;
    }
    outcome, buffered := AcceptBody(sock, buf, client);
  }

  // ---- replay ----

  class BufferedStream {
    const inner: Socket
    var buffer: seq<Byte>
    var pos: nat
    /** Everything read so far, and everything there ever was to read. */
    ghost var seen: seq<Byte>
    ghost const source: seq<Byte>

    ghost predicate Valid()
      reads this, inner
    {
      pos <= |buffer| && seen + Unread() == source
    }

    ghost function Unread(): seq<Byte>
      reads this, inner
      requires pos <= |buffer|
    {
      buffer[pos..] + inner.input
    }

    constructor (inner: Socket, buffer: seq<Byte>)
      ensures Valid() && seen == [] && source == buffer + inner.input && this.inner == inner
    {
      this.inner, this.buffer, this.pos := inner, buffer, 0;
      this.seen, this.source := [], buffer + inner.input;
    }

    /** Every read continues where the last one stopped, first in the buffer and then on the socket. */
    method Read(want: nat) returns (r: Option<seq<Byte>>)
      requires Valid()
      modifies this, inner
      ensures Valid()
      ensures seen == old(seen) + if r.Some? then r.value else []
      ensures r.Some? ==> |r.value| <= want
      ensures r == Some([]) ==> want == 0 || old(Unread()) == []
      ensures r.None? ==> old(pos == |buffer|) && old(inner.input) != [] && Fails(old(inner.schedule))
      ensures if old(pos < |buffer|) then unchanged(inner)
              else inner.schedule == Rest(old(inner.schedule)) && inner.input == old(inner.input)[if r.Some? then |r.value| else 0..]
    {
      if pos < |buffer| {
        var n := Min(|buffer| - pos, want);
        var bytes := buffer[pos..pos + n];
        assert buffer[pos..] == bytes + buffer[pos + n..];
        Assoc(bytes, buffer[pos + n..], inner.input);
        Assoc(seen, bytes, buffer[pos + n..] + inner.input);
        pos := pos + n;
        seen := seen + bytes;
        return Some(bytes);
      }
      ghost var rest := inner.input;
      r := inner.Read(want);
      if r.Some? {
        assert rest == r.value + inner.input;
        Assoc(seen, r.value, inner.input);
        seen := seen + r.value;
        assert buffer[pos..] == [];
      }
    }

    /** `into_inner`: the buffered bytes nobody has read yet. */
    method IntoInner() returns (remaining: seq<Byte>)
      requires Valid()
      ensures seen + (remaining + inner.input) == source
    {
      remaining := buffer[pos..];
    }
  }

  /** One read of rustls through the stream. */
  method ReadOnce(stream: BufferedStream, size: nat) returns (bytes: seq<Byte>)
    requires stream.Valid()
    modifies stream, stream.inner
    ensures stream.Valid() && stream.seen == old(stream.seen) + bytes
    ensures size > 0 && Serves(old(stream.inner.schedule), |old(stream.inner.input)|) ==>
              && Serves(stream.inner.schedule, |stream.inner.input|)
              && (bytes == [] ==> stream.seen == stream.source)
  {
    var r := stream.Read(size);
    bytes := if r.Some? then r.value else [];
  }

  ghost predicate Positive(sizes: seq<nat>) {
    forall k :: 0 <= k < |sizes| ==> sizes[k] > 0
  }

  /** Enough non-empty reads on a serving socket, for everything there is. */
  ghost predicate Enough(sizes: seq<nat>, got: Received) {
    Positive(sizes) && |sizes| >= |got.buffered| + |got.socket| && Serves(got.schedule, |got.socket|)
  }

  /** What rustls sees of a stream in reads of the given sizes. */
  method ReadThrough(stream: BufferedStream, sizes: seq<nat>) returns (seen: seq<Byte>)
    requires stream.Valid() && stream.seen == []
    modifies stream, stream.inner
    ensures stream.Valid() && seen == stream.seen <= stream.source
    ensures Positive(sizes) && |sizes| >= |stream.source| && Serves(old(stream.inner.schedule), |old(stream.inner.input)|) ==>
              seen == stream.source
  {
    seen := [];
    ghost var served := Positive(sizes) && Serves(stream.inner.schedule, |stream.inner.input|);
    for k := 0 to |sizes|
      invariant stream.Valid() && seen == stream.seen
      invariant served ==> Serves(stream.inner.schedule, |stream.inner.input|)
      invariant served ==> |seen| >= k || seen == stream.source
    {
      var bytes := ReadOnce(stream, sizes[k]);
      seen := seen + bytes;
    }
  }

  /**
    `accept_reality` up to the TLS handshake. Only a whole record goes to rustls, which then sees a
    prefix of buffer and socket whatever sizes it reads in, and all of it given enough reads; without
    an overrun that is exactly what the client sent. Anything else is left to the fallback.
   */
  method ReplayToTls(sock: Socket, sizes: seq<nat>) returns (outcome: Outcome, buffered: seq<Byte>, seen: seq<Byte>)
    modifies sock
    ensures var got := Receive(old(sock.input), old(sock.schedule));
            && outcome == got.outcome && buffered == got.buffered
            && (outcome != Whole ==> seen == [] && sock.input == got.socket)
            && (outcome == Whole ==> seen <= got.buffered + got.socket)
            && (outcome == Whole && Enough(sizes, got) ==> seen == got.buffered + got.socket)
            && (outcome == Whole && !Overrun(old(sock.input), old(sock.schedule)) ==>
                  seen <= old(sock.input) && (Enough(sizes, got) ==> seen == old(sock.input)))
  {
    ghost var client, s := sock.input, sock.schedule;
    outcome, buffered := AcceptRecord(sock);
    seen := [];
    if outcome == Whole {
      WholeReplay(client, s);
      var stream := new BufferedStream(sock, buffered);
      seen := ReadThrough(stream, sizes);
    }
  }
}
