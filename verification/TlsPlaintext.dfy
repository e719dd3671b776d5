/**
  The decrypted side of a TLS connection, read under an adversarial schedule, and the two
  read-exact loops built on it (crates/anytls/src/lib.rs and crates/anytls/src/session.rs).
 */
module TlsPlaintext {
  import opened Bytes

  /** What the plaintext reader answers: up to `n` bytes (possibly none), `WouldBlock`, or an error. */
  datatype Poll = Deliver(n: nat) | NotReady | PollFailed

  /** What `read_tls` answers when the reader had nothing. */
  datatype Pull = Records | WouldBlock | Eof | PullFailed

  /** One turn of a read loop: the reader's answer, and the socket's in case it is asked. */
  datatype Turn = Turn(poll: Poll, pull: Pull)

  /** `Starved` stands for a loop that is still waiting when the schedule ends. */
  datatype IoError = Blocked | UnexpectedEof | Broken | Starved

  class TlsConn {
    /** Plaintext not yet handed to the program, whether or not its records have arrived. */
    var unread: seq<Byte>
    var schedule: seq<Turn>

    constructor (unread: seq<Byte>, schedule: seq<Turn>)
      ensures this.unread == unread && this.schedule == schedule
    {
      this.unread, this.schedule := unread, schedule;
    }
  }

  predicate Delivers(t: Turn) {
    t.poll.Deliver? && t.poll.n > 0
  }

  /** A turn that ends `tls_read_exact` with an error while there are bytes to read. */
  predicate Fails(t: Turn) {
    t.poll.PollFailed? || (!Delivers(t) && (t.pull.Eof? || t.pull.PullFailed?))
  }

  function Deliveries(s: seq<Turn>): nat {
    if s == [] then 0 else (if Delivers(s[0]) then 1 else 0) + Deliveries(s[1..])
  }

  ghost predicate NoFailure(s: seq<Turn>) {
    forall i :: 0 <= i < |s| ==> !Fails(s[i])
  }

  /** A schedule that never fails and delivers often enough to read `n` bytes of `unread`. */
  ghost predicate Serves(s: seq<Turn>, unread: seq<Byte>, n: nat) {
    NoFailure(s) && Deliveries(s) >= n && |unread| >= n
  }

  /** What one turn did: the reader delivered, the socket was asked as it had nothing, or it failed. */
  datatype Outcome = Took(m: nat) | Asked(pull: Pull) | ReaderFailed

  function OutcomeOf(t: Turn, available: nat, want: nat): Outcome {
    if t.poll.PollFailed? then ReaderFailed
    else if Delivers(t) && available > 0 then Took(Min(t.poll.n, Min(available, want)))
    else Asked(t.pull)
  }

  /** One turn of a read loop that has already filled `buf[..pos]`. */
  method TakeTurn(conn: TlsConn, buf: array<Byte>, pos: nat) returns (o: Outcome)
    requires pos < buf.Length && conn.schedule != []
    modifies conn, buf
    ensures o == OutcomeOf(old(conn.schedule)[0], |old(conn.unread)|, buf.Length - pos)
    ensures conn.schedule == old(conn.schedule)[1..]
    ensures conn.unread == old(conn.unread)[if o.Took? then o.m else 0..]
    ensures var filled := pos + if o.Took? then o.m else 0;
            buf[..filled] + conn.unread == old(buf[..pos] + conn.unread) && buf[filled..] == old(buf[..])[filled..]
  {
    var turn := conn.schedule[0];
    conn.schedule := conn.schedule[1..];
    o := OutcomeOf(turn, |conn.unread|, buf.Length - pos);
    if o.Took? {
      ghost var front, all := buf[..pos], conn.unread;
      var bytes := conn.unread[..o.m];
      forall i | 0 <= i < o.m {
        buf[pos + i] := bytes[i];
      }
      conn.unread := conn.unread[o.m..];
      Gather(buf[..pos + o.m], front, all, o.m);
    }
  }

  lemma {:induction false} Gather(now: seq<Byte>, front: seq<Byte>, all: seq<Byte>, m: nat)
    requires m <= |all| && |now| == |front| + m && now[..|front|] == front && now[|front|..] == all[..m]
    ensures now + all[m..] == front + all
  {
    assert now == front + all[..m];
    assert all == all[..m] + all[m..];
  }

  /**
    `tls_read_exact`. Whatever the schedule, it has moved some prefix of the stream into the
    front of `buf`, left the rest of `buf` alone and lost nothing; success means the buffer is full.
   */
  method TlsReadExact(conn: TlsConn, buf: array<Byte>) returns (r: Result<(), IoError>, ghost got: nat)
    modifies conn, buf
    ensures got <= buf.Length && old(conn.unread) == buf[..got] + conn.unread && buf[got..] == old(buf[..])[got..]
    ensures r.Ok? <==> got == buf.Length
    ensures |conn.schedule| <= |old(conn.schedule)|
    ensures conn.schedule == old(conn.schedule)[|old(conn.schedule)| - |conn.schedule|..]
    ensures NoFailure(old(conn.schedule)) && |old(conn.unread)| >= buf.Length && r.Err? ==> r.error == Starved
    ensures Serves(old(conn.schedule), old(conn.unread), buf.Length) ==>
              r.Ok? && Deliveries(conn.schedule) >= Deliveries(old(conn.schedule)) - buf.Length
  {
    var pos: nat := 0;
    ghost var taken: nat := 0;
    while pos < buf.Length
      invariant pos <= buf.Length && old(conn.unread) == buf[..pos] + conn.unread && buf[pos..] == old(buf[..])[pos..]
      invariant taken <= |old(conn.schedule)| && conn.schedule == old(conn.schedule)[taken..]
      invariant |old(conn.unread)| >= buf.Length ==>
                  Deliveries(old(conn.schedule)) <= Deliveries(conn.schedule) + pos
      decreases |conn.schedule|
    {
      if conn.schedule == [] {
        return Err(Starved), pos;
      }
      var o := TakeTurn(conn, buf, pos);
      NextTurn(old(conn.schedule), taken);
      taken := taken + 1;
      match o {
      case Took(m) =>
        pos := pos + m;
      case Asked(Records) =>
      case Asked(WouldBlock) =>
      case Asked(Eof) =>
        return Err(UnexpectedEof), pos;
      case Asked(PullFailed) =>
        return Err(Broken), pos;
      case ReaderFailed =>
        return Err(Broken), pos;
      }
    }
    return Ok(()), pos;
  }

  lemma {:induction false} NextTurn(s: seq<Turn>, k: nat)
    requires k < |s|
    ensures s[k..][0] == s[k] && s[k..][1..] == s[k + 1..]
    ensures Deliveries(s[k..]) == (if Delivers(s[k]) then 1 else 0) + Deliveries(s[k + 1..])
  {
  }

  /** How a `try_read_exact` ends: its result, the bytes it took, and what it leaves behind. */
  datatype Attempt = Attempt(result: Result<(), IoError>, got: nat, unread: seq<Byte>, schedule: seq<Turn>)

  function TryRead(unread: seq<Byte>, s: seq<Turn>, want: nat): Attempt
    decreases |s|
  {
    if want == 0 then Attempt(Ok(()), 0, unread, s)
    else if s == [] then Attempt(Err(Starved), 0, unread, s)
    else
      match OutcomeOf(s[0], |unread|, want)
      case Took(m) =>
        var rest := TryRead(unread[m..], s[1..], want - m);
        rest.(got := m + rest.got)
      case Asked(Records) => TryRead(unread, s[1..], want)
      case Asked(WouldBlock) => Attempt(Err(Blocked), 0, unread, s[1..])
      case Asked(Eof) => Attempt(Err(UnexpectedEof), 0, unread, s[1..])
      case Asked(PullFailed) => Attempt(Err(Broken), 0, unread, s[1..])
      case ReaderFailed => Attempt(Err(Broken), 0, unread, s[1..])
  }

  /** An attempt takes a prefix of the stream, and all that was asked for exactly when it succeeds. */
  lemma {:induction false} TryReadTakesPrefix(unread: seq<Byte>, s: seq<Turn>, want: nat)
    ensures var a := TryRead(unread, s, want);
            && a.got <= want && a.got <= |unread| && a.unread == unread[a.got..]
            && (a.result.Ok? <==> a.got == want)
            && |a.schedule| <= |s| && (a.result == Err(Blocked) ==> |a.schedule| < |s|)
    decreases |s|
  {
    if want > 0 && s != [] {
      match OutcomeOf(s[0], |unread|, want)
      case Took(m) => TryReadTakesPrefix(unread[m..], s[1..], want - m);
      case Asked(Records) => TryReadTakesPrefix(unread, s[1..], want);
      case _ =>
    }
  }

  /** The schedule reports `WouldBlock` before it delivers or fails. */
  predicate BlocksFirst(s: seq<Turn>) {
    s != [] && !s[0].poll.PollFailed? && !Delivers(s[0])
    && (s[0].pull.WouldBlock? || (s[0].pull.Records? && BlocksFirst(s[1..])))
  }

  /**
    A `WouldBlock` loses nothing exactly when it comes before any delivery: the attempt then
    leaves the stream where it was, and otherwise the bytes already taken are gone.
   */
  lemma {:induction false} BlockedLosesNothing(unread: seq<Byte>, s: seq<Turn>, want: nat)
    requires unread != [] && TryRead(unread, s, want).result == Err(Blocked)
    ensures TryRead(unread, s, want).unread == unread <==> BlocksFirst(s)
    decreases |s|
  {
    match OutcomeOf(s[0], |unread|, want)
    case Took(m) => TookLoses(unread, s, want, m);
    case Asked(Records) => BlockedLosesNothing(unread, s[1..], want);
    case _ =>
  }

  lemma {:induction false} TookLoses(unread: seq<Byte>, s: seq<Turn>, want: nat, m: nat)
    requires want > 0 && s != [] && OutcomeOf(s[0], |unread|, want) == Took(m)
    ensures |TryRead(unread, s, want).unread| < |unread|
  {
    TryReadTakesPrefix(unread[m..], s[1..], want - m);
  }

  /** Three bytes of a seven-byte header arrive, then nothing is ready: the three bytes are dropped. */
  lemma PartialHeaderLost(hdr: seq<Byte>)
    requires |hdr| == 7
    ensures var s := [Turn(Deliver(3), WouldBlock), Turn(NotReady, WouldBlock), Turn(Deliver(7), WouldBlock)];
            TryRead(hdr, s, 7) == Attempt(Err(Blocked), 3, hdr[3..], s[2..])
  {
    var s := [Turn(Deliver(3), WouldBlock), Turn(NotReady, WouldBlock), Turn(Deliver(7), WouldBlock)];
    assert s[1..] == [s[1], s[2]];
    assert TryRead(hdr[3..], s[1..], 4) == Attempt(Err(Blocked), 0, hdr[3..], s[1..][1..]);
  }

  method TryReadExact(conn: TlsConn, buf: array<Byte>) returns (r: Result<(), IoError>, ghost got: nat)
    modifies conn, buf
    ensures Attempt(r, got, conn.unread, conn.schedule) ==
            TryRead(old(conn.unread), old(conn.schedule), buf.Length)
    ensures got <= buf.Length && old(conn.unread) == buf[..got] + conn.unread
  {
    var pos: nat := 0;
    ghost var whole := TryRead(conn.unread, conn.schedule, buf.Length);
    ghost var rest := whole;
    while pos < buf.Length
      invariant pos <= buf.Length && old(conn.unread) == buf[..pos] + conn.unread
      invariant rest == TryRead(conn.unread, conn.schedule, buf.Length - pos)
      invariant whole == Attempt(rest.result, pos + rest.got, rest.unread, rest.schedule)
      decreases |conn.schedule|
    {
      if conn.schedule == [] {
        return Err(Starved), pos;
      }
      var o := TakeTurn(conn, buf, pos);
      match o {
      case Took(m) =>
        pos := pos + m;
        ghost var next := TryRead(conn.unread, conn.schedule, buf.Length - pos);
        assert rest == next.(got := m + next.got);
        rest := next;
      case Asked(Records) =>
      case Asked(WouldBlock) =>
        return Err(Blocked), pos;
      case Asked(Eof) =>
        return Err(UnexpectedEof), pos;
      case Asked(PullFailed) =>
        return Err(Broken), pos;
      case ReaderFailed =>
        return Err(Broken), pos;
      }
    }
    return Ok(()), pos;
  }
}
