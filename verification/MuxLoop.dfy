/**
  `session_reader_loop` of crates/anytls/src/session.rs: the loop that owns the connection,
  reads frames under an adversarial schedule, drains queued write jobs between reads and
  dispatches, while the streams' receivers go on at their own pace. Every run of it is a run of the
  MuxSession machine.
 */
module MuxLoop {
  import opened Bytes
  import opened Frames
  import opened TlsPlaintext
  import opened MuxSession

  /** The frames a run dispatched, in order. */
  function Received(t: seq<Step>): seq<Frame> {
    if t == [] then []
    else
      var s := t[|t| - 1];
      Received(t[..|t| - 1]) + if s.Incoming? then [s.f] else []
  }

  /** What one step writes: a drained job, or the answer to a heartbeat request. */
  function Writes(s: Step): seq<Frame> {
    match s
    case Drained(f) => [f]
    case Incoming(f) => if f.cmd == CMD_HEART_REQ then [Frame(CMD_HEART_RESP, f.sid, [])] else []
    case _ => []
  }

  function Sent(t: seq<Step>): seq<Frame> {
    if t == [] then [] else Sent(t[..|t| - 1]) + Writes(t[|t| - 1])
  }

  /** The steps by which a batch of jobs is drained. */
  function Drains(batch: seq<Frame>): seq<Step> {
    if batch == [] then [] else Drains(batch[..|batch| - 1]) + [Drained(batch[|batch| - 1])]
  }

  lemma {:induction false} DrainsStep(t: seq<Step>, batch: seq<Frame>, k: nat)
    requires k < |batch|
    ensures t + Drains(batch[..k]) + [Drained(batch[k])] == t + Drains(batch[..k + 1])
  {
    assert batch[..k + 1][..k] == batch[..k];
    Assoc(t, Drains(batch[..k]), [Drained(batch[k])]);
  }

  lemma {:induction false} SnocWrites(t: seq<Step>, s: Step)
    ensures Sent(t + [s]) == Sent(t) + Writes(s)
    ensures Received(t + [s]) == Received(t) + if s.Incoming? then [s.f] else []
  {
    assert (t + [s])[..|t|] == t;
  }

  lemma {:induction false} RunSnoc(t: seq<Step>, s: Step)
    ensures Run(t + [s]) == Next(Run(t), s)
  {
    assert (t + [s])[..|t|] == t;
  }

  /** Appending a step to a run extends its state, its log of frames and its output accordingly. */
  lemma {:induction false} Extend(t: seq<Step>, s: Step)
    ensures Run(t + [s]) == Next(Run(t), s)
    ensures Received(t + [s]) == Received(t) + if s.Incoming? then [s.f] else []
    ensures EncodeAll(Sent(t + [s])) == EncodeAll(Sent(t)) + EncodeAll(Writes(s))
  {
    RunSnoc(t, s);
    SnocWrites(t, s);
    EncodeAllAppend(Sent(t), Writes(s));
  }

  /** State, output and log of frames are those of the run. */
  ghost predicate Follows(t: seq<Step>, m: Mux, outbound: seq<Byte>, frames: seq<Frame>) {
    m == Run(t) && outbound == EncodeAll(Sent(t)) && frames == Received(t) && Sendable(frames)
  }

  lemma {:induction false} FollowsStep(t: seq<Step>, s: Step, m: Mux, outbound: seq<Byte>, frames: seq<Frame>)
    requires Follows(t, m, outbound, frames) && (s.Incoming? ==> |s.f.data| <= MAX_DATA)
    ensures Follows(t + [s], Next(m, s), outbound + EncodeAll(Writes(s)), frames + if s.Incoming? then [s.f] else [])
  {
    Extend(t, s);
  }

  /** Steps that neither dispatch nor write leave output and log as they are. */
  lemma {:induction false} FollowsQuietly(t: seq<Step>, s: Step, m: Mux, outbound: seq<Byte>, frames: seq<Frame>)
    requires Follows(t, m, outbound, frames) && (OfReceiver(s) || s.Failed?)
    ensures Follows(t + [s], Next(m, s), outbound, frames)
  {
    FollowsStep(t, s, m, outbound, frames);
    assert outbound + [] == outbound && frames + [] == frames;
  }

  /** A step of some stream's receiver. */
  predicate OfReceiver(s: Step) {
    s.Recv? || s.Take? || s.SeeClosed? || s.DropReceiver?
  }

  /** Appending a dispatched frame to what was consumed. */
  lemma {:induction false} ConsumeFrame(origin: seq<Byte>, frames: seq<Frame>, f: Frame, unread: seq<Byte>)
    requires origin == EncodeAll(frames) + (Encode(f) + unread)
    ensures origin == EncodeAll(frames + [f]) + ([] + unread)
  {
    EncodeAllAppend(frames, [f]);
    EncodeAllOne(f);
    Assoc(EncodeAll(frames), Encode(f), unread);
    assert [] + unread == unread;
  }

  class SessionLoop {
    const conn: TlsConn
    var streams: map<Sid, nat>
    var chans: seq<Chan>
    var stopped: bool
    var outbound: seq<Byte>
    /** The write jobs found in the channel at each successive drain. */
    var mailbox: seq<seq<Frame>>
    /** What the streams' receivers do between one drain and the next. */
    var others: seq<seq<Step>>

    /** The run so far. */
    ghost var trace: seq<Step>
    /** The frames dispatched so far, and the bytes consumed of the one being read. */
    ghost var frames: seq<Frame>
    ghost var partial: seq<Byte>
    /** No `WouldBlock` has interrupted a partly read header or body. */
    ghost var clean: bool
    /** Everything the connection carried when the loop took it over. */
    ghost const origin: seq<Byte>

    ghost function State(): Mux
      reads this
    {
      Mux(streams, chans, stopped)
    }

    /** The state and the output are those of the run. */
    ghost predicate Runs()
      reads this
    {
      Follows(trace, State(), outbound, frames)
    }

    /** The bytes consumed are the frames dispatched and the part of the next one. */
    ghost predicate Aligned()
      reads this, conn
    {
      clean ==> origin == EncodeAll(frames) + (partial + conn.unread)
    }

    constructor (conn: TlsConn, mailbox: seq<seq<Frame>>, others: seq<seq<Step>>)
      ensures Runs() && Aligned() && trace == [] && clean && !stopped
      ensures this.conn == conn && this.mailbox == mailbox && this.others == others
      ensures origin == conn.unread && partial == []
    {
      this.conn, this.mailbox, this.others, this.origin := conn, mailbox, others, conn.unread;
      streams, chans, stopped, outbound := map[], [], false, [];
      trace, frames, partial, clean := [], [], [], true;
    }

    method WriteFrame(cmd: Byte, sid: Sid, data: seq<Byte>)
      modifies this`outbound
      ensures outbound == old(outbound) + Encode(Frame(cmd, sid, data))
    {
      var n := if |data| < MAX_DATA then |data| else MAX_DATA;
      var header := [cmd] + Be32(sid) + Be16(n);
      outbound := outbound + header;
      if n > 0 {
        outbound := outbound + data[..n];
      }
    }

    method Create(sid: Sid)
      modifies this`streams, this`chans
      ensures State() == CreateStream(old(State()), sid)
    {
      if sid in streams && streams[sid] < |chans| {
        chans := chans[streams[sid] := chans[streams[sid]].(open := false)];
      }
      streams := streams[sid := |chans|];
      chans := chans + [Chan(sid, [], true, [], [], false, false)];
    }

    method Deliver(sid: Sid, data: seq<Byte>)
      modifies this`chans
      ensures State() == DeliverData(old(State()), sid, data)
    {
      if sid in streams && streams[sid] < |chans| {
        var c := chans[streams[sid]];
        if !c.dropped {
          chans := chans[streams[sid] := c.(queue := c.queue + [data])];
        }
      }
    }

    method Close(sid: Sid)
      modifies this`streams, this`chans
      ensures State() == CloseStream(old(State()), sid)
    {
      if sid in streams && streams[sid] < |chans| {
        chans := chans[streams[sid] := chans[streams[sid]].(open := false)];
      }
      streams := streams - {sid};
    }

    method Shut()
      modifies this`streams, this`chans, this`stopped
      ensures State() == Stop(old(State()))
    {
      streams, chans, stopped := map[], CloseAll(chans), true;
    }

    method WriteJob(job: Frame)
      requires Runs() && !stopped
      modifies this`streams, this`chans, this`outbound, this`trace
      ensures Runs() && !stopped && trace == old(trace) + [Drained(job)]
    {
      FollowsStep(trace, Drained(job), State(), outbound, frames);
      EncodeAllOne(job);
      assert frames + [] == frames;
      WriteFrame(job.cmd, job.sid, job.data);
      if job.cmd == CMD_FIN {
        Close(job.sid);
      }
      trace := trace + [Drained(job)];
    }

    method WriteBatch(batch: seq<Frame>)
      requires Runs() && !stopped
      modifies this`streams, this`chans, this`outbound, this`trace
      ensures Runs() && !stopped && trace == old(trace) + Drains(batch)
    {
      ghost var start := trace;
      for k := 0 to |batch|
        invariant Runs() && !stopped && trace == start + Drains(batch[..k])
      {
        WriteJob(batch[k]);
        DrainsStep(start, batch, k);
      }
      assert batch[..|batch|] == batch;
    }

    method DrainWriteJobs()
      requires Runs() && !stopped
      modifies this`streams, this`chans, this`outbound, this`mailbox, this`trace
      ensures Runs() && !stopped
      ensures old(mailbox) == [] ==> trace == old(trace) && mailbox == []
      ensures old(mailbox) != [] ==> trace == old(trace) + Drains(old(mailbox)[0]) && mailbox == old(mailbox)[1..]
    {
      if mailbox == [] {
        return;
      }
      var batch := mailbox[0];
      mailbox := mailbox[1..];
      WriteBatch(batch);
    }

    /** What a receiver does to its channel. */
    method UseChannel(s: Step)
      requires OfReceiver(s)
      modifies this`chans
      ensures State() == Next(old(State()), s)
    {
      if s.i < |chans| {
        chans := chans[s.i := ChanStep(chans[s.i], s)];
      }
    }

    /** One step of a stream's receiver. */
    method ReceiverStep(s: Step)
      requires Runs() && !stopped && OfReceiver(s)
      modifies this`chans, this`trace
      ensures Runs() && !stopped && trace == old(trace) + [s]
    {
      FollowsQuietly(trace, s, State(), outbound, frames);
      UseChannel(s);
      trace := trace + [s];
    }

    /** The receivers' steps up to the next drain. */
    method LetReceiversRun()
      requires Runs() && !stopped
      modifies this`chans, this`others, this`trace
      ensures Runs() && !stopped && old(trace) <= trace
    {
      if others == [] {
        return;
      }
      var batch := others[0];
      others := others[1..];
      for k := 0 to |batch|
        invariant Runs() && !stopped && old(trace) <= trace
      {
        if OfReceiver(batch[k]) {
          ReceiverStep(batch[k]);
        }
      }
    }

    /** A drain, with what the receivers did before it. */
    method Drain()
      requires Runs() && !stopped
      modifies this`streams, this`chans, this`outbound, this`mailbox, this`others, this`trace
      ensures Runs() && !stopped && old(trace) <= trace
    {
      LetReceiversRun();
      DrainWriteJobs();
    }

    /** The match on the command byte. */
    method Route(f: Frame) returns (stop: bool)
      requires !stopped
      modifies this`streams, this`chans, this`stopped, this`outbound
      ensures State() == Next(old(State()), Incoming(f))
      ensures outbound == old(outbound) + EncodeAll(Writes(Incoming(f)))
      ensures stop == stopped == (f.cmd == CMD_ALERT)
    {
      stop := false;
      if f.cmd == CMD_SYN {
        Create(f.sid);
      } else if f.cmd == CMD_PSH {
        Deliver(f.sid, f.data);
      } else if f.cmd == CMD_FIN {
        Close(f.sid);
      } else if f.cmd == CMD_ALERT {
        Shut();
        stop := true;
      } else if f.cmd == CMD_HEART_REQ {
        WriteFrame(CMD_HEART_RESP, f.sid, []);
        EncodeAllOne(Frame(CMD_HEART_RESP, f.sid, []));
      }
    }

    /** Dispatches the frame whose bytes have just been consumed. */
    method DispatchFrame(f: Frame) returns (stop: bool)
      requires Runs() && Aligned() && !stopped && |f.data| <= MAX_DATA && partial == Encode(f)
      modifies this`streams, this`chans, this`stopped, this`outbound, this`trace, this`frames, this`partial
      ensures Runs() && Aligned() && trace == old(trace) + [Incoming(f)] && partial == []
      ensures stop == stopped == (f.cmd == CMD_ALERT)
    {
      if clean {
        ConsumeFrame(origin, frames, f, conn.unread);
      }
      FollowsStep(trace, Incoming(f), State(), outbound, frames);
      stop := Route(f);
      trace, frames, partial := trace + [Incoming(f)], frames + [f], [];
    }

    /** Retries `try_read_exact` until the buffer fills, draining write jobs after each `WouldBlock`. */
    method Await(buf: array<Byte>) returns (step: Result<(), IoError>, ghost got: nat)
      requires Runs() && Aligned() && !stopped
      modifies this`streams, this`chans, this`outbound, this`mailbox, this`others, this`trace, this`clean, conn, buf
      ensures Runs() && !stopped && old(trace) <= trace && (clean ==> old(clean))
      ensures got <= buf.Length && (step.Ok? <==> got == buf.Length) && step != Err(Blocked)
      ensures Read(buf[..], got)
      ensures |conn.unread| <= |old(conn.unread)| - (if step.Ok? then buf.Length else 0)
    {
      step, got := Attempt(buf);
      while step == Err(Blocked)
        invariant got <= buf.Length && (step.Ok? <==> got == buf.Length)
        invariant Runs() && !stopped && old(trace) <= trace && (clean ==> old(clean))
        invariant if step == Err(Blocked) then Aligned() else Read(buf[..], got)
        invariant |conn.unread| <= |old(conn.unread)| - (if step.Ok? then buf.Length else 0)
        decreases |conn.schedule|, step == Err(Blocked)
      {
        Drain();
        step, got := Attempt(buf);
      }
    }

    /** Reads exactly `n` more bytes of the current frame; `eaten` is what was consumed either way. */
    method Fill(n: nat) returns (r: Result<seq<Byte>, IoError>, ghost eaten: seq<Byte>)
      requires Runs() && Aligned() && !stopped
      modifies this`streams, this`chans, this`outbound, this`mailbox, this`others, this`trace, this`partial, this`clean, conn
      ensures Runs() && Aligned() && !stopped && old(trace) <= trace && (clean ==> old(clean))
      ensures |conn.unread| <= |old(conn.unread)| - (if r.Ok? then n else 0)
      ensures r != Err(Blocked)
      ensures partial == old(partial) + eaten
      ensures if r.Ok? then r.value == eaten && |eaten| == n else |eaten| < n
    {
      var buf := new Byte[n];
      var step, got := Await(buf);
      eaten := buf[..][..got];
      Assoc(partial, eaten, conn.unread);
      partial := partial + eaten;
      if step.Err? {
        return Err(step.error), eaten;
      }
      return Ok(buf[..]), eaten;
    }

    /** As `Aligned`, with the first `got` bytes of `buf` still to be counted. */
    ghost predicate Read(buf: seq<Byte>, got: nat)
      requires got <= |buf|
      reads this, conn
    {
      clean ==> origin == EncodeAll(frames) + (partial + (buf[..got] + conn.unread))
    }

    /** One `try_read_exact`, noting whether a `WouldBlock` lost bytes. */
    method Attempt(buf: array<Byte>) returns (step: Result<(), IoError>, ghost got: nat)
      requires Aligned()
      modifies this`clean, conn, buf
      ensures got <= buf.Length && (step.Ok? <==> got == buf.Length) && (clean ==> old(clean))
      ensures step == Err(Blocked) ==> Aligned() && |conn.schedule| < |old(conn.schedule)|
      ensures |conn.schedule| <= |old(conn.schedule)|
      ensures step != Err(Blocked) ==> Read(buf[..], got)
      ensures |conn.unread| <= |old(conn.unread)| - (if step.Ok? then buf.Length else 0)
    {
      TryReadTakesPrefix(conn.unread, conn.schedule, buf.Length);
      step, got := TryReadExact(conn, buf);
      assert buf[..][..got] == buf[..got];
      if step == Err(Blocked) && got > 0 {
        clean := false;
      }
      assert step == Err(Blocked) && clean ==> conn.unread == old(conn.unread);
    }

    /** Reads one frame: header, drain, data, drain. */
    method ReadFrame() returns (r: Result<Frame, IoError>)
      requires Runs() && Aligned() && !stopped && partial == []
      modifies this`streams, this`chans, this`outbound, this`mailbox, this`others, this`trace, this`partial, this`clean, conn
      ensures Runs() && Aligned() && !stopped && old(trace) <= trace && (clean ==> old(clean))
      ensures |conn.unread| <= |old(conn.unread)| - (if r.Ok? then 1 else 0)
      ensures if r.Ok? then |r.value.data| <= MAX_DATA && partial == Encode(r.value) else !HasFrame(partial)
    {
      var head, eaten1 := Fill(FRAME_HEADER);
      assert [] + eaten1 == eaten1;
      Drain();
      if head.Err? {
        return Err(head.error);
      }
      var hdr := head.value;
      var body, eaten2 := Fill(U16(hdr[5], hdr[6]));
      AssembleFrame(hdr, eaten2);
      if body.Err? {
        return Err(body.error);
      }
      Drain();
      return Ok(Frame(hdr[0], U32(hdr[1], hdr[2], hdr[3], hdr[4]), body.value));
    }

    /** One turn of the loop. `None` means the loop goes on. */
    method Turn() returns (done: Option<Result<(), IoError>>)
      requires Runs() && Aligned() && !stopped && partial == []
      modifies this`streams, this`chans, this`stopped, this`outbound, this`mailbox, this`others, conn,
               this`trace, this`frames, this`partial, this`clean
      ensures Runs() && Aligned() && old(trace) <= trace && (clean ==> old(clean))
      ensures done.None? ==> !stopped && partial == [] && |conn.unread| < |old(conn.unread)|
      ensures done.Some? ==> !HasFrame(partial) && (stopped || done.value == Err(Starved))
    {
      var next := ReadFrame();
      if next.Err? {
        done := Give(next.error);
      } else {
        done := Handle(next.value);
      }
    }

    /** Ends the loop on an error. */
    method Give(e: IoError) returns (done: Option<Result<(), IoError>>)
      requires Runs() && Aligned() && !stopped
      modifies this`streams, this`chans, this`stopped, this`trace
      ensures Runs() && Aligned() && old(trace) <= trace
      ensures done == Some(Err(e)) && (stopped || e == Starved)
    {
      Fail(e);
      return Some(Err(e));
    }

    /** Dispatches a frame; an alert ends the loop. */
    method Handle(f: Frame) returns (done: Option<Result<(), IoError>>)
      requires Runs() && Aligned() && !stopped && |f.data| <= MAX_DATA && partial == Encode(f)
      modifies this`streams, this`chans, this`stopped, this`outbound, this`trace, this`frames, this`partial
      ensures Runs() && Aligned() && old(trace) <= trace && partial == [] && !HasFrame(partial)
      ensures if stopped then done == Some(Ok(())) else done.None?
    {
      var stop := DispatchFrame(f);
      return if stop then Some(Ok(())) else None;
    }

    method FailNow()
      requires Runs() && !stopped
      modifies this`streams, this`chans, this`stopped, this`trace
      ensures Runs() && stopped && trace == old(trace) + [Failed]
    {
      FollowsQuietly(trace, Failed, State(), outbound, frames);
      Shut();
      trace := trace + [Failed];
    }

    /** An I/O error ends the session; a loop that is merely waiting has not ended. */
    method Fail(e: IoError)
      requires Runs() && !stopped
      modifies this`streams, this`chans, this`stopped, this`trace
      ensures Runs() && old(trace) <= trace && (stopped || e == Starved)
    {
      if e != Starved {
        FailNow();
      }
    }

    /**
      The loop itself. It ends at an alert (`Ok`), at an I/O error, or with `Starved` when it is
      still waiting at the end of the schedule. Its state and output are those of `trace`; and if
      no `WouldBlock` interrupted a partly read header or body, the frames it dispatched are
      exactly the frames encoded in the bytes it consumed.
     */
    method ReaderLoop() returns (r: Result<(), IoError>)
      requires Runs() && Aligned() && !stopped && partial == []
      modifies this, conn
      ensures Runs() && (r == Err(Starved) || stopped)
      ensures clean ==> |conn.unread| <= |origin|
      ensures clean ==> Decode(origin[..|origin| - |conn.unread|]) == (Received(trace), partial)
    {
      while true
        invariant Runs() && Aligned() && !stopped && partial == []
        decreases |conn.unread|
      {
        var done := Turn();
        if done.Some? {
          if clean {
            DecodeInvertsEncode(frames, partial);
            Assoc(EncodeAll(frames), partial, conn.unread);
            assert origin[..|origin| - |conn.unread|] == EncodeAll(frames) + partial;
          }
          return done.value;
        }
      }
    }
  }

  /** A header and as many data bytes as it announces make a frame; fewer do not. */
  lemma {:induction false} AssembleFrame(hdr: seq<Byte>, data: seq<Byte>)
    requires |hdr| == FRAME_HEADER && |data| <= U16(hdr[5], hdr[6])
    ensures if |data| == U16(hdr[5], hdr[6]) then
              hdr + data == Encode(Frame(hdr[0], U32(hdr[1], hdr[2], hdr[3], hdr[4]), data))
            else !HasFrame(hdr + data)
  {
    var w := hdr + data;
    assert w[5] == hdr[5] && w[6] == hdr[6];
    if |data| == U16(hdr[5], hdr[6]) {
      assert w[FRAME_HEADER..FRAME_HEADER + |data|] == data;
      EncodeHeadFrame(w);
    }
  }
}
