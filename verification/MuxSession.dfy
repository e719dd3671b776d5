/**
  The sing-anytls demultiplexer (crates/anytls/src/session.rs, crates/anytls/src/stream.rs) as a
  machine whose steps interleave freely: the reader loop handling an incoming frame or a drained
  write job, and each stream's receiver taking chunks, consuming bytes, noticing the close or
  being dropped.
 */
module MuxSession {
  import opened Bytes
  import opened Frames

  /** One mpsc channel and the `SingStream` at its receiving end. */
  datatype Chan = Chan(
    sid: Sid,
    queue: seq<seq<Byte>>,  // chunks sent and not yet received
    open: bool,             // the sender is still held by the session
    buffer: seq<Byte>,      // buffer[buf_pos..]
    read: seq<Byte>,        // everything handed to the relay so far
    closed: bool,           // the stream has noticed the disconnect
    dropped: bool)          // the relay has dropped the stream

  datatype Mux = Mux(streams: map<Sid, nat>, chans: seq<Chan>, stopped: bool)

  function Init(): Mux {
    Mux(map[], [], false)
  }

  datatype Step =
    | Incoming(f: Frame)      // the reader loop dispatches a frame
    | Drained(f: Frame)       // the reader loop writes a queued job
    | Failed                  // the reader loop returns an error
    | Recv(i: nat)            // stream i receives its next chunk
    | Take(i: nat, n: nat)    // stream i consumes buffered bytes
    | SeeClosed(i: nat)       // stream i notices the disconnect
    | DropReceiver(i: nat)    // stream i is dropped

  // ---- session operations ----

  function Disconnect(m: Mux, sid: Sid): seq<Chan> {
    if sid in m.streams && m.streams[sid] < |m.chans| then
      var k := m.streams[sid];
      m.chans[k := m.chans[k].(open := false)]
    else m.chans
  }

  /** Inserting the new handle drops the sender of an older stream with the same id. */
  function CreateStream(m: Mux, sid: Sid): Mux {
    m.(streams := m.streams[sid := |m.chans|],
       chans := Disconnect(m, sid) + [Chan(sid, [], true, [], [], false, false)])
  }

  function DeliverData(m: Mux, sid: Sid, data: seq<Byte>): Mux {
    if sid in m.streams && m.streams[sid] < |m.chans| && !m.chans[m.streams[sid]].dropped then
      var k := m.streams[sid];
      m.(chans := m.chans[k := m.chans[k].(queue := m.chans[k].queue + [data])])
    else m
  }

  function CloseStream(m: Mux, sid: Sid): Mux {
    m.(streams := m.streams - {sid}, chans := Disconnect(m, sid))
  }

  /** Dropping every sender. */
  function CloseAll(chans: seq<Chan>): seq<Chan> {
    if chans == [] then [] else CloseAll(chans[..|chans| - 1]) + [chans[|chans| - 1].(open := false)]
  }

  /** The loop returns and the session, with all its senders, is dropped. */
  function Stop(m: Mux): Mux {
    Mux(map[], CloseAll(m.chans), true)
  }

  lemma {:induction false} CloseAllAt(chans: seq<Chan>)
    ensures |CloseAll(chans)| == |chans|
    ensures forall i :: 0 <= i < |chans| ==> CloseAll(chans)[i] == chans[i].(open := false)
  {
    if chans != [] {
      CloseAllAt(chans[..|chans| - 1]);
    }
  }

  function Dispatch(m: Mux, f: Frame): Mux {
    if f.cmd == CMD_SYN then CreateStream(m, f.sid)
    else if f.cmd == CMD_PSH then DeliverData(m, f.sid, f.data)
    else if f.cmd == CMD_FIN then CloseStream(m, f.sid)
    else if f.cmd == CMD_ALERT then Stop(m)
    else m
  }

  function ApplyOutgoing(m: Mux, f: Frame): Mux {
    if f.cmd == CMD_FIN then CloseStream(m, f.sid) else m
  }

  // ---- stream operations ----

  function ChanStep(c: Chan, s: Step): Chan {
    if c.dropped then c
    else
      match s
      case Recv(_) =>
        if !c.closed && c.buffer == [] && c.queue != [] then
          c.(buffer := c.queue[0], queue := c.queue[1..])
        else c
      case Take(_, n) =>
        if n <= |c.buffer| then c.(read := c.read + c.buffer[..n], buffer := c.buffer[n..]) else c
      case SeeClosed(_) =>
        if !c.open && c.buffer == [] && c.queue == [] then c.(closed := true) else c
      case DropReceiver(_) => c.(queue := [], buffer := [], dropped := true)
      case _ => c
  }

  /** A step that is not enabled leaves the machine as it is. */
  function Next(m: Mux, s: Step): Mux {
    match s
    case Incoming(f) => if m.stopped then m else Dispatch(m, f)
    case Drained(f) => if m.stopped then m else ApplyOutgoing(m, f)
    case Failed => if m.stopped then m else Stop(m)
    case _ => if s.i < |m.chans| then m.(chans := m.chans[s.i := ChanStep(m.chans[s.i], s)]) else m
  }

  function RunFrom(m: Mux, t: seq<Step>): Mux {
    if t == [] then m else Next(RunFrom(m, t[..|t| - 1]), t[|t| - 1])
  }

  function Run(t: seq<Step>): Mux {
    RunFrom(Init(), t)
  }

  // ---- what a stream ought to receive, read off the run alone ----

  predicate Halts(s: Step) {
    s.Failed? || (s.Incoming? && s.f.cmd == CMD_ALERT)
  }

  /** Steps that end the current stream of `sid`: FIN in either direction, a new SYN, the end of the session. */
  predicate Closes(s: Step, sid: Sid) {
    || Halts(s)
    || (s.Incoming? && s.f.sid == sid && (s.f.cmd == CMD_FIN || s.f.cmd == CMD_SYN))
    || (s.Drained? && s.f.sid == sid && s.f.cmd == CMD_FIN)
  }

  predicate Live(t: seq<Step>, sid: Sid) {
    forall k :: 0 <= k < |t| ==> !Closes(t[k], sid)
  }

  function Payload(s: Step, sid: Sid): seq<Byte> {
    if s.Incoming? && s.f.sid == sid && s.f.cmd == CMD_PSH then s.f.data else []
  }

  /** The PSH payloads for `sid` in `t` up to the first step that closes it. */
  function Delivered(t: seq<Step>, sid: Sid): seq<Byte> {
    if t == [] then []
    else
      var before := t[..|t| - 1];
      Delivered(before, sid) + if Live(before, sid) then Payload(t[|t| - 1], sid) else []
  }

  predicate Halted(t: seq<Step>) {
    exists k :: 0 <= k < |t| && Halts(t[k])
  }

  predicate Opens(s: Step) {
    s.Incoming? && s.f.cmd == CMD_SYN
  }

  /** The positions in the run at which streams were created, in order. */
  function Openings(t: seq<Step>): seq<nat> {
    if t == [] then []
    else
      var before := t[..|t| - 1];
      Openings(before) + if Opens(t[|t| - 1]) && !Halted(before) then [|before|] else []
  }

  // ---- the invariant ----

  function Content(c: Chan): seq<Byte> {
    c.read + c.buffer + Concat(c.queue)
  }

  /** Channel `c` was opened at position `p` and holds exactly what the rest of the run delivered. */
  ghost predicate ChanOk(t: seq<Step>, p: nat, c: Chan) {
    && p < |t| && Opens(t[p]) && t[p].f.sid == c.sid
    && (c.open <==> Live(t[p + 1..], c.sid))
    && (!c.dropped ==> Content(c) == Delivered(t[p + 1..], c.sid))
    && c.read <= Delivered(t[p + 1..], c.sid)
    && (c.closed ==> !c.open && c.buffer == [] && c.queue == [])
  }

  /** The session maps a stream id to the one channel of that id whose sender it holds. */
  ghost predicate MapOk(m: Mux) {
    && (forall sid :: sid in m.streams ==> m.streams[sid] < |m.chans| && m.chans[m.streams[sid]].sid == sid)
    && (forall i :: 0 <= i < |m.chans| ==>
          (m.chans[i].open <==> m.chans[i].sid in m.streams && m.streams[m.chans[i].sid] == i))
    && (m.stopped ==> m.streams == map[])
  }

  ghost predicate Inv(t: seq<Step>, m: Mux) {
    && MapOk(m)
    && (m.stopped <==> Halted(t))
    && |m.chans| == |Openings(t)|
    && forall i :: 0 <= i < |m.chans| ==> ChanOk(t, Openings(t)[i], m.chans[i])
  }

  // ---- one step, seen from one channel ----

  /** How a step may change a channel that existed before it. */
  ghost predicate Evolves(c: Chan, c': Chan, s: Step) {
    && c'.sid == c.sid
    && (c'.open <==> c.open && !Closes(s, c.sid))
    && (!c'.dropped ==> !c.dropped && Content(c') == Content(c) + if c.open then Payload(s, c.sid) else [])
    && (c'.dropped ==> c'.read == c.read)
    && (c'.closed ==> !c'.open && c'.buffer == [] && c'.queue == [])
  }

  lemma {:induction false} SuffixSnoc(t: seq<Step>, s: Step, p: nat)
    requires p < |t|
    ensures (t + [s])[p + 1..] == t[p + 1..] + [s]
    ensures (t + [s])[p] == t[p]
  {
  }

  lemma {:induction false} LiveSnoc(t: seq<Step>, s: Step, sid: Sid)
    ensures Live(t + [s], sid) <==> Live(t, sid) && !Closes(s, sid)
  {
    assert forall k :: 0 <= k < |t| ==> (t + [s])[k] == t[k];
    assert (t + [s])[|t|] == s;
  }

  lemma {:induction false} DeliveredSnoc(t: seq<Step>, s: Step, sid: Sid)
    ensures Delivered(t + [s], sid) == Delivered(t, sid) + if Live(t, sid) then Payload(s, sid) else []
  {
    assert (t + [s])[..|t|] == t;
  }

  lemma {:induction false} ChanOkSnoc(t: seq<Step>, p: nat, c: Chan, c': Chan, s: Step)
    requires ChanOk(t, p, c) && Evolves(c, c', s)
    ensures ChanOk(t + [s], p, c')
  {
    SuffixSnoc(t, s, p);
    LiveSnoc(t[p + 1..], s, c.sid);
    DeliveredSnoc(t[p + 1..], s, c.sid);
    ReadIsPrefix(c');
  }

  lemma {:induction false} ReadIsPrefix(c: Chan)
    ensures c.read <= Content(c)
  {
  }

  lemma {:induction false} QueueSnoc(c: Chan, data: seq<Byte>)
    ensures Content(c.(queue := c.queue + [data])) == Content(c) + data
  {
    ConcatAppend(c.queue, [data]);
    ConcatOne(data);
    Assoc(c.read + c.buffer, Concat(c.queue), data);
  }

  lemma {:induction false} ChanStepKeepsContent(c: Chan, s: Step)
    requires s.Recv? || s.Take? || s.SeeClosed? || s.DropReceiver?
    requires ClosedOk(c)
    ensures Evolves(c, ChanStep(c, s), s)
  {
    if s.Take? && s.n <= |c.buffer| {
      assert c.buffer == c.buffer[..s.n] + c.buffer[s.n..];
      Assoc(c.read, c.buffer[..s.n], c.buffer[s.n..]);
    }
  }

  /** A channel that has noticed the close is over and empty. */
  ghost predicate ClosedOk(c: Chan) {
    c.closed ==> !c.open && c.buffer == [] && c.queue == []
  }

  /** Disconnecting a stream id closes the one open channel of that id. */
  lemma {:induction false} DisconnectEvolves(m: Mux, sid: Sid, i: nat)
    requires MapOk(m) && i < |m.chans|
    ensures |Disconnect(m, sid)| == |m.chans|
    ensures Disconnect(m, sid)[i] == m.chans[i].(open := m.chans[i].open && m.chans[i].sid != sid)
  {
  }

  lemma {:induction false} DeliverEvolves(m: Mux, f: Frame, i: nat)
    requires MapOk(m) && i < |m.chans| && ClosedOk(m.chans[i]) && f.cmd == CMD_PSH
    ensures var t := DeliverData(m, f.sid, f.data);
            |t.chans| == |m.chans| && Evolves(m.chans[i], t.chans[i], Incoming(f))
  {
    if f.sid in m.streams && m.streams[f.sid] == i {
      QueueSnoc(m.chans[i], f.data);
    }
  }

  lemma {:induction false} StopEvolves(m: Mux, s: Step, i: nat)
    requires i < |m.chans| && ClosedOk(m.chans[i]) && Halts(s)
    ensures i < |Stop(m).chans| && Evolves(m.chans[i], Stop(m).chans[i], s)
  {
    CloseAllAt(m.chans);
    assert Content(m.chans[i]) + [] == Content(m.chans[i]);
  }

  lemma {:induction false} IncomingEvolves(m: Mux, f: Frame, i: nat)
    requires MapOk(m) && !m.stopped && i < |m.chans| && ClosedOk(m.chans[i])
    ensures i < |Dispatch(m, f).chans| && Evolves(m.chans[i], Dispatch(m, f).chans[i], Incoming(f))
  {
    if f.cmd == CMD_PSH {
      DeliverEvolves(m, f, i);
    } else if f.cmd == CMD_ALERT {
      StopEvolves(m, Incoming(f), i);
    } else {
      DisconnectEvolves(m, f.sid, i);
    }
  }

  lemma {:induction false} DrainedEvolves(m: Mux, f: Frame, i: nat)
    requires MapOk(m) && i < |m.chans| && ClosedOk(m.chans[i])
    ensures i < |ApplyOutgoing(m, f).chans| && Evolves(m.chans[i], ApplyOutgoing(m, f).chans[i], Drained(f))
  {
    DisconnectEvolves(m, f.sid, i);
  }

  lemma {:induction false} StoppedEvolves(m: Mux, s: Step, i: nat)
    requires MapOk(m) && m.stopped && i < |m.chans| && ClosedOk(m.chans[i]) && (s.Incoming? || s.Drained? || s.Failed?)
    ensures Evolves(m.chans[i], m.chans[i], s)
  {
  }

  /** Every channel that exists before a step evolves across it, whatever the step. */
  lemma {:induction false} ChannelsEvolve(m: Mux, s: Step, i: nat)
    requires MapOk(m) && i < |m.chans| && ClosedOk(m.chans[i])
    ensures i < |Next(m, s).chans| && Evolves(m.chans[i], Next(m, s).chans[i], s)
  {
    if m.stopped && (s.Incoming? || s.Drained? || s.Failed?) {
      StoppedEvolves(m, s, i);
    } else {
      match s
      case Incoming(f) => IncomingEvolves(m, f, i);
      case Drained(f) => DrainedEvolves(m, f, i);
      case Failed => StopEvolves(m, s, i);
      case _ =>
        if s.i == i {
          ChanStepKeepsContent(m.chans[i], s);
        }
    }
  }

  lemma {:induction false} CreateKeepsMap(m: Mux, sid: Sid)
    requires MapOk(m) && !m.stopped
    ensures MapOk(CreateStream(m, sid))
  {
  }

  lemma {:induction false} DeliverKeepsMap(m: Mux, sid: Sid, data: seq<Byte>)
    requires MapOk(m)
    ensures MapOk(DeliverData(m, sid, data))
  {
  }

  lemma {:induction false} CloseKeepsMap(m: Mux, sid: Sid)
    requires MapOk(m) && !m.stopped
    ensures MapOk(CloseStream(m, sid))
  {
  }

  lemma {:induction false} ChanStepKeepsMap(m: Mux, s: Step)
    requires MapOk(m)
    requires s.Recv? || s.Take? || s.SeeClosed? || s.DropReceiver?
    ensures MapOk(Next(m, s))
  {
    if s.i < |m.chans| {
      assert ChanStep(m.chans[s.i], s).open == m.chans[s.i].open;
      assert ChanStep(m.chans[s.i], s).sid == m.chans[s.i].sid;
    }
  }

  lemma {:induction false} StopKeepsMap(m: Mux)
    ensures MapOk(Stop(m))
  {
    CloseAllAt(m.chans);
  }

  lemma {:induction false} IncomingKeepsMap(m: Mux, f: Frame)
    requires MapOk(m) && !m.stopped
    ensures MapOk(Dispatch(m, f))
  {
    if f.cmd == CMD_SYN {
      CreateKeepsMap(m, f.sid);
    } else if f.cmd == CMD_PSH {
      DeliverKeepsMap(m, f.sid, f.data);
    } else if f.cmd == CMD_FIN {
      CloseKeepsMap(m, f.sid);
    } else if f.cmd == CMD_ALERT {
      StopKeepsMap(m);
    }
  }

  lemma {:induction false} MapKept(m: Mux, s: Step)
    requires MapOk(m)
    ensures MapOk(Next(m, s))
  {
    match s
    case Incoming(f) =>
      if !m.stopped {
        IncomingKeepsMap(m, f);
      }
    case Drained(f) =>
      if !m.stopped {
        CloseKeepsMap(m, f.sid);
      }
    case Failed =>
      StopKeepsMap(m);
    case _ =>
      ChanStepKeepsMap(m, s);
  }

  lemma {:induction false} HaltedSnoc(t: seq<Step>, s: Step)
    ensures Halted(t + [s]) <==> Halted(t) || Halts(s)
  {
    assert (t + [s])[|t|] == s;
    assert forall k :: 0 <= k < |t| ==> (t + [s])[k] == t[k];
  }

  lemma {:induction false} NewChanOk(t: seq<Step>, s: Step)
    requires Opens(s)
    ensures ChanOk(t + [s], |t|, Chan(s.f.sid, [], true, [], [], false, false))
  {
    assert (t + [s])[|t| + 1..] == [];
  }

  lemma {:induction false} ShapeStep(m: Mux, s: Step)
    ensures Next(m, s).stopped <==> m.stopped || Halts(s)
    ensures var chans := Next(m, s).chans;
            if Opens(s) && !m.stopped then
              |chans| == |m.chans| + 1 && chans[|m.chans|] == Chan(s.f.sid, [], true, [], [], false, false)
            else |chans| == |m.chans|
  {
    CloseAllAt(m.chans);
  }

  lemma {:induction false} OpeningsSnoc(t: seq<Step>, s: Step)
    ensures Openings(t + [s]) == Openings(t) + if Opens(s) && !Halted(t) then [|t|] else []
  {
    assert (t + [s])[..|t|] == t;
  }

  lemma {:induction false} OldChanStep(t: seq<Step>, m: Mux, s: Step, i: nat, p: nat)
    requires MapOk(m) && i < |m.chans| && ChanOk(t, p, m.chans[i])
    ensures i < |Next(m, s).chans| && ChanOk(t + [s], p, Next(m, s).chans[i])
  {
    ChannelsEvolve(m, s, i);
    ChanOkSnoc(t, p, m.chans[i], Next(m, s).chans[i], s);
  }

  lemma {:induction false} ChansStep(t: seq<Step>, m: Mux, s: Step, i: nat)
    requires Inv(t, m) && i < |Next(m, s).chans|
    ensures i < |Openings(t + [s])| && ChanOk(t + [s], Openings(t + [s])[i], Next(m, s).chans[i])
  {
    ShapeStep(m, s);
    OpeningsSnoc(t, s);
    if i < |m.chans| {
      OldChanStep(t, m, s, i, Openings(t)[i]);
    } else {
      NewChanOk(t, s);
    }
  }

  lemma {:induction false} InvStep(t: seq<Step>, m: Mux, s: Step)
    requires Inv(t, m)
    ensures Inv(t + [s], Next(m, s))
  {
    MapKept(m, s);
    HaltedSnoc(t, s);
    ShapeStep(m, s);
    OpeningsSnoc(t, s);
    forall i | 0 <= i < |Next(m, s).chans|
      ensures ChanOk(t + [s], Openings(t + [s])[i], Next(m, s).chans[i])
    {
      ChansStep(t, m, s, i);
    }
  }

  lemma {:induction false} InvAlways(t: seq<Step>)
    ensures Inv(t, Run(t))
  {
    if t != [] {
      var before := t[..|t| - 1];
      InvAlways(before);
      InvStep(before, Run(before), t[|t| - 1]);
      assert before + [t[|t| - 1]] == t;
    }
  }

  // ---- main results ----

  /**
    In every interleaving, the i-th stream created by the session has read, buffered and queued
    exactly the PSH payloads sent for its id after its SYN and before the first incoming FIN,
    drained FIN, new SYN of that id or end of the session. Its sender is held exactly until then. What a
    dropped stream had read is a prefix of those bytes.
   */
  lemma {:induction false} StreamsGetExactlyTheirBytes(t: seq<Step>, i: nat)
    requires i < |Run(t).chans|
    ensures i < |Openings(t)| && Openings(t)[i] < |t|
    ensures var c, p := Run(t).chans[i], Openings(t)[i];
            && Opens(t[p]) && t[p].f.sid == c.sid
            && (c.open <==> Live(t[p + 1..], c.sid))
            && (!c.dropped ==> c.read + c.buffer + Concat(c.queue) == Delivered(t[p + 1..], c.sid))
            && c.read <= Delivered(t[p + 1..], c.sid)
  {
    InvAlways(t);
  }

  /** A stream reports the close only once it is over and everything delivered has been read. */
  lemma {:induction false} ClosedMeansAllRead(t: seq<Step>, i: nat)
    requires i < |Run(t).chans| && Run(t).chans[i].closed && !Run(t).chans[i].dropped
    ensures i < |Openings(t)| && Openings(t)[i] < |t|
    ensures var c, p := Run(t).chans[i], Openings(t)[i];
            !Live(t[p + 1..], c.sid) && c.read == Delivered(t[p + 1..], c.sid)
  {
    InvAlways(t);
    var c := Run(t).chans[i];
    assert c.read + [] + [] == c.read;
  }

  /** The steps by which stream `i` reads everything it holds. */
  function ReadAll(i: nat, c: Chan): (t: seq<Step>)
    ensures forall k :: 0 <= k < |t| ==> (t[k].Recv? || t[k].Take?) && t[k].i == i
    decreases |c.queue|
  {
    var first := Take(i, |c.buffer|);
    if c.queue == [] then [first]
    else [first, Recv(i)] + ReadAll(i, c.(buffer := c.queue[0], queue := c.queue[1..]))
  }

  lemma {:induction false} RunFromAppend(m: Mux, a: seq<Step>, b: seq<Step>)
    ensures RunFrom(m, a + b) == RunFrom(RunFrom(m, a), b)
    decreases |b|
  {
    if b == [] {
      assert a + b == a;
    } else {
      var b', s := b[..|b| - 1], b[|b| - 1];
      assert (a + b)[..|a + b| - 1] == a + b';
      RunFromAppend(m, a, b');
    }
  }

  lemma {:induction false} RunFromStep(m: Mux, s: Step, t: seq<Step>)
    ensures RunFrom(m, [s] + t) == RunFrom(Next(m, s), t)
  {
    RunFromAppend(m, [s], t);
    assert [s][..0] == [];
  }

  lemma {:induction false} ReadAllReads(m: Mux, i: nat)
    requires i < |m.chans| && !m.chans[i].dropped && !m.chans[i].closed
    ensures var c' := m.chans[i].(read := Content(m.chans[i]), buffer := [], queue := []);
            RunFrom(m, ReadAll(i, m.chans[i])) == m.(chans := m.chans[i := c'])
    decreases |m.chans[i].queue|
  {
    var c := m.chans[i];
    var first := Take(i, |c.buffer|);
    var c1 := c.(read := c.read + c.buffer, buffer := []);
    assert c.buffer[..|c.buffer|] == c.buffer && c.buffer[|c.buffer|..] == [];
    var m1 := Next(m, first);
    assert m1 == m.(chans := m.chans[i := c1]);
    if c.queue == [] {
      RunFromStep(m, first, []);
      assert [first] + [] == [first];
      assert Content(c) == c.read + c.buffer;
    } else {
      var c2 := c1.(buffer := c.queue[0], queue := c.queue[1..]);
      var m2 := Next(m1, Recv(i));
      assert m2 == m.(chans := m.chans[i := c2]);
      var rest := ReadAll(i, c2);
      assert rest == ReadAll(i, c.(buffer := c.queue[0], queue := c.queue[1..])) by {
        ReadAllIgnoresRead(i, c2, c.(buffer := c.queue[0], queue := c.queue[1..]));
      }
      assert ReadAll(i, c) == [first] + ([Recv(i)] + rest);
      RunFromStep(m, first, [Recv(i)] + rest);
      RunFromStep(m1, Recv(i), rest);
      ReadAllReads(m2, i);
      Assoc(c.read + c.buffer, c.queue[0], Concat(c.queue[1..]));
      assert m2.chans[i := c2.(read := Content(c2), buffer := [], queue := [])]
          == m.chans[i := c.(read := Content(c), buffer := [], queue := [])];
    }
  }

  lemma {:induction false} ReadAllIgnoresRead(i: nat, c: Chan, d: Chan)
    requires c.buffer == d.buffer && c.queue == d.queue
    ensures ReadAll(i, c) == ReadAll(i, d)
    decreases |c.queue|
  {
    if c.queue != [] {
      ReadAllIgnoresRead(i, c.(buffer := c.queue[0], queue := c.queue[1..]),
                            d.(buffer := d.queue[0], queue := d.queue[1..]));
    }
  }

  /** Data queued before a close is still readable: from any point a stream can read all it was delivered. */
  lemma {:induction false} QueuedDataStaysReadable(t: seq<Step>, i: nat)
    requires i < |Run(t).chans| && !Run(t).chans[i].dropped && !Run(t).chans[i].closed
    ensures i < |Openings(t)| && Openings(t)[i] < |t|
    ensures var p := Openings(t)[i];
            var after := Run(t + ReadAll(i, Run(t).chans[i]));
            && i < |after.chans|
            && after.chans[i].read == Delivered(t[p + 1..], after.chans[i].sid)
            && after.streams == Run(t).streams
  {
    InvAlways(t);
    AfterReading(t, i);
  }

  lemma {:induction false} AfterReading(t: seq<Step>, i: nat)
    requires i < |Run(t).chans| && !Run(t).chans[i].dropped && !Run(t).chans[i].closed
    ensures var m := Run(t);
            var c' := m.chans[i].(read := Content(m.chans[i]), buffer := [], queue := []);
            Run(t + ReadAll(i, m.chans[i])) == m.(chans := m.chans[i := c'])
  {
    RunFromAppend(Init(), t, ReadAll(i, Run(t).chans[i]));
    ReadAllReads(Run(t), i);
  }
}
