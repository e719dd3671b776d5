/**
  The outgoing side of the sing-anytls session (crates/anytls/src/session.rs): relay threads
  split their data into PSH jobs on one shared channel while the reader loop drains the channel
  onto the wire and writes heartbeat answers of its own. Every SYN starts a relay, so a stream id
  that is opened again while it is live has two of them writing side by side.
 */
module MuxWriters {
  import opened Bytes
  import opened Frames

  /** What a relay sends on its stream: a byte, or the end of the stream. */
  type Item = Option<Byte>

  /** A relay thread: the jobs its current `send_psh` has still to queue, and all it has asked to send. */
  datatype Relay = Relay(sid: Sid, pending: seq<Frame>, log: seq<Item>)

  /** A frame and the relay it comes from; the reader loop's own frames come from none. */
  datatype Job = Job(from: Option<nat>, frame: Frame)

  /** `written` lists the jobs written so far; `wire` is their encoding. */
  datatype Out = Out(relays: seq<Relay>, queue: seq<Job>, written: seq<Job>, wire: seq<Byte>)

  datatype Step =
    | Spawn(sid: Sid)                    // the reader loop starts a relay for a SYN
    | Send(i: nat, data: seq<Byte>)      // relay i enters `send_psh`
    | Queue(i: nat)                      // it puts its next job on the channel
    | Finish(i: nat)                     // relay i calls `send_fin`
    | Reply(i: nat, msg: seq<Byte>)      // relay i calls `send_synack` or `send_synack_error`
    | Drain                              // the reader loop writes the oldest job
    | Heartbeat(sid: Sid)                // the reader loop answers a heartbeat

  function Init(): Out {
    Out([], [], [], [])
  }

  function Put(o: Out, j: Job): Out {
    o.(written := o.written + [j], wire := o.wire + Encode(j.frame))
  }

  /** A relay is one thread: it starts a new call only when the previous one has queued all its jobs. */
  function RelayStep(o: Out, i: nat, s: Step): Out
    requires i < |o.relays|
  {
    var w := o.relays[i];
    match s
    case Send(_, data) =>
      if w.pending == [] then
        o.(relays := o.relays[i := Relay(w.sid, PshJobs(w.sid, data), w.log + DataItems(data))])
      else o
    case Queue(_) =>
      if w.pending != [] then
        o.(relays := o.relays[i := w.(pending := w.pending[1..])], queue := o.queue + [Job(Some(i), w.pending[0])])
      else o
    case Finish(_) =>
      if w.pending == [] then
        o.(relays := o.relays[i := w.(log := w.log + [None])],
           queue := o.queue + [Job(Some(i), Frame(CMD_FIN, w.sid, []))])
      else o
    case Reply(_, msg) =>
      if w.pending == [] then o.(queue := o.queue + [Job(Some(i), Frame(CMD_SYNACK, w.sid, msg))]) else o
    case _ => o
  }

  function Next(o: Out, s: Step): Out {
    match s
    case Spawn(sid) => o.(relays := o.relays + [Relay(sid, [], [])])
    case Drain => if o.queue != [] then Put(o.(queue := o.queue[1..]), o.queue[0]) else o
    case Heartbeat(sid) => Put(o, Job(None, Frame(CMD_HEART_RESP, sid, [])))
    case _ => if s.i < |o.relays| then RelayStep(o, s.i, s) else o
  }

  function Run(t: seq<Step>): Out {
    if t == [] then Init() else Next(Run(t[..|t| - 1]), t[|t| - 1])
  }

  // ---- what frames carry ----

  function DataItems(data: seq<Byte>): seq<Item> {
    seq(|data|, i requires 0 <= i < |data| => Some(data[i]))
  }

  function FrameItems(f: Frame): seq<Item> {
    if f.cmd == CMD_PSH then DataItems(f.data)
    else if f.cmd == CMD_FIN then [None]
    else []
  }

  /** What a receiver reading only stream `sid` gets out of a list of frames. */
  function Items(fs: seq<Frame>, sid: Sid): seq<Item> {
    if fs == [] then [] else (if fs[0].sid == sid then FrameItems(fs[0]) else []) + Items(fs[1..], sid)
  }

  /** What the jobs of relay `i` among these carry. */
  function ItemsOf(jobs: seq<Job>, i: nat): seq<Item> {
    if jobs == [] then [] else (if jobs[0].from == Some(i) then FrameItems(jobs[0].frame) else []) + ItemsOf(jobs[1..], i)
  }

  function FramesOf(jobs: seq<Job>): seq<Frame> {
    if jobs == [] then [] else [jobs[0].frame] + FramesOf(jobs[1..])
  }

  lemma {:induction false} ItemsOfAppend(a: seq<Job>, j: Job, i: nat)
    ensures ItemsOf(a + [j], i) == ItemsOf(a, i) + if j.from == Some(i) then FrameItems(j.frame) else []
  {
    if a == [] {
      assert a + [j] == [j] && [j][1..] == [];
    } else {
      assert (a + [j])[1..] == a[1..] + [j];
      ItemsOfAppend(a[1..], j, i);
      Assoc(if a[0].from == Some(i) then FrameItems(a[0].frame) else [], ItemsOf(a[1..], i),
            if j.from == Some(i) then FrameItems(j.frame) else []);
    }
  }

  lemma {:induction false} FramesOfAppend(a: seq<Job>, j: Job)
    ensures FramesOf(a + [j]) == FramesOf(a) + [j.frame]
  {
    if a == [] {
      assert a + [j] == [j] && [j][1..] == [];
    } else {
      assert (a + [j])[1..] == a[1..] + [j];
      FramesOfAppend(a[1..], j);
    }
  }

  lemma {:induction false} DataItemsAppend(a: seq<Byte>, b: seq<Byte>)
    ensures DataItems(a + b) == DataItems(a) + DataItems(b)
  {
  }

  /** Chunking neither loses nor reorders a byte, and touches no other stream. */
  lemma {:induction false} PshFramesCarry(from: Sid, data: seq<Byte>, sid: Sid)
    ensures Items(PshFrames(from, data), sid) == if from == sid then DataItems(data) else []
    decreases |data|
  {
    if data != [] {
      var n := if |data| < MAX_DATA then |data| else MAX_DATA;
      var f := Frame(CMD_PSH, from, data[..n]);
      PshFramesCarry(from, data[n..], sid);
      DataItemsAppend(data[..n], data[n..]);
      assert data == data[..n] + data[n..];
      assert PshFrames(from, data)[1..] == PshFrames(from, data[n..]);
    }
  }

  lemma {:induction false} PshJobsCarry(from: Sid, data: seq<Byte>, sid: Sid)
    ensures Items(PshJobs(from, data), sid) == if from == sid then DataItems(data) else []
  {
    PshFramesCarry(from, data, sid);
    var f := Frame(CMD_PSH, from, data);
    assert [f][1..] == [];
  }

  // ---- the wire ----

  /** `write_frame` cuts over-long data; only error replies can be that long. */
  function Cut(f: Frame): Frame {
    f.(data := if |f.data| < MAX_DATA then f.data else f.data[..MAX_DATA])
  }

  function CutAll(fs: seq<Frame>): seq<Frame> {
    seq(|fs|, i requires 0 <= i < |fs| => Cut(fs[i]))
  }

  lemma {:induction false} CutSameWire(fs: seq<Frame>)
    ensures EncodeAll(CutAll(fs)) == EncodeAll(fs)
  {
    if fs != [] {
      CutSameWire(fs[1..]);
      assert CutAll(fs)[1..] == CutAll(fs[1..]);
      var f := fs[0];
      var n := if |f.data| < MAX_DATA then |f.data| else MAX_DATA;
      assert Cut(f).data[..n] == f.data[..n];
    }
  }

  lemma {:induction false} CutDecodes(fs: seq<Frame>)
    ensures Decode(EncodeAll(fs)) == (CutAll(fs), [])
  {
    CutSameWire(fs);
    DecodeInvertsEncode(CutAll(fs), []);
    assert EncodeAll(CutAll(fs)) + [] == EncodeAll(CutAll(fs));
  }

  // ---- the invariant ----

  /** Every job of a relay is for its stream, and no PSH job is too long for a frame. */
  ghost predicate Proper(relays: seq<Relay>, j: Job) {
    && (j.from.Some? ==> j.from.value < |relays| && j.frame.sid == relays[j.from.value].sid)
    && (j.from.None? ==> FrameItems(j.frame) == [])
    && (j.frame.cmd == CMD_PSH ==> |j.frame.data| <= MAX_DATA)
  }

  ghost predicate AllProper(relays: seq<Relay>, jobs: seq<Job>) {
    forall k :: 0 <= k < |jobs| ==> Proper(relays, jobs[k])
  }

  ghost predicate OwnJobs(w: Relay) {
    forall k :: 0 <= k < |w.pending| ==>
      w.pending[k].sid == w.sid && (w.pending[k].cmd == CMD_PSH ==> |w.pending[k].data| <= MAX_DATA)
  }

  ghost predicate Fitting(o: Out) {
    && AllProper(o.relays, o.written) && AllProper(o.relays, o.queue)
    && (forall i :: 0 <= i < |o.relays| ==> OwnJobs(o.relays[i]))
    && o.wire == EncodeAll(FramesOf(o.written))
  }

  /** What relay `i` has on the wire, in the channel and in its hands is what it asked to send. */
  ghost predicate Accounted(o: Out, i: nat)
    requires i < |o.relays|
  {
    var w := o.relays[i];
    ItemsOf(o.written, i) + ItemsOf(o.queue, i) + Items(w.pending, w.sid) == w.log
  }

  lemma {:induction false} ProperGrows(a: seq<Relay>, b: seq<Relay>, jobs: seq<Job>)
    requires |a| <= |b| && forall i :: 0 <= i < |a| ==> b[i].sid == a[i].sid
    requires AllProper(a, jobs)
    ensures AllProper(b, jobs)
  {
  }

  lemma {:induction false} PutKeepsWire(o: Out, j: Job)
    requires o.wire == EncodeAll(FramesOf(o.written))
    ensures Put(o, j).wire == EncodeAll(FramesOf(Put(o, j).written))
  {
    FramesOfAppend(o.written, j);
    EncodeAllAppend(FramesOf(o.written), [j.frame]);
    EncodeAllOne(j.frame);
  }

  lemma {:induction false} FittingRelay(o: Out, i: nat, s: Step)
    requires Fitting(o) && i < |o.relays|
    ensures Fitting(RelayStep(o, i, s))
  {
    var t := RelayStep(o, i, s);
    ProperGrows(o.relays, t.relays, o.written);
    ProperGrows(o.relays, t.relays, o.queue);
  }

  lemma {:induction false} FittingSpawn(o: Out, sid: Sid)
    requires Fitting(o)
    ensures Fitting(Next(o, Spawn(sid)))
  {
    var relays := o.relays + [Relay(sid, [], [])];
    ProperGrows(o.relays, relays, o.written);
    ProperGrows(o.relays, relays, o.queue);
  }

  lemma {:induction false} FittingStep(o: Out, s: Step)
    requires Fitting(o)
    ensures Fitting(Next(o, s))
  {
    match s
    case Spawn(sid) =>
      FittingSpawn(o, sid);
    case Drain =>
      if o.queue != [] {
        PutKeepsWire(o.(queue := o.queue[1..]), o.queue[0]);
      }
    case Heartbeat(sid) =>
      PutKeepsWire(o, Job(None, Frame(CMD_HEART_RESP, sid, [])));
    case _ =>
      if s.i < |o.relays| {
        FittingRelay(o, s.i, s);
      }
  }

  lemma {:induction false} Rotate(a: seq<Item>, b: seq<Item>, c: seq<Item>, d: seq<Item>)
    ensures a + b + (c + d) == a + (b + c) + d
  {
  }

  lemma {:induction false} AccountedQueue(o: Out, from: nat, i: nat)
    requires Fitting(o) && from < |o.relays| && i < |o.relays| && Accounted(o, i)
    ensures Accounted(RelayStep(o, from, Queue(from)), i)
  {
    var w := o.relays[from];
    if w.pending != [] {
      var f, rest := w.pending[0], w.pending[1..];
      ItemsOfAppend(o.queue, Job(Some(from), f), i);
      if from == i {
        Rotate(ItemsOf(o.written, i), ItemsOf(o.queue, i), FrameItems(f), Items(rest, w.sid));
      } else {
        assert ItemsOf(o.queue, i) + [] == ItemsOf(o.queue, i);
      }
    }
  }

  lemma {:induction false} AccountedSend(o: Out, from: nat, data: seq<Byte>, i: nat)
    requires from < |o.relays| && i < |o.relays| && Accounted(o, i)
    ensures Accounted(RelayStep(o, from, Send(from, data)), i)
  {
    PshJobsCarry(o.relays[from].sid, data, o.relays[from].sid);
  }

  lemma {:induction false} AccountedFinish(o: Out, from: nat, i: nat)
    requires from < |o.relays| && i < |o.relays| && Accounted(o, i)
    ensures Accounted(RelayStep(o, from, Finish(from)), i)
  {
    if o.relays[from].pending == [] {
      ItemsOfAppend(o.queue, Job(Some(from), Frame(CMD_FIN, o.relays[from].sid, [])), i);
      if from == i {
        FinishAdds(ItemsOf(o.written, i), ItemsOf(o.queue, i));
      } else {
        assert ItemsOf(o.queue, i) + [] == ItemsOf(o.queue, i);
      }
    }
  }

  lemma {:induction false} FinishAdds(written: seq<Item>, queue: seq<Item>)
    ensures written + (queue + [None]) + [] == written + queue + [] + [None]
  {
  }

  lemma {:induction false} AccountedReply(o: Out, from: nat, msg: seq<Byte>, i: nat)
    requires from < |o.relays| && i < |o.relays| && Accounted(o, i)
    ensures Accounted(RelayStep(o, from, Reply(from, msg)), i)
  {
    ItemsOfAppend(o.queue, Job(Some(from), Frame(CMD_SYNACK, o.relays[from].sid, msg)), i);
    assert ItemsOf(o.queue, i) + [] == ItemsOf(o.queue, i);
  }

  lemma {:induction false} AccountedWire(o: Out, s: Step, i: nat)
    requires i < |o.relays| && Accounted(o, i) && (s.Drain? || s.Heartbeat?)
    ensures Accounted(Next(o, s), i)
  {
    if s.Drain? {
      if o.queue != [] {
        var j := o.queue[0];
        ItemsOfAppend(o.written, j, i);
        Assoc(ItemsOf(o.written, i), if j.from == Some(i) then FrameItems(j.frame) else [], ItemsOf(o.queue[1..], i));
      }
    } else {
      ItemsOfAppend(o.written, Job(None, Frame(CMD_HEART_RESP, s.sid, [])), i);
      assert ItemsOf(o.written, i) + [] == ItemsOf(o.written, i);
    }
  }

  lemma {:induction false} AccountedRelay(o: Out, s: Step, i: nat)
    requires Fitting(o) && i < |o.relays| && Accounted(o, i)
    requires (s.Send? || s.Queue? || s.Finish? || s.Reply?) && s.i < |o.relays|
    ensures i < |RelayStep(o, s.i, s).relays| && Accounted(RelayStep(o, s.i, s), i)
  {
    match s
    case Send(from, data) => AccountedSend(o, from, data, i);
    case Queue(from) => AccountedQueue(o, from, i);
    case Finish(from) => AccountedFinish(o, from, i);
    case Reply(from, msg) => AccountedReply(o, from, msg, i);
  }

  lemma {:induction false} AccountedStep(o: Out, s: Step, i: nat)
    requires Fitting(o) && i < |o.relays| && Accounted(o, i)
    ensures i < |Next(o, s).relays| && Accounted(Next(o, s), i)
  {
    match s
    case Spawn(_) =>
    case Drain => AccountedWire(o, s, i);
    case Heartbeat(_) => AccountedWire(o, s, i);
    case _ =>
      if s.i < |o.relays| {
        AccountedRelay(o, s, i);
      }
  }

  /** Nothing can come from a relay that has not been started. */
  lemma {:induction false} NoJobs(relays: seq<Relay>, jobs: seq<Job>, i: nat)
    requires AllProper(relays, jobs) && i >= |relays|
    ensures ItemsOf(jobs, i) == []
  {
    if jobs != [] {
      assert Proper(relays, jobs[0]);
      NoJobs(relays, jobs[1..], i);
    }
  }

  lemma {:induction false} NewRelayAccounted(o: Out, sid: Sid)
    requires Fitting(o)
    ensures Accounted(Next(o, Spawn(sid)), |o.relays|)
  {
    NoJobs(o.relays, o.written, |o.relays|);
    NoJobs(o.relays, o.queue, |o.relays|);
  }

  lemma {:induction false} RunFits(t: seq<Step>)
    ensures Fitting(Run(t))
  {
    if t != [] {
      RunFits(t[..|t| - 1]);
      FittingStep(Run(t[..|t| - 1]), t[|t| - 1]);
    }
  }

  lemma {:induction false} RunAccounted(t: seq<Step>, i: nat)
    requires i < |Run(t).relays|
    ensures Accounted(Run(t), i)
  {
    if t != [] {
      var before := t[..|t| - 1];
      RunFits(before);
      if i < |Run(before).relays| {
        RunAccounted(before, i);
        AccountedStep(Run(before), t[|t| - 1], i);
      } else {
        NewRelayAccounted(Run(before), t[|t| - 1].sid);
      }
    }
  }

  // ---- main results ----

  /**
    For every interleaving of relays and drains the wire decodes completely, to the jobs written, all
    of them for the stream of their relay, and for each relay what it has on the wire, in the channel
    and in its hands is exactly what it asked to send, bytes and end-of-stream in the order sent.
   */
  lemma {:induction false} WireCarriesEachRelay(t: seq<Step>, i: nat)
    requires i < |Run(t).relays|
    ensures var o := Run(t);
            && Decode(o.wire) == (CutAll(FramesOf(o.written)), [])
            && AllProper(o.relays, o.written) && AllProper(o.relays, o.queue)
            && ItemsOf(o.written, i) + ItemsOf(o.queue, i) + Items(o.relays[i].pending, o.relays[i].sid) == o.relays[i].log
  {
    RunFits(t);
    RunAccounted(t, i);
    CutDecodes(FramesOf(Run(t).written));
  }

  /** Another relay of the same stream. */
  predicate Rival(relays: seq<Relay>, i: nat, j: nat)
    requires i < |relays|
  {
    j < |relays| && j != i && relays[j].sid == relays[i].sid
  }

  lemma {:induction false} CutKeepsItems(relays: seq<Relay>, jobs: seq<Job>, sid: Sid)
    requires AllProper(relays, jobs)
    ensures Items(CutAll(FramesOf(jobs)), sid) == Items(FramesOf(jobs), sid)
  {
    if jobs != [] {
      CutKeepsItems(relays, jobs[1..], sid);
      assert Proper(relays, jobs[0]);
      var f, fs := jobs[0].frame, FramesOf(jobs);
      assert fs[1..] == FramesOf(jobs[1..]) && CutAll(fs)[1..] == CutAll(fs[1..]);
      assert f.cmd == CMD_PSH ==> f.data[..|f.data|] == f.data;
    }
  }

  /** Without a rival's items all that a stream carries comes from the one relay. */
  lemma {:induction false} StreamIsRelay(relays: seq<Relay>, jobs: seq<Job>, i: nat)
    requires i < |relays| && AllProper(relays, jobs)
    requires forall j: nat :: Rival(relays, i, j) ==> ItemsOf(jobs, j) == []
    ensures Items(FramesOf(jobs), relays[i].sid) == ItemsOf(jobs, i)
  {
    if jobs != [] {
      StreamIsRelay(relays, jobs[1..], i);
      assert Proper(relays, jobs[0]);
      assert FramesOf(jobs)[1..] == FramesOf(jobs[1..]);
      var from := jobs[0].from;
      if from.Some? && Rival(relays, i, from.value) {
        assert ItemsOf(jobs, from.value) == FrameItems(jobs[0].frame) + ItemsOf(jobs[1..], from.value);
      }
    }
  }

  /** A stream carries the items of all its relays. */
  lemma {:induction false} StreamHasBoth(relays: seq<Relay>, jobs: seq<Job>, i: nat, j: nat)
    requires i < |relays| && Rival(relays, i, j) && AllProper(relays, jobs)
    ensures |Items(FramesOf(jobs), relays[i].sid)| >= |ItemsOf(jobs, i)| + |ItemsOf(jobs, j)|
  {
    if jobs != [] {
      StreamHasBoth(relays, jobs[1..], i, j);
      assert Proper(relays, jobs[0]);
      assert FramesOf(jobs)[1..] == FramesOf(jobs[1..]);
    }
  }

  /** No other relay of the stream has put anything on the wire or in the channel. */
  ghost predicate Alone(o: Out, i: nat)
    requires i < |o.relays|
  {
    forall j: nat :: Rival(o.relays, i, j) ==> ItemsOf(o.written, j) == [] && ItemsOf(o.queue, j) == []
  }

  /** What the decoded wire carries for the stream of a relay, what is queued for it and what the relay holds. */
  function Carried(o: Out, i: nat): seq<Item>
    requires i < |o.relays|
  {
    var sid := o.relays[i].sid;
    Items(Decode(o.wire).0, sid) + Items(FramesOf(o.queue), sid) + Items(o.relays[i].pending, sid)
  }

  /**
    What the decoded wire carries for a stream, followed by what is queued for it and still in the
    relay's hands, is exactly what the relay sent, if and only if no other relay of that stream has
    put anything on the wire or in the channel; in particular unless the id was opened twice.
   */
  lemma {:induction false} WireCarriesEachStream(t: seq<Step>, i: nat)
    requires i < |Run(t).relays|
    ensures Decode(Run(t).wire).1 == []
    ensures Carried(Run(t), i) == Run(t).relays[i].log <==> Alone(Run(t), i)
  {
    WireCarriesEachRelay(t, i);
    var o := Run(t);
    CutKeepsItems(o.relays, o.written, o.relays[i].sid);
    if Alone(o, i) {
      StreamIsRelay(o.relays, o.written, i);
      StreamIsRelay(o.relays, o.queue, i);
    } else {
      var j: nat :| Rival(o.relays, i, j) && !(ItemsOf(o.written, j) == [] && ItemsOf(o.queue, j) == []);
      StreamHasBoth(o.relays, o.written, i, j);
      StreamHasBoth(o.relays, o.queue, i, j);
    }
  }

  lemma {:induction false} RunNext(t: seq<Step>, s: Step)
    ensures Run(t + [s]) == Next(Run(t), s)
  {
    assert (t + [s])[..|t|] == t;
  }

  /** An id opened twice: a byte of the second relay turns up on the stream of the first, which sent nothing. */
  lemma {:induction false} ReopenedStreamMixes(t: seq<Step>, sid: Sid, b: Byte)
    requires t == [Spawn(sid), Spawn(sid), Send(1, [b]), Queue(1)]
    ensures var o := Run(t);
            |o.relays| == 2 && o.relays[0].log == [] && Carried(o, 0) == [Some(b)]
  {
    RunNext(t[..0], t[0]);
    RunNext(t[..1], t[1]);
    RunNext(t[..2], t[2]);
    RunNext(t[..3], t[3]);
    assert t[..0] + [t[0]] == t[..1] && t[..1] + [t[1]] == t[..2] && t[..2] + [t[2]] == t[..3] && t[..3] + [t[3]] == t;
    var o, f := Run(t), Frame(CMD_PSH, sid, [b]);
    assert o.queue == [Job(Some(1), f)] && o.wire == [] && o.relays[0] == Relay(sid, [], []);
    assert FramesOf(o.queue) == [f] by { assert o.queue[1..] == []; }
    assert Items([f], sid) == [Some(b)] by { assert [f][1..] == [] && DataItems([b]) == [Some(b)]; }
  }

  /** No PSH job ever reaches the 65535-byte cut in `write_frame`. */
  lemma {:induction false} NoPshIsCut(t: seq<Step>, k: nat)
    requires k < |Run(t).queue| && Run(t).queue[k].frame.cmd == CMD_PSH
    ensures Cut(Run(t).queue[k].frame) == Run(t).queue[k].frame
  {
    RunFits(t);
    var j := Run(t).queue[k];
    assert Proper(Run(t).relays, j);
    assert j.frame.data[..|j.frame.data|] == j.frame.data;
  }
}
