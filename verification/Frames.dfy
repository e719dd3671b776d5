/**
  The sing-anytls frame codec of crates/anytls/src/session.rs:
  cmd(1) | sid(4, big-endian) | length(2, big-endian) | data.
 */
module Frames {
  import opened Bytes

  const CMD_SYN: Byte := 1
  const CMD_PSH: Byte := 2
  const CMD_FIN: Byte := 3
  const CMD_ALERT: Byte := 5
  const CMD_SYNACK: Byte := 7
  const CMD_HEART_REQ: Byte := 8
  const CMD_HEART_RESP: Byte := 9

  const FRAME_HEADER := 7
  const MAX_DATA := 65535

  type Sid = n: nat | n < 4294967296

  /** A frame on the wire, and also a queued `WriteJob`. */
  datatype Frame = Frame(cmd: Byte, sid: Sid, data: seq<Byte>)

  /** The bytes `write_frame` produces; data beyond 65535 bytes is cut off. */
  function Encode(f: Frame): (w: seq<Byte>)
    ensures |w| >= FRAME_HEADER
  {
    var n := if |f.data| < MAX_DATA then |f.data| else MAX_DATA;
    [f.cmd] + Be32(f.sid) + Be16(n) + f.data[..n]
  }

  function EncodeAll(fs: seq<Frame>): seq<Byte> {
    if fs == [] then [] else Encode(fs[0]) + EncodeAll(fs[1..])
  }

  /** Decodes complete frames until fewer bytes than one frame remain. */
  function Decode(w: seq<Byte>): (r: (seq<Frame>, seq<Byte>))
    ensures !HasFrame(r.1)
    decreases |w|
  {
    if HasFrame(w) then
      var n := DataLen(w);
      var rest := Decode(w[FRAME_HEADER + n..]);
      ([HeadFrame(w)] + rest.0, rest.1)
    else ([], w)
  }

  function DataLen(w: seq<Byte>): nat
    requires |w| >= FRAME_HEADER
  {
    U16(w[5], w[6])
  }

  predicate HasFrame(w: seq<Byte>) {
    |w| >= FRAME_HEADER && |w| >= FRAME_HEADER + DataLen(w)
  }

  function HeadFrame(w: seq<Byte>): Frame
    requires HasFrame(w)
  {
    Frame(w[0], U32(w[1], w[2], w[3], w[4]), w[FRAME_HEADER..FRAME_HEADER + DataLen(w)])
  }

  ghost predicate Sendable(fs: seq<Frame>) {
    forall i :: 0 <= i < |fs| ==> |fs[i].data| <= MAX_DATA
  }

  lemma {:induction false} DecodeOne(f: Frame, rest: seq<Byte>)
    requires |f.data| <= MAX_DATA
    ensures var w := Encode(f) + rest;
            HasFrame(w) && HeadFrame(w) == f && w[FRAME_HEADER + DataLen(w)..] == rest
  {
    var w := Encode(f) + rest;
    var sid, len := Be32(f.sid), Be16(|f.data|);
    var header := [f.cmd] + sid + len;
    assert f.data[..|f.data|] == f.data;
    Assoc(header, f.data, rest);
    assert w == header + (f.data + rest);
    HeaderBytes(f.cmd, sid, len, f.data + rest);
    Be32Exact(f.sid);
    Be16Exact(|f.data|);
    assert w[FRAME_HEADER..] == f.data + rest;
    assert w[FRAME_HEADER..FRAME_HEADER + |f.data|] == w[FRAME_HEADER..][..|f.data|];
  }

  lemma {:induction false} HeaderBytes(cmd: Byte, sid: seq<Byte>, len: seq<Byte>, rest: seq<Byte>)
    requires |sid| == 4 && |len| == 2
    ensures var w := [cmd] + sid + len + rest;
            && w[0] == cmd && w[1] == sid[0] && w[2] == sid[1] && w[3] == sid[2] && w[4] == sid[3]
            && w[5] == len[0] && w[6] == len[1]
  {
  }

  /** Decoding inverts encoding on any concatenation of frames followed by an incomplete frame. */
  lemma {:induction false} DecodeInvertsEncode(fs: seq<Frame>, partial: seq<Byte>)
    requires Sendable(fs) && !HasFrame(partial)
    ensures Decode(EncodeAll(fs) + partial) == (fs, partial)
    decreases |fs|
  {
    if fs == [] {
      assert EncodeAll(fs) + partial == partial;
    } else {
      var tail := EncodeAll(fs[1..]) + partial;
      Assoc(Encode(fs[0]), EncodeAll(fs[1..]), partial);
      DecodeOne(fs[0], tail);
      DecodeInvertsEncode(fs[1..], partial);
      assert fs == [fs[0]] + fs[1..];
    }
  }

  /** Encoding inverts decoding: no byte of the wire is lost or invented. */
  lemma {:induction false} EncodeInvertsDecode(w: seq<Byte>)
    ensures Sendable(Decode(w).0)
    ensures EncodeAll(Decode(w).0) + Decode(w).1 == w
    decreases |w|
  {
    if HasFrame(w) {
      var rest := w[FRAME_HEADER + DataLen(w)..];
      EncodeInvertsDecode(rest);
      EncodeHeadFrame(w);
      var f, r := HeadFrame(w), Decode(rest);
      assert Decode(w).0[1..] == r.0;
      Assoc(Encode(f), EncodeAll(r.0), r.1);
    }
  }

  lemma {:induction false} EncodeHeadFrame(w: seq<Byte>)
    requires HasFrame(w)
    ensures Encode(HeadFrame(w)) == w[..FRAME_HEADER + DataLen(w)]
  {
    var f := HeadFrame(w);
    Be16OfU16(w[5], w[6]);
    Be32OfU32(w[1], w[2], w[3], w[4]);
    assert f.data[..|f.data|] == f.data;
    assert w[..FRAME_HEADER] == [w[0]] + [w[1], w[2], w[3], w[4]] + [w[5], w[6]];
  }

  lemma {:induction false} EncodeAllAppend(a: seq<Frame>, b: seq<Frame>)
    ensures EncodeAll(a + b) == EncodeAll(a) + EncodeAll(b)
  {
    if a == [] {
      assert a + b == b;
    } else {
      assert (a + b)[1..] == a[1..] + b;
      EncodeAllAppend(a[1..], b);
      Assoc(Encode(a[0]), EncodeAll(a[1..]), EncodeAll(b));
    }
  }

  lemma {:induction false} EncodeAllOne(f: Frame)
    ensures EncodeAll([f]) == Encode(f)
  {
    assert [f][1..] == [];
  }

  // ---- splitting a send into PSH frames ----

  /** One PSH frame per element of `data.chunks(65535)`. */
  function PshFrames(sid: Sid, data: seq<Byte>): (fs: seq<Frame>)
    ensures Sendable(fs)
    ensures forall i :: 0 <= i < |fs| ==> fs[i].cmd == CMD_PSH && fs[i].sid == sid
    ensures data != [] ==> fs != []
  {
    if data == [] then []
    else
      var n := if |data| < MAX_DATA then |data| else MAX_DATA;
      [Frame(CMD_PSH, sid, data[..n])] + PshFrames(sid, data[n..])
  }

  /** The jobs one `send_psh` queues: one frame, even an empty one, unless the data is too long. */
  function PshJobs(sid: Sid, data: seq<Byte>): (jobs: seq<Frame>)
    ensures Sendable(jobs) && jobs != []
    ensures forall i :: 0 <= i < |jobs| ==> jobs[i].cmd == CMD_PSH && jobs[i].sid == sid
  {
    if |data| > MAX_DATA then PshFrames(sid, data) else [Frame(CMD_PSH, sid, data)]
  }

  class SessionWriter {
    /** The mpsc channel of write jobs, oldest first. */
    var queue: seq<Frame>

    constructor ()
      ensures queue == []
    {
      queue := [];
    }

    method SendFrame(cmd: Byte, sid: Sid, data: seq<Byte>)
      modifies this
      ensures queue == old(queue) + [Frame(cmd, sid, data)]
    {
      queue := queue + [Frame(cmd, sid, data)];
    }

    method SendPsh(sid: Sid, data: seq<Byte>)
      modifies this
      ensures queue == old(queue) + PshJobs(sid, data)
    {
      if |data| > MAX_DATA {
        var rest := data;
        while rest != []
          invariant old(queue) + PshFrames(sid, data) == queue + PshFrames(sid, rest)
          decreases |rest|
        {
          var n := if |rest| < MAX_DATA then |rest| else MAX_DATA;
          Assoc(queue, [Frame(CMD_PSH, sid, rest[..n])], PshFrames(sid, rest[n..]));
          SendFrame(CMD_PSH, sid, rest[..n]);
          rest := rest[n..];
        }
      } else {
        SendFrame(CMD_PSH, sid, data);
      }
    }

    method SendFin(sid: Sid)
      modifies this
      ensures queue == old(queue) + [Frame(CMD_FIN, sid, [])]
    {
      SendFrame(CMD_FIN, sid, []);
    }
  }
}
