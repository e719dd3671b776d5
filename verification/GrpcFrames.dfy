/**
  gRPC Hunk framing of crates/grpc/src/lib.rs: a compression byte, a 32-bit length and a protobuf
  message, reassembled from arbitrary pieces.
 */
module GrpcFrames {
  import opened Bytes

  const GRPC_HEADER := 5

  /** The protobuf codec of the `Hunk` message. */
  datatype Codec = Codec(encode: seq<Byte> -> seq<Byte>, decode: seq<Byte> -> Option<seq<Byte>>)

  ghost predicate Lawful(c: Codec) {
    forall d: seq<Byte> :: c.decode(c.encode(d)) == Some(d)
  }

  datatype GrpcError = CompressionNotSupported(b: Byte) | ProtoDecode

  /** `encode_hunk_frame`; the length is cut to 32 bits. */
  function EncodeFrame(c: Codec, data: seq<Byte>): seq<Byte> {
    [0] + Be32(|c.encode(data)|) + c.encode(data)
  }

  /** A decoding step: its result and the buffer it leaves. */
  datatype Decoded = Decoded(result: Result<Option<seq<Byte>>, GrpcError>, rest: seq<Byte>)

  function FrameLen(buf: seq<Byte>): nat
    requires |buf| >= GRPC_HEADER
  {
    GRPC_HEADER + U32(buf[1], buf[2], buf[3], buf[4])
  }

  function DecodeFrame(c: Codec, buf: seq<Byte>): Decoded {
    if |buf| < GRPC_HEADER then Decoded(Ok(None), buf)
    else if buf[0] != 0 then Decoded(Err(CompressionNotSupported(buf[0])), buf)
    else if |buf| < FrameLen(buf) then Decoded(Ok(None), buf)
    else
      var rest := buf[FrameLen(buf)..];
      match c.decode(buf[GRPC_HEADER..FrameLen(buf)])
      case None => Decoded(Err(ProtoDecode), rest)
      case Some(data) => Decoded(Ok(Some(data)), rest)
  }

  class GrpcFrameReader {
    const codec: Codec
    var buf: seq<Byte>

    constructor (codec: Codec)
      ensures buf == [] && this.codec == codec
    {
      this.codec, this.buf := codec, [];
    }

    method Feed(data: seq<Byte>) returns (r: Result<Option<seq<Byte>>, GrpcError>)
      modifies this
      ensures Decoded(r, buf) == DecodeFrame(codec, old(buf) + data)
    {
      buf := buf + data;
      if |buf| < GRPC_HEADER {
        return Ok(None);
      }
      if buf[0] != 0 {
        return Err(CompressionNotSupported(buf[0]));
      }
      var payloadLen := U32(buf[1], buf[2], buf[3], buf[4]);
      if |buf| < GRPC_HEADER + payloadLen {
        return Ok(None);
      }
      assert buf[GRPC_HEADER..][..payloadLen] == buf[GRPC_HEADER..GRPC_HEADER + payloadLen];
      assert buf[GRPC_HEADER..][payloadLen..] == buf[GRPC_HEADER + payloadLen..];
      buf := buf[GRPC_HEADER..];
      var proto := buf[..payloadLen];
      buf := buf[payloadLen..];
      var hunk := codec.decode(proto);
      return if hunk.None? then Err(ProtoDecode) else Ok(Some(hunk.value));
    }
  }

  // ---- streams of frames ----

  function EncodeFrames(c: Codec, ps: seq<seq<Byte>>): seq<Byte> {
    if ps == [] then [] else EncodeFrame(c, ps[0]) + EncodeFrames(c, ps[1..])
  }

  /** Messages whose encoded length fits the 32-bit field. */
  ghost predicate Encodable(c: Codec, ps: seq<seq<Byte>>) {
    forall i :: 0 <= i < |ps| ==> |c.encode(ps[i])| < 4294967296
  }

  lemma {:induction false} FrameLayout(len: seq<Byte>, msg: seq<Byte>, tail: seq<Byte>)
    requires |len| == 4 && U32(len[0], len[1], len[2], len[3]) == |msg|
    ensures var w := [0] + len + msg + tail;
            && |w| >= GRPC_HEADER + |msg| && w[0] == 0 && FrameLen(w) == GRPC_HEADER + |msg|
            && w[GRPC_HEADER..FrameLen(w)] == msg && w[FrameLen(w)..] == tail
  {
    var w := [0] + len + msg + tail;
    assert w[1] == len[0] && w[2] == len[1] && w[3] == len[2] && w[4] == len[3];
  }

  /**
    What a reader holding a prefix `buf` of the remaining stream does: it yields the next message
    exactly when that message is complete, leaving the rest, and asks for more otherwise.
   */
  lemma {:induction false} DecodePrefix(c: Codec, p: seq<Byte>, buf: seq<Byte>, future: seq<Byte>, tail: seq<Byte>)
    requires Lawful(c) && |c.encode(p)| < 4294967296
    requires buf + future == EncodeFrame(c, p) + tail
    ensures var n := |EncodeFrame(c, p)|;
            if |buf| < n then DecodeFrame(c, buf) == Decoded(Ok(None), buf)
            else DecodeFrame(c, buf) == Decoded(Ok(Some(p)), buf[n..]) && buf[n..] + future == tail
  {
    var msg := c.encode(p);
    var whole := EncodeFrame(c, p) + tail;
    Be32Exact(|msg|);
    FrameLayout(Be32(|msg|), msg, tail);
    assert forall i :: 0 <= i < |buf| ==> buf[i] == whole[i];
    if |buf| >= GRPC_HEADER {
      assert FrameLen(buf) == FrameLen(whole);
      if |buf| >= FrameLen(buf) {
        assert buf[GRPC_HEADER..FrameLen(buf)] == whole[GRPC_HEADER..FrameLen(whole)];
        assert buf[FrameLen(buf)..] + future == whole[FrameLen(whole)..];
      }
    }
  }

  /** Frames emitted, and the buffer, after a list of feeds; `ok` is false once a feed failed. */
  datatype Reader = Reader(emitted: seq<seq<Byte>>, buf: seq<Byte>, ok: bool)

  function FeedOne(c: Codec, r: Reader, data: seq<Byte>): Reader {
    var d := DecodeFrame(c, r.buf + data);
    match d.result
    case Err(_) => Reader(r.emitted, d.rest, false)
    case Ok(None) => Reader(r.emitted, d.rest, r.ok)
    case Ok(Some(p)) => Reader(r.emitted + [p], d.rest, r.ok)
  }

  function FeedAll(c: Codec, feeds: seq<seq<Byte>>): Reader {
    if feeds == [] then Reader([], [], true) else FeedOne(c, FeedAll(c, feeds[..|feeds| - 1]), feeds[|feeds| - 1])
  }

  /** The reader has emitted the first `k` messages and holds a prefix of the rest of the stream. */
  ghost predicate InStep(c: Codec, ps: seq<seq<Byte>>, r: Reader, future: seq<Byte>) {
    && r.ok && |r.emitted| <= |ps| && r.emitted == ps[..|r.emitted|]
    && r.buf + future == EncodeFrames(c, ps[|r.emitted|..])
  }

  lemma {:induction false} FeedInStep(c: Codec, ps: seq<seq<Byte>>, r: Reader, data: seq<Byte>, future: seq<Byte>)
    requires Lawful(c) && Encodable(c, ps) && InStep(c, ps, r, data + future)
    ensures InStep(c, ps, FeedOne(c, r, data), future)
    ensures var k := |r.emitted|;
            |FeedOne(c, r, data).emitted| == k + 1 <==>
            k < |ps| && |r.buf + data| >= |EncodeFrame(c, ps[k])|
  {
    var k := |r.emitted|;
    Assoc(r.buf, data, future);
    if k < |ps| {
      var rest := ps[k..];
      assert rest[0] == ps[k] && rest[1..] == ps[k + 1..];
      DecodePrefix(c, ps[k], r.buf + data, future, EncodeFrames(c, ps[k + 1..]));
      assert ps[..k] + [ps[k]] == ps[..k + 1];
    } else {
      assert r.buf + data == [];
    }
  }

  lemma {:induction false} RunInStep(c: Codec, ps: seq<seq<Byte>>, feeds: seq<seq<Byte>>, future: seq<Byte>)
    requires Lawful(c) && Encodable(c, ps) && Concat(feeds) + future == EncodeFrames(c, ps)
    ensures InStep(c, ps, FeedAll(c, feeds), future)
    decreases |feeds|
  {
    if feeds == [] {
      assert ps[0..] == ps;
    } else {
      var before, last := feeds[..|feeds| - 1], feeds[|feeds| - 1];
      assert feeds == before + [last];
      ConcatAppend(before, [last]);
      ConcatOne(last);
      Assoc(Concat(before), last, future);
      RunInStep(c, ps, before, last + future);
      FeedInStep(c, ps, FeedAll(c, before), last, future);
    }
  }

  // ---- main results ----

  /**
    For every list of messages and every way of cutting a prefix of their encoding into feeds, the
    reader never fails, has emitted the first messages in order, and its buffer holds exactly the
    bytes fed that belong to the others.
   */
  lemma {:induction false} EmittedAndPending(c: Codec, ps: seq<seq<Byte>>, feeds: seq<seq<Byte>>)
    requires Lawful(c) && Encodable(c, ps) && Concat(feeds) <= EncodeFrames(c, ps)
    ensures var r := FeedAll(c, feeds);
            && r.ok && r.emitted <= ps
            && EncodeFrames(c, r.emitted) + r.buf == Concat(feeds)
  {
    var future := EncodeFrames(c, ps)[|Concat(feeds)|..];
    assert Concat(feeds) + future == EncodeFrames(c, ps);
    RunInStep(c, ps, feeds, future);
    var r := FeedAll(c, feeds);
    var k := |r.emitted|;
    assert ps == ps[..k] + ps[k..];
    EncodeFramesAppend(c, ps[..k], ps[k..]);
    Assoc(EncodeFrames(c, r.emitted), r.buf, future);
    Cancel(EncodeFrames(c, r.emitted) + r.buf, Concat(feeds), future);
  }

  lemma {:induction false} Cancel(a: seq<Byte>, b: seq<Byte>, tail: seq<Byte>)
    requires a + tail == b + tail
    ensures a == b
  {
    assert |a| == |b|;
    assert a == (a + tail)[..|a|] == (b + tail)[..|b|] == b;
  }

  lemma {:induction false} EncodeFramesAppend(c: Codec, a: seq<seq<Byte>>, b: seq<seq<Byte>>)
    ensures EncodeFrames(c, a + b) == EncodeFrames(c, a) + EncodeFrames(c, b)
  {
    if a == [] {
      assert a + b == b;
    } else {
      assert (a + b)[1..] == a[1..] + b;
      EncodeFramesAppend(c, a[1..], b);
      Assoc(EncodeFrame(c, a[0]), EncodeFrames(c, a[1..]), EncodeFrames(c, b));
    }
  }

  // ---- any bytes, in any pieces ----

  /** Decodes a buffer until more bytes are needed or a compressed frame stands in the way. */
  function DecodeAll(c: Codec, w: seq<Byte>): Reader
    decreases |w|
  {
    var d := DecodeFrame(c, w);
    match d.result
    case Ok(None) => Reader([], w, true)
    case Ok(Some(p)) => Then(Reader([p], [], true), DecodeAll(c, d.rest))
    case Err(CompressionNotSupported(_)) => Reader([], w, false)
    case Err(ProtoDecode) => Then(Reader([], [], false), DecodeAll(c, d.rest))
  }

  /** A reader that goes on as `d` does. */
  function Then(r: Reader, d: Reader): Reader {
    Reader(r.emitted + d.emitted, d.buf, r.ok && d.ok)
  }

  lemma {:induction false} ThenAssoc(a: Reader, b: Reader, d: Reader)
    ensures Then(a, Then(b, d)) == Then(Then(a, b), d)
  {
    Assoc(a.emitted, b.emitted, d.emitted);
  }

  predicate TakesFrame(c: Codec, w: seq<Byte>) {
    var r := DecodeFrame(c, w).result;
    r != Ok(None) && (r.Err? ==> r.error.ProtoDecode?)
  }

  /** A frame that is there decodes in the same way whatever comes after it. */
  lemma {:induction false} FrameFirst(c: Codec, w: seq<Byte>, x: seq<Byte>)
    requires TakesFrame(c, w)
    ensures DecodeFrame(c, w + x) == Decoded(DecodeFrame(c, w).result, DecodeFrame(c, w).rest + x)
    ensures |DecodeFrame(c, w).rest| < |w|
  {
    assert FrameLen(w + x) == FrameLen(w);
    assert (w + x)[GRPC_HEADER..FrameLen(w)] == w[GRPC_HEADER..FrameLen(w)];
    assert (w + x)[FrameLen(w)..] == w[FrameLen(w)..] + x;
  }

  /** What taking one frame contributes. */
  function FirstPart(c: Codec, w: seq<Byte>): Reader
    requires TakesFrame(c, w)
  {
    match DecodeFrame(c, w).result
    case Ok(p) => Reader([p.value], [], true)
    case Err(_) => Reader([], [], false)
  }

  lemma {:induction false} DecodeAllStep(c: Codec, w: seq<Byte>)
    requires TakesFrame(c, w)
    ensures DecodeAll(c, w) == Then(FirstPart(c, w), DecodeAll(c, DecodeFrame(c, w).rest))
  {
  }

  lemma {:induction false} DecodeAllStands(c: Codec, w: seq<Byte>)
    requires !TakesFrame(c, w)
    ensures DecodeAll(c, w) == Reader([], w, DecodeFrame(c, w).result == Ok(None))
  {
  }

  /** Decoding a longer buffer is going on from where decoding the shorter one stopped. */
  lemma {:induction false} DecodeMore(c: Codec, w: seq<Byte>, x: seq<Byte>)
    ensures DecodeAll(c, w + x) == Then(DecodeAll(c, w), DecodeAll(c, DecodeAll(c, w).buf + x))
    decreases |w|
  {
    if TakesFrame(c, w) {
      var rest := DecodeFrame(c, w).rest;
      FrameFirst(c, w, x);
      DecodeAllStep(c, w);
      DecodeAllStep(c, w + x);
      DecodeMore(c, rest, x);
      ThenAssoc(FirstPart(c, w), DecodeAll(c, rest), DecodeAll(c, DecodeAll(c, rest).buf + x));
    } else {
      DecodeAllStands(c, w);
      BlockedStays(c, w, x);
    }
  }

  lemma {:induction false} BlockedStays(c: Codec, w: seq<Byte>, x: seq<Byte>)
    requires !TakesFrame(c, w)
    ensures Then(DecodeAll(c, w), DecodeAll(c, w + x)) == DecodeAll(c, w + x)
  {
    DecodeAllStands(c, w);
    if DecodeFrame(c, w).result != Ok(None) {
      DecodeAllStands(c, w + x);
    }
  }

  lemma {:induction false} FeedTakes(c: Codec, r: Reader, x: seq<Byte>)
    requires TakesFrame(c, r.buf + x)
    ensures FeedOne(c, r, x) == Then(r, FirstPart(c, r.buf + x)).(buf := DecodeFrame(c, r.buf + x).rest)
  {
  }

  lemma {:induction false} FeedStands(c: Codec, r: Reader, x: seq<Byte>)
    requires !TakesFrame(c, r.buf + x)
    ensures FeedOne(c, r, x) == Then(r, DecodeAll(c, r.buf + x))
    ensures FeedOne(c, r, x).buf == r.buf + x && (FeedOne(c, r, x).ok ==> DecodeFrame(c, r.buf + x).result == Ok(None))
  {
    DecodeAllStands(c, r.buf + x);
  }

  /** A reader that stands still contributes nothing more. */
  lemma {:induction false} StandingThen(c: Codec, r: Reader)
    requires !TakesFrame(c, r.buf) && (r.ok ==> DecodeFrame(c, r.buf).result == Ok(None))
    ensures Then(r, DecodeAll(c, r.buf)) == r
  {
    DecodeAllStands(c, r.buf);
  }

  lemma {:induction false} ThenIgnoresBuffer(a: Reader, b: Reader, buf: seq<Byte>)
    ensures Then(a.(buf := buf), b) == Then(a, b)
  {
  }

  lemma {:induction false} FeedThen(c: Codec, r: Reader, x: seq<Byte>)
    ensures var f := FeedOne(c, r, x);
            Then(f, DecodeAll(c, f.buf)) == Then(r, DecodeAll(c, r.buf + x))
  {
    var w := r.buf + x;
    if TakesFrame(c, w) {
      var rest := DecodeFrame(c, w).rest;
      FeedTakes(c, r, x);
      ThenIgnoresBuffer(Then(r, FirstPart(c, w)), DecodeAll(c, rest), rest);
      DecodeAllStep(c, w);
      ThenAssoc(r, FirstPart(c, w), DecodeAll(c, rest));
    } else {
      FeedStands(c, r, x);
      StandingThen(c, FeedOne(c, r, x));
    }
  }

  /**
    For all bytes, encoded or not, in all pieces: what the reader has emitted and what is still to
    be decoded in its buffer depend on the bytes alone and are what decoding them at once gives.
   */
  lemma {:induction false} SplitsAgree(c: Codec, feeds: seq<seq<Byte>>)
    ensures var r := FeedAll(c, feeds);
            Then(r, DecodeAll(c, r.buf)) == DecodeAll(c, Concat(feeds))
    decreases |feeds|
  {
    if feeds != [] {
      var before, last := feeds[..|feeds| - 1], feeds[|feeds| - 1];
      assert feeds == before + [last];
      ConcatAppend(before, [last]);
      ConcatOne(last);
      SplitsAgree(c, before);
      var r := FeedAll(c, before);
      FeedThen(c, r, last);
      DecodeMore(c, r.buf, last);
      DecodeMore(c, Concat(before), last);
      ThenAssoc(r, DecodeAll(c, r.buf), DecodeAll(c, DecodeAll(c, r.buf).buf + last));
    }
  }

  /** How many feeds it takes to get through a buffer: one per frame, and one to meet a compressed header. */
  function Pending(c: Codec, w: seq<Byte>): nat
    decreases |w|
  {
    if TakesFrame(c, w) then (FrameFirst(c, w, []); 1 + Pending(c, DecodeFrame(c, w).rest))
    else if DecodeFrame(c, w).result == Ok(None) then 0 else 1
  }

  function EmptyFeeds(n: nat): seq<seq<Byte>> {
    if n == 0 then [] else [[]] + EmptyFeeds(n - 1)
  }

  function FeedEmpties(c: Codec, r: Reader, n: nat): Reader
    decreases n
  {
    if n == 0 then r else FeedEmpties(c, FeedOne(c, r, []), n - 1)
  }

  lemma {:induction false} FeedAllEmpties(c: Codec, feeds: seq<seq<Byte>>, n: nat)
    ensures FeedAll(c, feeds + EmptyFeeds(n)) == FeedEmpties(c, FeedAll(c, feeds), n)
    decreases n
  {
    if n == 0 {
      assert feeds + EmptyFeeds(n) == feeds;
    } else {
      OneEmptyFeed(feeds, n);
      assert (feeds + [[]])[..|feeds|] == feeds;
      FeedAllEmpties(c, feeds + [[]], n - 1);
    }
  }

  lemma {:induction false} PendingStep(c: Codec, w: seq<Byte>)
    ensures Pending(c, w) == if TakesFrame(c, w) then 1 + Pending(c, DecodeFrame(c, w).rest)
                             else if DecodeFrame(c, w).result == Ok(None) then 0 else 1
  {
  }

  lemma {:induction false} FeedNothing(c: Codec, r: Reader, n: nat)
    requires n > 0
    ensures FeedEmpties(c, r, n) == FeedEmpties(c, FeedOne(c, r, []), n - 1)
  {
  }

  lemma {:induction false} EmptiesDrain(c: Codec, r: Reader, n: nat)
    requires n >= Pending(c, r.buf)
    ensures FeedEmpties(c, r, n) == Then(r, DecodeAll(c, r.buf))
    decreases n
  {
    var nothing: seq<Byte> := [];
    assert r.buf + nothing == r.buf;
    PendingStep(c, r.buf);
    if n == 0 {
      StandingThen(c, r);
    } else {
      var f := FeedOne(c, r, nothing);
      FeedNothing(c, r, n);
      if TakesFrame(c, r.buf) {
        FeedTakes(c, r, nothing);
        FeedThen(c, r, nothing);
        EmptiesDrain(c, f, n - 1);
      } else {
        FeedStands(c, r, nothing);
        StandsStill(c, f, n - 1);
      }
    }
  }

  /** A reader that waits for more, or has failed on a compressed header, is not changed by empty feeds. */
  lemma {:induction false} StandsStill(c: Codec, r: Reader, n: nat)
    requires !TakesFrame(c, r.buf) && (r.ok ==> DecodeFrame(c, r.buf).result == Ok(None))
    ensures FeedEmpties(c, r, n) == r
    decreases n
  {
    if n > 0 {
      var nothing: seq<Byte> := [];
      assert r.buf + nothing == r.buf;
      FeedStands(c, r, nothing);
      StandingThen(c, r);
      StandsStill(c, r, n - 1);
    }
  }

  /** Whatever was fed and how, one empty feed per frame pending leaves the reader as decoding it all at once does. */
  lemma {:induction false} EmptyFeedsDrain(c: Codec, feeds: seq<seq<Byte>>, n: nat)
    requires n >= Pending(c, FeedAll(c, feeds).buf)
    ensures FeedAll(c, feeds + EmptyFeeds(n)) == DecodeAll(c, Concat(feeds))
  {
    FeedAllEmpties(c, feeds, n);
    EmptiesDrain(c, FeedAll(c, feeds), n);
    SplitsAgree(c, feeds);
  }

  lemma {:induction false} OneEmptyFeed(feeds: seq<seq<Byte>>, n: nat)
    requires n > 0
    ensures feeds + EmptyFeeds(n) == feeds + [[]] + EmptyFeeds(n - 1)
  {
    Assoc(feeds, [[]], EmptyFeeds(n - 1));
  }

  // ---- the 32-bit length ----

  lemma {:induction false} CutLayout(len: seq<Byte>, msg: seq<Byte>)
    requires |len| == 4
    ensures var w := [0] + len + msg;
            |w| == GRPC_HEADER + |msg| && w[0] == 0 && FrameLen(w) == GRPC_HEADER + U32(len[0], len[1], len[2], len[3])
  {
    var w := [0] + len + msg;
    assert w[1] == len[0] && w[2] == len[1] && w[3] == len[2] && w[4] == len[3];
  }

  /** A message too long for the length field decodes to something, or fails, and leaves bytes behind. */
  lemma {:induction false} CutFrameLeavesBytes(c: Codec, p: seq<Byte>)
    requires |c.encode(p)| >= 4294967296
    ensures var d := DecodeFrame(c, EncodeFrame(c, p));
            d.rest != [] && d.result != Ok(None)
  {
    var msg := c.encode(p);
    CutLayout(Be32(|msg|), msg);
    Be32Value(|msg|);
  }

  /** Decoding undoes encoding exactly for messages whose encoded length fits 32 bits. */
  lemma {:induction false} FrameRoundTrip(c: Codec, p: seq<Byte>)
    requires Lawful(c)
    ensures DecodeFrame(c, EncodeFrame(c, p)) == Decoded(Ok(Some(p)), []) <==> |c.encode(p)| < 4294967296
  {
    if |c.encode(p)| < 4294967296 {
      assert EncodeFrame(c, p) + [] == EncodeFrame(c, p);
      DecodePrefix(c, p, EncodeFrame(c, p), [], []);
    } else {
      CutFrameLeavesBytes(c, p);
    }
  }

  /** What `EmittedAndPending` states. */
  ghost predicate Faithful(c: Codec, ps: seq<seq<Byte>>, feeds: seq<seq<Byte>>) {
    var r := FeedAll(c, feeds);
    r.ok && r.emitted <= ps && EncodeFrames(c, r.emitted) + r.buf == Concat(feeds)
  }

  lemma {:induction false} ConcatEmptyFeeds(feeds: seq<seq<Byte>>, n: nat)
    ensures Concat(feeds + EmptyFeeds(n)) == Concat(feeds)
    decreases n
  {
    if n == 0 {
      assert feeds + EmptyFeeds(n) == feeds;
    } else {
      OneEmptyFeed(feeds, n);
      ConcatEmptyFeeds(feeds + [[]], n - 1);
      ConcatAppend(feeds, [[]]);
      ConcatOne<Byte>([]);
    }
  }

  lemma {:induction false} EncodedDecodes(c: Codec, ps: seq<seq<Byte>>)
    requires Lawful(c) && Encodable(c, ps)
    ensures DecodeAll(c, EncodeFrames(c, ps)) == Reader(ps, [], true)
  {
    if ps != [] {
      var w, tail := EncodeFrames(c, ps), EncodeFrames(c, ps[1..]);
      assert w + [] == w;
      DecodePrefix(c, ps[0], w, [], tail);
      assert w[|EncodeFrame(c, ps[0])|..] == tail;
      EncodedDecodes(c, ps[1..]);
      assert [ps[0]] + ps[1..] == ps;
    }
  }

  /** Feeds after which exactly the given messages have been emitted and nothing is pending. */
  lemma {:induction false} AllEmitted(c: Codec, ps: seq<seq<Byte>>) returns (feeds: seq<seq<Byte>>)
    requires Lawful(c) && Encodable(c, ps)
    ensures Concat(feeds) == EncodeFrames(c, ps) && FeedAll(c, feeds) == Reader(ps, [], true)
  {
    var first := [EncodeFrames(c, ps)];
    ConcatOne(EncodeFrames(c, ps));
    var n := Pending(c, FeedAll(c, first).buf);
    feeds := first + EmptyFeeds(n);
    ConcatEmptyFeeds(first, n);
    EmptyFeedsDrain(c, first, n);
    EncodedDecodes(c, ps);
  }

  /** A reader that has emitted nothing from some bytes, and not failed, still holds them. */
  lemma {:induction false} NothingDecoded(c: Codec, w: seq<Byte>)
    requires DecodeAll(c, w).emitted == [] && DecodeAll(c, w).ok
    ensures DecodeAll(c, w).buf == w
  {
    if TakesFrame(c, w) {
      DecodeAllStep(c, w);
      assert |FirstPart(c, w).emitted + DecodeAll(c, DecodeFrame(c, w).rest).emitted| == 0;
    }
  }

  lemma {:induction false} CutFrameSpoils(c: Codec, p: seq<Byte>)
    requires |c.encode(p)| >= 4294967296
    ensures var r := DecodeAll(c, EncodeFrame(c, p));
            !(r.ok && |r.emitted| == 1 && r.buf == [])
  {
    var w := EncodeFrame(c, p);
    CutFrameLeavesBytes(c, p);
    var rest := DecodeFrame(c, w).rest;
    if TakesFrame(c, w) {
      DecodeAllStep(c, w);
      if DecodeAll(c, rest).emitted == [] && DecodeAll(c, rest).ok {
        NothingDecoded(c, rest);
      }
    } else {
      DecodeAllStands(c, w);
    }
  }

  /** Each beginning of a list of messages is decoded back from its encoding, if and only if every message fits. */
  lemma {:induction false} DecodedExactly(c: Codec, ps: seq<seq<Byte>>)
    requires Lawful(c)
    ensures (forall k :: 0 <= k <= |ps| ==> DecodeAll(c, EncodeFrames(c, ps[..k])) == Reader(ps[..k], [], true)) <==>
            Encodable(c, ps)
  {
    if Encodable(c, ps) {
      forall k | 0 <= k <= |ps| ensures DecodeAll(c, EncodeFrames(c, ps[..k])) == Reader(ps[..k], [], true) {
        EncodedDecodes(c, ps[..k]);
      }
    } else {
      var k := FirstTooLong(c, ps);
      CutPrefix(c, ps, k);
    }
  }

  lemma {:induction false} EncodeFramesOne(c: Codec, p: seq<Byte>)
    ensures EncodeFrames(c, [p]) == EncodeFrame(c, p)
  {
    var one := [p];
    assert one[1..] == [];
  }

  lemma {:induction false} CutPrefix(c: Codec, ps: seq<seq<Byte>>, k: nat)
    requires Lawful(c) && k < |ps| && Encodable(c, ps[..k]) && |c.encode(ps[k])| >= 4294967296
    ensures DecodeAll(c, EncodeFrames(c, ps[..k + 1])) != Reader(ps[..k + 1], [], true)
  {
    var before, frame := EncodeFrames(c, ps[..k]), EncodeFrame(c, ps[k]);
    assert ps[..k + 1] == ps[..k] + [ps[k]];
    EncodeFramesAppend(c, ps[..k], [ps[k]]);
    EncodeFramesOne(c, ps[k]);
    EncodedDecodes(c, ps[..k]);
    DecodeMore(c, before, frame);
    assert [] + frame == frame;
    CutFrameSpoils(c, ps[k]);
  }

  lemma {:induction false} CutStreamIsUnfaithful(c: Codec, ps: seq<seq<Byte>>, k: nat) returns (feeds: seq<seq<Byte>>)
    requires Lawful(c) && k < |ps| && Encodable(c, ps[..k]) && |c.encode(ps[k])| >= 4294967296
    ensures Concat(feeds) <= EncodeFrames(c, ps) && !Faithful(c, ps, feeds)
  {
    var before := AllEmitted(c, ps[..k]);
    var frame := EncodeFrame(c, ps[k]);
    feeds := before + [frame];
    StreamSplit(c, ps, k);
    ConcatAppend(before, [frame]);
    ConcatOne(frame);
    assert feeds[..|before|] == before && [] + frame == frame;
    CutFrameLeavesBytes(c, ps[k]);
    if Faithful(c, ps, feeds) {
      OneTooMany(c, ps, k, FeedAll(c, feeds), frame);
    }
  }

  lemma {:induction false} StreamSplit(c: Codec, ps: seq<seq<Byte>>, k: nat)
    requires k < |ps|
    ensures EncodeFrames(c, ps) == EncodeFrames(c, ps[..k]) + EncodeFrame(c, ps[k]) + EncodeFrames(c, ps[k + 1..])
  {
    assert ps == ps[..k] + ps[k..] && ps[k..][1..] == ps[k + 1..];
    EncodeFramesAppend(c, ps[..k], ps[k..]);
    Assoc(EncodeFrames(c, ps[..k]), EncodeFrame(c, ps[k]), EncodeFrames(c, ps[k + 1..]));
  }

  /** A reader cannot have emitted the message and still hold some of its bytes. */
  lemma {:induction false} OneTooMany(c: Codec, ps: seq<seq<Byte>>, k: nat, r: Reader, frame: seq<Byte>)
    requires k < |ps| && frame == EncodeFrame(c, ps[k]) && r.buf != []
    requires |r.emitted| == k + 1 && r.emitted <= ps
    ensures EncodeFrames(c, r.emitted) + r.buf != EncodeFrames(c, ps[..k]) + frame
  {
    assert r.emitted == ps[..k] + [ps[k]];
    EncodeFramesAppend(c, ps[..k], [ps[k]]);
    assert EncodeFrames(c, [ps[k]]) == frame + EncodeFrames(c, []);
  }

  /** The reader is faithful to a list of messages for every split of their stream exactly when all fit. */
  lemma {:induction false} FaithfulExactly(c: Codec, ps: seq<seq<Byte>>)
    requires Lawful(c)
    ensures (forall feeds :: Concat(feeds) <= EncodeFrames(c, ps) ==> Faithful(c, ps, feeds)) <==> Encodable(c, ps)
  {
    if Encodable(c, ps) {
      forall feeds | Concat(feeds) <= EncodeFrames(c, ps) ensures Faithful(c, ps, feeds) {
        EmittedAndPending(c, ps, feeds);
      }
    } else {
      var k := FirstTooLong(c, ps);
      var feeds := CutStreamIsUnfaithful(c, ps, k);
    }
  }

  lemma {:induction false} FirstTooLong(c: Codec, ps: seq<seq<Byte>>) returns (k: nat)
    requires !Encodable(c, ps)
    ensures k < |ps| && Encodable(c, ps[..k]) && |c.encode(ps[k])| >= 4294967296
  {
    k := 0;
    while |c.encode(ps[k])| < 4294967296
      invariant k < |ps| && Encodable(c, ps[..k])
      invariant exists i :: k <= i < |ps| && |c.encode(ps[i])| >= 4294967296
      decreases |ps| - k
    {
      k := k + 1;
    }
  }

  /** Some bytes of the buffer are an uncompressed frame, whatever message it holds. */
  ghost predicate StartsWithFrame(buf: seq<Byte>) {
    exists len: seq<Byte>, msg: seq<Byte> :: IsFrame(len, msg) && [0] + len + msg <= buf
  }

  ghost predicate IsFrame(len: seq<Byte>, msg: seq<Byte>) {
    |len| == 4 && U32(len[0], len[1], len[2], len[3]) == |msg|
  }

  lemma {:induction false} WholeFrameDecodes(c: Codec, buf: seq<Byte>, len: seq<Byte>, msg: seq<Byte>)
    requires IsFrame(len, msg) && [0] + len + msg <= buf
    ensures DecodeFrame(c, buf).result != Ok(None) && |buf| >= GRPC_HEADER && buf[0] == 0
  {
    var tail := buf[GRPC_HEADER + |msg|..];
    assert buf == [0] + len + msg + tail;
    FrameLayout(len, msg, tail);
  }

  lemma {:induction false} HeaderAndBody(buf: seq<Byte>)
    requires |buf| >= GRPC_HEADER && buf[0] == 0 && |buf| >= FrameLen(buf)
    ensures IsFrame(buf[1..5], buf[5..FrameLen(buf)]) && [0] + buf[1..5] + buf[5..FrameLen(buf)] <= buf
  {
    assert buf[..FrameLen(buf)] == [0] + buf[1..5] + buf[5..FrameLen(buf)];
  }

  /** For every buffer: decoding asks for more exactly when it holds neither a whole frame nor a compressed header. */
  lemma {:induction false} NoneExactly(c: Codec, buf: seq<Byte>)
    ensures DecodeFrame(c, buf).result == Ok(None) <==>
            !StartsWithFrame(buf) && !(|buf| >= GRPC_HEADER && buf[0] != 0)
  {
    if StartsWithFrame(buf) {
      var len, msg :| IsFrame(len, msg) && [0] + len + msg <= buf;
      WholeFrameDecodes(c, buf, len, msg);
    }
    if |buf| >= GRPC_HEADER && buf[0] == 0 && |buf| >= FrameLen(buf) {
      HeaderAndBody(buf);
    }
  }
}
