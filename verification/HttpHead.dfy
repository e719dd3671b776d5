/**
  The HTTP side of crates/server/src/mixed_proxy.rs, first part: reading a request head from a
  stream that arrives in pieces, its lines, and the rewritten head sent to the origin server.
  Text is handled as its UTF-8 bytes.
 */
module HttpHead {
  import opened Bytes

  const HTTP_HEADER_LIMIT := 65536
  const READ_SIZE := 1024

  const CRLF: seq<Byte> := [13, 10]

  predicate BreakAt(s: seq<Byte>, i: nat) {
    i + 2 <= |s| && s[i] == 13 && s[i + 1] == 10
  }

  /** An empty line: two line breaks in a row. */
  predicate EndAt(s: seq<Byte>, i: nat) {
    BreakAt(s, i) && BreakAt(s, i + 2)
  }

  ghost predicate NoEnd(s: seq<Byte>) {
    forall i: nat :: !EndAt(s, i)
  }

  ghost predicate FirstEnd(s: seq<Byte>, p: nat) {
    EndAt(s, p) && forall i: nat :: i < p ==> !EndAt(s, i)
  }

  // ---- reading ----

  method FindHeaderEnd(data: seq<Byte>) returns (r: Option<nat>)
    ensures r.None? <==> NoEnd(data)
    ensures r.Some? ==> FirstEnd(data, r.value)
  {
    var i: nat := 0;
    while i + 4 <= |data|
      invariant forall j: nat :: j < i ==> !EndAt(data, j)
    {
      if EndAt(data, i) {
        return Some(i);
      }
      i := i + 1;
    }
    return None;
  }

  datatype HttpError =
    | HttpHeaderTooLarge | UnexpectedEof | InvalidHttpRequest | InvalidHttpTarget
    | HttpAuthRequired | HttpAuthFailed

  datatype Head = Head(head: seq<Byte>, initial: seq<Byte>)

  /** Reads deliver at least one byte and at most the buffer; running out of them is the end of the stream. */
  predicate IsSchedule(arrivals: seq<seq<Byte>>) {
    forall i :: 0 <= i < |arrivals| ==> 1 <= |arrivals[i]| <= READ_SIZE
  }

  /** After each of the first `n` counts of reads the head was incomplete and within the limit. */
  ghost predicate Unfinished(arrivals: seq<seq<Byte>>, n: nat)
    requires n <= |arrivals|
  {
    forall k :: 0 <= k < n ==> NoEnd(Arrived(arrivals, k)) && |Arrived(arrivals, k)| < HTTP_HEADER_LIMIT
  }

  /**
    On success the head and what follows it are all that was read, and the head ends with the first
    empty line of that; reading goes on exactly while there is no empty line and the limit is not met.
   */
  method ReadHttpHead(arrivals: seq<seq<Byte>>) returns (r: Result<Head, HttpError>, taken: nat)
    ensures taken <= |arrivals| && Unfinished(arrivals, taken)
    ensures var data := Arrived(arrivals, taken);
            match r
            case Ok(h) => h.head + h.initial == data && |h.head| >= 4 && FirstEnd(data, |h.head| - 4)
            case Err(HttpHeaderTooLarge) => NoEnd(data) && |data| >= HTTP_HEADER_LIMIT
            case Err(UnexpectedEof) => NoEnd(data) && |data| < HTTP_HEADER_LIMIT && taken == |arrivals|
            case Err(_) => false
  {
    var data: seq<Byte> := [];
    taken := 0;
    while true
      invariant taken <= |arrivals| && data == Arrived(arrivals, taken)
      invariant Unfinished(arrivals, taken)
      decreases |arrivals| - taken
    {
      var end := FindHeaderEnd(data);
      if end.Some? {
        var pos := end.value;
        assert data[..pos + 4] + data[pos + 4..] == data;
        return Ok(Head(data[..pos + 4], data[pos + 4..])), taken;
      }
      if |data| >= HTTP_HEADER_LIMIT {
        return Err(HttpHeaderTooLarge), taken;
      }
      if taken == |arrivals| {
        return Err(UnexpectedEof), taken;
      }
      ArrivedNext(arrivals, taken);
      data := data + arrivals[taken];
      taken := taken + 1;
    }
  }

  /** The outcome of reading, as the contract of `ReadHttpHead` describes it on success. */
  ghost predicate Reads(arrivals: seq<seq<Byte>>, h: Head, taken: nat) {
    && taken <= |arrivals| && Unfinished(arrivals, taken)
    && h.head + h.initial == Arrived(arrivals, taken)
    && |h.head| >= 4 && FirstEnd(h.head + h.initial, |h.head| - 4)
  }

  lemma {:induction false} EndInPrefix(s: seq<Byte>, t: seq<Byte>, p: nat)
    requires FirstEnd(s, p)
    ensures FirstEnd(s + t, p)
  {
    forall i: nat | i < p ensures !EndAt(s + t, i) {
      assert !EndAt(s, i);
    }
  }

  lemma {:induction false} ReceivedSplit(arrivals: seq<seq<Byte>>, k: nat)
    requires k <= |arrivals|
    ensures Concat(arrivals) == Arrived(arrivals, k) + Concat(arrivals[k..])
  {
    assert arrivals == arrivals[..k] + arrivals[k..];
    ConcatAppend(arrivals[..k], arrivals[k..]);
  }

  lemma {:induction false} HeadOfStream(arrivals: seq<seq<Byte>>, h: Head, taken: nat)
    requires Reads(arrivals, h, taken)
    ensures FirstEnd(Concat(arrivals), |h.head| - 4) && h.head <= Concat(arrivals)
  {
    ReceivedSplit(arrivals, taken);
    EndInPrefix(h.head + h.initial, Concat(arrivals[taken..]), |h.head| - 4);
  }

  /** However the same stream is cut into reads, all that succeed find the same head. */
  lemma {:induction false} FragmentationsAgree(a: seq<seq<Byte>>, h: Head, m: nat, b: seq<seq<Byte>>, g: Head, n: nat)
    requires Concat(a) == Concat(b) && Reads(a, h, m) && Reads(b, g, n)
    ensures h.head == g.head
  {
    HeadOfStream(a, h, m);
    HeadOfStream(b, g, n);
    UniqueEnd(Concat(a), |h.head| - 4, |g.head| - 4);
  }

  lemma {:induction false} UniqueEnd(s: seq<Byte>, p: nat, q: nat)
    requires FirstEnd(s, p) && FirstEnd(s, q)
    ensures p == q
  {
    assert EndAt(s, p) && EndAt(s, q);
  }

  /** A stream whose first empty line ends within the limit is never refused as too large or too short. */
  lemma {:induction false} ShortHeadsAreRead(arrivals: seq<seq<Byte>>, p: nat, k: nat)
    requires FirstEnd(Concat(arrivals), p) && p + 4 <= HTTP_HEADER_LIMIT && k <= |arrivals|
    ensures |Arrived(arrivals, k)| >= HTTP_HEADER_LIMIT || k == |arrivals| ==> !NoEnd(Arrived(arrivals, k))
  {
    ReceivedSplit(arrivals, k);
    if |Arrived(arrivals, k)| >= HTTP_HEADER_LIMIT {
      assert EndAt(Arrived(arrivals, k), p);
    } else if k == |arrivals| {
      assert arrivals[..k] == arrivals;
      assert EndAt(Arrived(arrivals, k), p);
    }
  }

  /** The first read count after which an empty line has arrived. */
  lemma {:induction false} FirstComplete(arrivals: seq<seq<Byte>>, p: nat) returns (k: nat)
    requires FirstEnd(Concat(arrivals), p)
    ensures k <= |arrivals| && !NoEnd(Arrived(arrivals, k))
    ensures forall j :: 0 <= j < k ==> NoEnd(Arrived(arrivals, j))
  {
    assert arrivals[..|arrivals|] == arrivals;
    assert EndAt(Arrived(arrivals, |arrivals|), p);
    k := 0;
    while NoEnd(Arrived(arrivals, k))
      invariant k <= |arrivals|
      invariant forall j :: 0 <= j < k ==> NoEnd(Arrived(arrivals, j))
      decreases |arrivals| - k
    {
      k := k + 1;
    }
  }

  /** A prefix of a stream that has an empty line has the first one of the stream. */
  lemma {:induction false} EndOfPrefix(s: seq<Byte>, rest: seq<Byte>, p: nat)
    requires FirstEnd(s + rest, p) && !NoEnd(s)
    ensures FirstEnd(s, p)
  {
    var q: nat :| EndAt(s, q);
    assert EndAt(s + rest, q);
    assert EndAt(s, p);
    forall i: nat | i < p ensures !EndAt(s, i) {
      assert !EndAt(s + rest, i);
    }
  }

  lemma {:induction false} ShortHeadReads(arrivals: seq<seq<Byte>>, p: nat) returns (h: Head, taken: nat)
    requires FirstEnd(Concat(arrivals), p) && p + 4 <= HTTP_HEADER_LIMIT
    ensures Reads(arrivals, h, taken)
  {
    taken := FirstComplete(arrivals, p);
    var data := Arrived(arrivals, taken);
    ReceivedSplit(arrivals, taken);
    EndOfPrefix(data, Concat(arrivals[taken..]), p);
    h := Head(data[..p + 4], data[p + 4..]);
    assert h.head + h.initial == data;
    forall k | 0 <= k < taken ensures |Arrived(arrivals, k)| < HTTP_HEADER_LIMIT {
      ShortHeadsAreRead(arrivals, p, k);
    }
  }

  /** A stream that arrives byte by byte. */
  function Bytewise(s: seq<Byte>): (arrivals: seq<seq<Byte>>)
    ensures |arrivals| == |s| && IsSchedule(arrivals)
  {
    if s == [] then [] else Bytewise(s[..|s| - 1]) + [[s[|s| - 1]]]
  }

  lemma {:induction false} BytewiseArrived(s: seq<Byte>, k: nat)
    requires k <= |s|
    ensures Arrived(Bytewise(s), k) == s[..k]
    decreases |s|
  {
    if k > 0 {
      var before := s[..|s| - 1];
      if k < |s| {
        BytewiseArrived(before, k);
        assert Bytewise(s)[..k] == Bytewise(before)[..k] && before[..k] == s[..k];
      } else {
        BytewiseArrived(before, k - 1);
        ArrivedNext(Bytewise(s), k - 1);
        assert Bytewise(s)[..k - 1] == Bytewise(before)[..k - 1] && before[..k - 1] == s[..k - 1];
        assert s[..k] == s[..k - 1] + [s[k - 1]];
      }
    }
  }

  lemma {:induction false} LongHeadRefused(s: seq<Byte>, p: nat, h: Head, taken: nat)
    requires FirstEnd(s, p) && p + 4 > HTTP_HEADER_LIMIT
    ensures Concat(Bytewise(s)) == s && !Reads(Bytewise(s), h, taken)
  {
    BytewiseArrived(s, |s|);
    assert Bytewise(s)[..|s|] == Bytewise(s) && s[..|s|] == s;
    if Reads(Bytewise(s), h, taken) {
      HeadOfStream(Bytewise(s), h, taken);
      UniqueEnd(s, |h.head| - 4, p);
      BytewiseArrived(s, taken);
      BytewiseArrived(s, HTTP_HEADER_LIMIT);
      assert false;
    }
  }

  /** Reading succeeds. */
  ghost predicate CanRead(arrivals: seq<seq<Byte>>) {
    exists h, taken :: Reads(arrivals, h, taken)
  }

  /** Reads of 1 to 1024 bytes that make up the stream. */
  predicate Fragments(arrivals: seq<seq<Byte>>, s: seq<Byte>) {
    IsSchedule(arrivals) && Concat(arrivals) == s
  }

  lemma {:induction false} LongHeadFails(s: seq<Byte>, p: nat)
    requires FirstEnd(s, p) && p + 4 > HTTP_HEADER_LIMIT
    ensures Fragments(Bytewise(s), s) && !CanRead(Bytewise(s))
  {
    LongHeadRefused(s, p, Head([], []), 0);
    if CanRead(Bytewise(s)) {
      var h, taken :| Reads(Bytewise(s), h, taken);
      LongHeadRefused(s, p, h, taken);
    }
  }

  /**
    A head is read from every fragmentation of its stream into reads of 1 to 1024 bytes if and only
    if it ends within the limit; a longer one is refused when it arrives byte by byte.
   */
  lemma {:induction false} HeadsReadExactly(s: seq<Byte>, p: nat)
    requires FirstEnd(s, p)
    ensures (forall arrivals: seq<seq<Byte>> :: Fragments(arrivals, s) ==> CanRead(arrivals)) <==>
            p + 4 <= HTTP_HEADER_LIMIT
    ensures p + 4 > HTTP_HEADER_LIMIT ==> !CanRead(Bytewise(s))
  {
    if p + 4 <= HTTP_HEADER_LIMIT {
      forall arrivals: seq<seq<Byte>> | Fragments(arrivals, s) ensures CanRead(arrivals) {
        var h, taken := ShortHeadReads(arrivals, p);
      }
    } else {
      LongHeadFails(s, p);
    }
  }

  /** A head that is read overshoots the limit by less than one read. */
  lemma {:induction false} HeadsAreBounded(arrivals: seq<seq<Byte>>, h: Head, taken: nat)
    requires IsSchedule(arrivals) && Reads(arrivals, h, taken)
    ensures |h.head| < HTTP_HEADER_LIMIT + READ_SIZE
  {
    if taken > 0 {
      ArrivedNext(arrivals, taken - 1);
      assert |Arrived(arrivals, taken - 1)| < HTTP_HEADER_LIMIT;
    }
  }

  /** Reading has one outcome: it cannot stop at two places. */
  lemma {:induction false} ReadsUnique(arrivals: seq<seq<Byte>>, h: Head, m: nat, g: Head, n: nat)
    requires Reads(arrivals, h, m) && Reads(arrivals, g, n)
    ensures m == n && h == g
  {
    assert EndAt(Arrived(arrivals, m), |h.head| - 4) && EndAt(Arrived(arrivals, n), |g.head| - 4);
    assert m == n;
    UniqueEnd(Arrived(arrivals, m), |h.head| - 4, |g.head| - 4);
    assert h.head == (h.head + h.initial)[..|h.head|] && h.initial == (h.head + h.initial)[|h.head|..];
    assert g.head == (g.head + g.initial)[..|g.head|] && g.initial == (g.head + g.initial)[|g.head|..];
  }

  /** When `ReadHttpHead` fails there was no head to read. */
  lemma {:induction false} FailedReads(arrivals: seq<seq<Byte>>, taken: nat, h: Head, k: nat)
    requires taken <= |arrivals| && Unfinished(arrivals, taken) && NoEnd(Arrived(arrivals, taken))
    requires |Arrived(arrivals, taken)| >= HTTP_HEADER_LIMIT || taken == |arrivals|
    ensures !Reads(arrivals, h, k)
  {
    if k < taken {
      assert NoEnd(Arrived(arrivals, k));
    }
  }
}
