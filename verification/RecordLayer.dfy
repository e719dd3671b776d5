/**
  The TLS-disguised AEAD record layer of crates/encryption: a chunking writer and a
  buffering reader whose nonces stay in lockstep.
 */
module RecordLayer {
  import opened Bytes
  import opened Aead

  const HEADER_LEN := 5
  const MAX_PLAINTEXT := 8192

  datatype HeaderError = InvalidMagic(b0: Byte, b1: Byte, b2: Byte) | InvalidLength(len: nat)

  datatype ReadError = UnexpectedEof | BadHeader(cause: HeaderError) | DecryptFailed

  // ---- record header ----

  function Header(len: nat): (h: seq<Byte>)
    ensures |h| == HEADER_LEN
  {
    [0x17, 0x03, 0x03] + Be16(len)
  }

  method EncodeHeader(hdr: array<Byte>, payloadLen: nat)
    requires hdr.Length == HEADER_LEN
    modifies hdr
    ensures hdr[..] == Header(payloadLen)
  {
    hdr[0] := 0x17;
    hdr[1] := 0x03;
    hdr[2] := 0x03;
    hdr[3] := (payloadLen / 256) % 256;
    hdr[4] := payloadLen % 256;
  }

  function DecodeHeader(hdr: seq<Byte>): Result<nat, HeaderError>
    requires |hdr| == HEADER_LEN
  {
    if hdr[0] != 0x17 || hdr[1] != 0x03 || hdr[2] != 0x03 then
      Err(InvalidMagic(hdr[0], hdr[1], hdr[2]))
    else
      var len := U16(hdr[3], hdr[4]);
      if 17 <= len <= 16640 then Ok(len) else Err(InvalidLength(len))
  }

  /** Decoding undoes encoding exactly on the lengths 17 to 16640. */
  lemma {:induction false} HeaderRoundTrip(len: nat)
    ensures DecodeHeader(Header(len)) == Ok(len) <==> 17 <= len <= 16640
  {
    Be16Value(len);
  }

  // ---- writing ----

  function Chunks(data: seq<Byte>): (chunks: seq<seq<Byte>>)
    ensures Concat(chunks) == data
    ensures forall i :: 0 <= i < |chunks| ==> 0 < |chunks[i]| <= MAX_PLAINTEXT
  {
    if data == [] then []
    else
      var n := Min(|data|, MAX_PLAINTEXT);
      [data[..n]] + Chunks(data[n..])
  }

  datatype Written = Written(wire: seq<Byte>, uses: nat, ok: bool)

  /** The bytes `write_all` emits, the nonce counter it leaves and whether every seal succeeded. */
  function WriteRecords(c: Cipher, uses: nat, data: seq<Byte>): Written
    decreases |data|
  {
    if data == [] then Written([], uses, true)
    else
      var n := Min(|data|, MAX_PLAINTEXT);
      var hdr := Header(n + TAG_LEN);
      match c.encrypt(NonceAt(uses), data[..n], hdr)
      case None => Written([], uses + 1, false)
      case Some(ct) =>
        var rest := WriteRecords(c, uses + 1, data[n..]);
        rest.(wire := hdr + ct + rest.wire)
  }

  ghost predicate Fits(chunks: seq<seq<Byte>>) {
    forall i :: 0 <= i < |chunks| ==> 0 < |chunks[i]| <= MAX_PLAINTEXT
  }

  ghost function Record(c: Cipher, uses: nat, chunk: seq<Byte>): (w: seq<Byte>)
    requires Lawful(c) && |chunk| <= MAX_PLAINTEXT
    ensures |w| == HEADER_LEN + |chunk| + TAG_LEN
  {
    var hdr := Header(|chunk| + TAG_LEN);
    hdr + c.encrypt(NonceAt(uses), chunk, hdr).value
  }

  /** The records of a list of chunks, sealed under consecutive nonces. */
  ghost function Wire(c: Cipher, uses: nat, chunks: seq<seq<Byte>>): seq<Byte>
    requires Lawful(c) && Fits(chunks)
    decreases |chunks|
  {
    if chunks == [] then [] else Record(c, uses, chunks[0]) + Wire(c, uses + 1, chunks[1..])
  }

  lemma {:induction false} WireAppend(c: Cipher, uses: nat, a: seq<seq<Byte>>, b: seq<seq<Byte>>)
    requires Lawful(c) && Fits(a) && Fits(b)
    ensures Wire(c, uses, a + b) == Wire(c, uses, a) + Wire(c, uses + |a|, b)
    decreases |a|
  {
    if a == [] {
      assert a + b == b;
    } else {
      assert (a + b)[0] == a[0] && (a + b)[1..] == a[1..] + b;
      WireAppend(c, uses + 1, a[1..], b);
      Assoc(Record(c, uses, a[0]), Wire(c, uses + 1, a[1..]), Wire(c, uses + |a|, b));
    }
  }

  lemma {:induction false} WriteRecordsIsWire(c: Cipher, uses: nat, data: seq<Byte>)
    requires Lawful(c)
    ensures WriteRecords(c, uses, data) == Written(Wire(c, uses, Chunks(data)), uses + |Chunks(data)|, true)
    decreases |data|
  {
    if data != [] {
      var n := Min(|data|, MAX_PLAINTEXT);
      WriteRecordsIsWire(c, uses + 1, data[n..]);
      assert Chunks(data)[1..] == Chunks(data[n..]);
    }
  }

  // ---- reading ----

  /** The reader: unread wire bytes, decrypted bytes not yet returned, and its nonce counter. */
  datatype Reader = Reader(wire: seq<Byte>, pending: seq<Byte>, uses: nat)

  datatype ReadOutcome = ReadOutcome(result: Result<seq<Byte>, ReadError>, reader: Reader)

  /** Reading and opening the next record. A short `read_exact` drains the wire. */
  function Fetch(c: Cipher, r: Reader): ReadOutcome {
    if |r.wire| < HEADER_LEN then
      ReadOutcome(Err(UnexpectedEof), r.(wire := []))
    else
      var hdr := r.wire[..HEADER_LEN];
      var body := r.wire[HEADER_LEN..];
      match DecodeHeader(hdr)
      case Err(e) => ReadOutcome(Err(BadHeader(e)), r.(wire := body))
      case Ok(len) =>
        if |body| < len then
          ReadOutcome(Err(UnexpectedEof), r.(wire := []))
        else
          var after := r.(wire := body[len..], uses := r.uses + 1);
          match c.decrypt(NonceAt(r.uses), body[..len], hdr)
          case None => ReadOutcome(Err(DecryptFailed), after)
          case Some(p) => ReadOutcome(Ok(p), after)
  }

  /** One `read` into a buffer of `size` bytes. */
  function ReadStep(c: Cipher, r: Reader, size: nat): ReadOutcome {
    if r.pending != [] then
      var n := Min(|r.pending|, size);
      ReadOutcome(Ok(r.pending[..n]), r.(pending := r.pending[n..]))
    else
      var out := Fetch(c, r);
      match out.result
      case Err(e) => out
      case Ok(p) =>
        var n := Min(|p|, size);
        ReadOutcome(Ok(p[..n]), out.reader.(pending := p[n..]))
  }

  // ---- the connection object ----

  class CommonConn {
    var inbound: seq<Byte>
    var outbound: seq<Byte>
    const writeAead: AeadKey
    const readAead: AeadKey
    var readBuffer: seq<Byte>
    var readPos: nat
    var ctBuf: seq<Byte>

    ghost predicate Valid()
      reads this, writeAead, readAead, writeAead.nonce, readAead.nonce
    {
      && writeAead != readAead && writeAead.nonce != readAead.nonce
      && writeAead.Valid() && readAead.Valid()
      && readPos <= |readBuffer|
    }

    ghost function ReaderState(): Reader
      requires Valid()
      reads this, writeAead, readAead, writeAead.nonce, readAead.nonce
    {
      Reader(inbound, readBuffer[readPos..], readAead.uses)
    }

    constructor (inbound: seq<Byte>, writeAead: AeadKey, readAead: AeadKey)
      requires writeAead != readAead && writeAead.nonce != readAead.nonce
      requires writeAead.Valid() && readAead.Valid()
      ensures Valid() && this.writeAead == writeAead && this.readAead == readAead
      ensures outbound == [] && ReaderState() == Reader(inbound, [], readAead.uses)
    {
      this.inbound, this.outbound := inbound, [];
      this.writeAead, this.readAead := writeAead, readAead;
      this.readBuffer, this.readPos, this.ctBuf := [], 0, [];
    }

    method WriteRecord(chunk: seq<Byte>) returns (ok: bool)
      requires Valid()
      modifies this`outbound, writeAead, writeAead.nonce
      ensures Valid() && ReaderState() == old(ReaderState()) && writeAead.uses == old(writeAead.uses) + 1
      ensures var hdr := Header(|chunk| + TAG_LEN);
              match writeAead.cipher.encrypt(NonceAt(old(writeAead.uses)), chunk, hdr)
              case None => !ok && outbound == old(outbound)
              case Some(ct) => ok && outbound == old(outbound) + (hdr + ct)
    {
      var hdr := new Byte[HEADER_LEN];
      EncodeHeader(hdr, |chunk| + TAG_LEN);
      var ct := writeAead.Seal(chunk, hdr[..]);
      if ct.None? {
        return false;
      }
      outbound := outbound + (hdr[..] + ct.value);
      return true;
    }

    method WriteAll(input: seq<Byte>) returns (ok: bool)
      requires Valid()
      modifies this`outbound, writeAead, writeAead.nonce
      ensures Valid() && ReaderState() == old(ReaderState())
      ensures var w := WriteRecords(writeAead.cipher, old(writeAead.uses), input);
              outbound == old(outbound) + w.wire && writeAead.uses == w.uses && ok == w.ok
    {
      var data := input;
      ghost var all := WriteRecords(writeAead.cipher, writeAead.uses, input);
      ghost var rest := all;
      while data != []
        invariant Valid() && ReaderState() == old(ReaderState())
        invariant rest == WriteRecords(writeAead.cipher, writeAead.uses, data)
        invariant old(outbound) + all.wire == outbound + rest.wire
        invariant all.uses == rest.uses && all.ok == rest.ok
        decreases |data|
      {
        var n := Min(|data|, MAX_PLAINTEXT);
        ghost var before := outbound;
        var sent := WriteRecord(data[..n]);
        if !sent {
          return false;
        }
        data := data[n..];
        rest := WriteRecords(writeAead.cipher, writeAead.uses, data);
        Assoc(before, outbound[|before|..], rest.wire);
      }
      return true;
    }

    /** The part of `read` that runs when nothing is buffered, up to and including `open`. */
    method FetchRecord() returns (r: Result<seq<Byte>, ReadError>)
      requires Valid() && readPos == |readBuffer|
      modifies this`inbound, this`ctBuf, readAead, readAead.nonce
      ensures Valid()
      ensures ReadOutcome(r, ReaderState()) == Fetch(readAead.cipher, old(ReaderState()))
    {
      if |inbound| < HEADER_LEN {
        inbound := [];
        return Err(UnexpectedEof);
      }
      var hdr := inbound[..HEADER_LEN];
      inbound := inbound[HEADER_LEN..];
      var decoded := DecodeHeader(hdr);
      if decoded.Err? {
        return Err(BadHeader(decoded.error));
      }
      var len := decoded.value;
      if |ctBuf| < len {
        ctBuf := ctBuf + Zeros(len - |ctBuf|);
      }
      if |inbound| < len {
        ctBuf := inbound + ctBuf[|inbound|..];
        inbound := [];
        return Err(UnexpectedEof);
      }
      ctBuf := inbound[..len] + ctBuf[len..];
      assert ctBuf[..len] == inbound[..len];
      inbound := inbound[len..];
      var plaintext := readAead.Open(ctBuf[..len], hdr);
      return if plaintext.None? then Err(DecryptFailed) else Ok(plaintext.value);
    }

    method Read(buf: array<Byte>) returns (r: Result<nat, ReadError>)
      requires Valid()
      requires buf != writeAead.nonce && buf != readAead.nonce
      modifies this`inbound, this`readBuffer, this`readPos, this`ctBuf, buf, readAead, readAead.nonce
      ensures Valid()
      ensures ReaderState() == ReadStep(readAead.cipher, old(ReaderState()), buf.Length).reader
      ensures match ReadStep(readAead.cipher, old(ReaderState()), buf.Length).result
              case Ok(bytes) => r == Ok(|bytes|) && |bytes| <= buf.Length
                                && buf[..] == bytes + old(buf[..])[|bytes|..]
              case Err(e) => r == Err(e) && buf[..] == old(buf[..])
    {
      if readPos < |readBuffer| {
        var n := Min(|readBuffer| - readPos, buf.Length);
        CopyInto(buf, readBuffer[readPos..readPos + n]);
        assert readBuffer[readPos..][..n] == readBuffer[readPos..readPos + n];
        assert readBuffer[readPos..][n..] == readBuffer[readPos + n..];
        readPos := readPos + n;
        if readPos >= |readBuffer| {
          readBuffer, readPos := [], 0;
        }
        return Ok(n);
      }
      var fetched := FetchRecord();
      if fetched.Err? {
        return Err(fetched.error);
      }
      var p := fetched.value;
      var n := Min(|p|, buf.Length);
      CopyInto(buf, p[..n]);
      if |p| > n {
        readBuffer, readPos := p[n..], 0;
      }
      return Ok(n);
    }
  }

  /** `buf[..n].copy_from_slice(src)`. */
  method CopyInto(buf: array<Byte>, src: seq<Byte>)
    requires |src| <= buf.Length
    modifies buf
    ensures buf[..] == src + old(buf[..])[|src|..]
  {
    forall i | 0 <= i < |src| {
      buf[i] := src[i];
    }
  }

  // ---- one direction of a link: every interleaving of writes and reads ----

  datatype Op = Write(data: seq<Byte>) | Read(size: nat)

  /** `written` and `got` record what the writer accepted and what the reads returned. */
  datatype Link = Link(writerUses: nat, reader: Reader, written: seq<Byte>, got: seq<Byte>)

  function Fresh(): Link {
    Link(0, Reader([], [], 0), [], [])
  }

  function LinkStep(c: Cipher, l: Link, op: Op): Link {
    match op
    case Write(data) =>
      var w := WriteRecords(c, l.writerUses, data);
      l.(writerUses := w.uses,
         reader := l.reader.(wire := l.reader.wire + w.wire),
         written := l.written + data)
    case Read(size) =>
      var out := ReadStep(c, l.reader, size);
      var bytes := if out.result.Ok? then out.result.value else [];
      l.(reader := out.reader, got := l.got + bytes)
  }

  function LinkRun(c: Cipher, ops: seq<Op>): Link {
    if ops == [] then Fresh() else LinkStep(c, LinkRun(c, ops[..|ops| - 1]), ops[|ops| - 1])
  }

  /** `chunks` are the records in flight; together with what was read they make up what was written. */
  ghost predicate Coherent(c: Cipher, l: Link, chunks: seq<seq<Byte>>)
    requires Lawful(c)
  {
    && Fits(chunks)
    && l.reader.wire == Wire(c, l.reader.uses, chunks)
    && l.writerUses == l.reader.uses + |chunks|
    && l.written == l.got + l.reader.pending + Concat(chunks)
  }

  lemma {:induction false} WriteCoherent(c: Cipher, l: Link, chunks: seq<seq<Byte>>, data: seq<Byte>)
    requires Lawful(c) && Coherent(c, l, chunks)
    ensures Coherent(c, LinkStep(c, l, Write(data)), chunks + Chunks(data))
  {
    var more := Chunks(data);
    WriteRecordsIsWire(c, l.writerUses, data);
    assert Fits(chunks + more);
    WireAppend(c, l.reader.uses, chunks, more);
    ConcatAppend(chunks, more);
    Assoc(l.got + l.reader.pending, Concat(chunks), data);
  }

  /** Fetching opens the first record in flight. */
  lemma {:induction false} FetchFirst(c: Cipher, uses: nat, pending: seq<Byte>, chunks: seq<seq<Byte>>)
    requires Lawful(c) && Fits(chunks) && chunks != []
    ensures Fetch(c, Reader(Wire(c, uses, chunks), pending, uses)) ==
            ReadOutcome(Ok(chunks[0]), Reader(Wire(c, uses + 1, chunks[1..]), pending, uses + 1))
  {
    var p := chunks[0];
    var hdr := Header(|p| + TAG_LEN);
    var ct := c.encrypt(NonceAt(uses), p, hdr).value;
    var wire := Wire(c, uses, chunks);
    assert wire[..HEADER_LEN] == hdr;
    assert wire[HEADER_LEN..] == ct + Wire(c, uses + 1, chunks[1..]);
    HeaderRoundTrip(|p| + TAG_LEN);
  }

  /** A read from the buffer moves the front of it to what was read. */
  lemma {:induction false} ReadPending(c: Cipher, l: Link, chunks: seq<seq<Byte>>, size: nat)
    requires Lawful(c) && Coherent(c, l, chunks) && l.reader.pending != []
    ensures Coherent(c, LinkStep(c, l, Read(size)), chunks)
  {
    PendingCoherent(l.got, l.reader.pending, Min(|l.reader.pending|, size));
  }

  /** With nothing buffered and nothing in flight a read changes nothing. */
  lemma {:induction false} ReadNothing(c: Cipher, l: Link, size: nat)
    requires Lawful(c) && Coherent(c, l, []) && l.reader.pending == []
    ensures Coherent(c, LinkStep(c, l, Read(size)), [])
  {
    assert l.got + [] == l.got;
  }

  /** Otherwise it opens the first record in flight. */
  lemma {:induction false} ReadRecord(c: Cipher, l: Link, chunks: seq<seq<Byte>>, size: nat)
    requires Lawful(c) && Coherent(c, l, chunks) && l.reader.pending == [] && chunks != []
    ensures Coherent(c, LinkStep(c, l, Read(size)), chunks[1..])
  {
    FetchFirst(c, l.reader.uses, [], chunks);
    RecordCoherent(l.got, chunks, size);
  }

  lemma {:induction false} ReadCoherent(c: Cipher, l: Link, chunks: seq<seq<Byte>>, size: nat)
      returns (chunks': seq<seq<Byte>>)
    requires Lawful(c) && Coherent(c, l, chunks)
    ensures Coherent(c, LinkStep(c, l, Read(size)), chunks')
  {
    chunks' := chunks;
    if l.reader.pending != [] {
      ReadPending(c, l, chunks, size);
    } else if chunks == [] {
      ReadNothing(c, l, size);
    } else {
      ReadRecord(c, l, chunks, size);
      chunks' := chunks[1..];
    }
  }

  lemma {:induction false} PendingCoherent(got: seq<Byte>, pending: seq<Byte>, n: nat)
    requires n <= |pending|
    ensures got + pending == got + pending[..n] + pending[n..]
  {
    assert pending == pending[..n] + pending[n..];
    Assoc(got, pending[..n], pending[n..]);
  }

  lemma {:induction false} RecordCoherent(got: seq<Byte>, chunks: seq<seq<Byte>>, size: nat)
    requires chunks != []
    ensures var n := Min(|chunks[0]|, size);
            got + Concat(chunks) == got + chunks[0][..n] + chunks[0][n..] + Concat(chunks[1..])
  {
  }

  lemma {:induction false} RunCoherent(c: Cipher, ops: seq<Op>) returns (chunks: seq<seq<Byte>>)
    requires Lawful(c)
    ensures Coherent(c, LinkRun(c, ops), chunks)
    decreases |ops|
  {
    if ops == [] {
      chunks := [];
    } else {
      var before := RunCoherent(c, ops[..|ops| - 1]);
      var l := LinkRun(c, ops[..|ops| - 1]);
      match ops[|ops| - 1]
      case Write(data) =>
        WriteCoherent(c, l, before, data);
        chunks := before + Chunks(data);
      case Read(size) =>
        chunks := ReadCoherent(c, l, before, size);
    }
  }

  /** In every interleaving the bytes read are a prefix of the bytes written. */
  lemma {:induction false} ReadsArePrefix(c: Cipher, ops: seq<Op>)
    requires Lawful(c)
    ensures LinkRun(c, ops).got <= LinkRun(c, ops).written
  {
    var chunks := RunCoherent(c, ops);
  }

  /**
    The next read after any interleaving: with bytes outstanding it succeeds, returns the next of
    them and makes progress when its buffer is not empty; with none outstanding it reports end of
    input and changes nothing.
   */
  lemma {:induction false} NextRead(c: Cipher, ops: seq<Op>, size: nat)
    requires Lawful(c)
    ensures var l := LinkRun(c, ops);
            var out := ReadStep(c, l.reader, size);
            if |l.got| == |l.written| then
              out == ReadOutcome(Err(UnexpectedEof), l.reader)
            else
              && out.result.Ok?
              && l.got + out.result.value <= l.written
              && |out.result.value| <= size
              && (size > 0 ==> out.result.value != [])
  {
    var chunks := RunCoherent(c, ops);
    var l := LinkRun(c, ops);
    ReadsArePrefix(c, ops + [Read(size)]);
    assert (ops + [Read(size)])[..|ops|] == ops;
    if l.reader.pending == [] && chunks != [] {
      FetchFirst(c, l.reader.uses, [], chunks);
      assert Concat(chunks) == chunks[0] + Concat(chunks[1..]);
    }
  }

  function ReadOps(sizes: seq<nat>): seq<Op> {
    if sizes == [] then [] else [Read(sizes[0])] + ReadOps(sizes[1..])
  }

  /** As many non-empty reads as there are bytes outstanding return everything. */
  lemma {:induction false} EnoughReads(c: Cipher, ops: seq<Op>, sizes: seq<nat>)
    requires Lawful(c)
    requires forall i :: 0 <= i < |sizes| ==> sizes[i] > 0
    requires |LinkRun(c, ops).written| - |LinkRun(c, ops).got| <= |sizes|
    ensures LinkRun(c, ops + ReadOps(sizes)).got == LinkRun(c, ops).written
    decreases |sizes|
  {
    ReadsArePrefix(c, ops);
    if sizes == [] {
      assert ops + ReadOps(sizes) == ops;
    } else {
      var ops' := ops + [Read(sizes[0])];
      assert ops'[..|ops|] == ops;
      NextRead(c, ops, sizes[0]);
      EnoughReads(c, ops', sizes[1..]);
      Assoc(ops, [Read(sizes[0])], ReadOps(sizes[1..]));
    }
  }
}
