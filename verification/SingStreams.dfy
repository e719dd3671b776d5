/**
  `SingStream` of crates/anytls/src/stream.rs: four read methods over a chunk channel, shown to
  be one byte queue. `incoming` holds the chunks the channel will still yield before it
  disconnects, so a blocking `recv` takes the next one or reports the disconnect. Each call is a run
  of receiver steps of the MuxSession machine.
 */
module SingStreams {
  import opened Bytes
  import opened Frames
  import M = MuxSession

  /** `peek_byte` indexes the received chunk without checking it, which panics on an empty one. */
  datatype Peek = Byte(b: Byte) | Ended | Panicked

  lemma {:induction false} Split(before: seq<Byte>, all: seq<Byte>, out: seq<Byte>, rest: seq<Byte>)
    requires before + all == before + out + rest
    ensures all == out + rest && all[..|out|] == out
  {
    assert (before + all)[|before|..] == all;
    assert (before + out + rest)[|before|..] == out + rest;
  }

  /** A step by which a stream reads. */
  predicate Reading(s: M.Step, index: nat) {
    (s.Recv? || s.Take? || s.SeeClosed?) && s.i == index
  }

  ghost predicate AllReading(t: seq<M.Step>, index: nat) {
    forall k :: 0 <= k < |t| ==> Reading(t[k], index)
  }

  /** What a run of steps does to the channel of its stream. */
  function ChanRun(c: M.Chan, t: seq<M.Step>): M.Chan {
    if t == [] then c else M.ChanStep(ChanRun(c, t[..|t| - 1]), t[|t| - 1])
  }

  /** The reading steps `t` of a stream take its channel from `c` to `d`. */
  ghost predicate Leads(c: M.Chan, d: M.Chan, t: seq<M.Step>, index: nat) {
    AllReading(t, index) && d == ChanRun(c, t)
  }

  lemma {:induction false} LeadsOn(c: M.Chan, d: M.Chan, t: seq<M.Step>, index: nat, s: M.Step)
    requires Leads(c, d, t, index) && Reading(s, index)
    ensures Leads(c, M.ChanStep(d, s), t + [s], index)
  {
    assert (t + [s])[..|t|] == t;
  }

  /** In the machine such a run changes the one channel and nothing else. */
  lemma {:induction false} ReadingRuns(m: M.Mux, i: nat, t: seq<M.Step>)
    requires i < |m.chans| && AllReading(t, i)
    ensures M.RunFrom(m, t) == m.(chans := m.chans[i := ChanRun(m.chans[i], t)])
  {
    if t == [] {
      assert m.chans[i := m.chans[i]] == m.chans;
    } else {
      var before := t[..|t| - 1];
      assert Reading(t[|t| - 1], i);
      ReadingRuns(m, i, before);
    }
  }

  class SingStream {
    const id: Sid
    var incoming: seq<seq<Byte>>
    var buffer: seq<Byte>
    var bufPos: nat
    var closed: bool
    /** Every byte handed out so far, in order. */
    ghost var consumed: seq<Byte>
    /** Every byte the stream will ever carry. */
    ghost const source: seq<Byte>
    /** Which of the session's channels this is. */
    ghost const index: nat

    ghost predicate Valid()
      reads this
    {
      && bufPos <= |buffer|
      && (closed ==> Exhausted())
      && consumed + Remaining() == source
    }

    ghost predicate Exhausted()
      reads this
    {
      bufPos == |buffer| && incoming == []
    }

    /** Bytes not yet handed out. */
    ghost function Remaining(): seq<Byte>
      reads this
      requires bufPos <= |buffer|
    {
      buffer[bufPos..] + Concat(incoming)
    }

    /** The channel of the machine, with all the chunks it will still yield. */
    ghost function View(): M.Chan
      reads this
      requires bufPos <= |buffer|
    {
      M.Chan(id, incoming, false, buffer[bufPos..], consumed, closed, false)
    }

    constructor (id: Sid, chunks: seq<seq<Byte>>, ghost index: nat)
      ensures Valid() && consumed == [] && source == Concat(chunks) && !closed
      ensures this.index == index && View() == M.Chan(id, chunks, false, [], [], false, false)
    {
      this.id, this.index := id, index;
      incoming, buffer, bufPos, closed := chunks, [], 0, false;
      consumed, source := [], Concat(chunks);
    }

    /** Hands over the rest of the buffer, or the next chunk whole. */
    method ReadChunk() returns (r: Option<seq<Byte>>, ghost t: seq<M.Step>)
      requires Valid()
      modifies this
      ensures Valid() && Leads(old(View()), View(), t, index)
      ensures r.Some? ==> consumed == old(consumed) + r.value && old(Remaining()) == r.value + Remaining()
      ensures r.None? ==> consumed == old(consumed)
      ensures r.None? <==> old(Exhausted())
      ensures closed <==> old(Exhausted())
    {
      t := [];
      if closed {
        return None, t;
      }
      if bufPos < |buffer| {
        var rest, t' := Take(|buffer| - bufPos, View(), t);
        return Some(rest), t';
      }
      if incoming == [] {
        t := SeeClosed(View(), t);
        return None, t;
      }
      var data := incoming[0];
      t := Receive(View(), t);
      var bytes, t' := Take(|data|, old(View()), t);
      return Some(data), t';
    }

    /** `arrived` says whether the channel already holds the next chunk or the disconnect. */
    method TryReadChunk(arrived: bool) returns (r: Option<seq<Byte>>, ghost t: seq<M.Step>)
      requires Valid()
      modifies this
      ensures Valid() && Leads(old(View()), View(), t, index)
      ensures r.Some? ==> consumed == old(consumed) + r.value && old(Remaining()) == r.value + Remaining()
      ensures r.None? ==> consumed == old(consumed) && Remaining() == old(Remaining())
      ensures r.None? <==> old(Exhausted()) || (!arrived && old(bufPos == |buffer|))
      ensures closed <==> old(closed) || (arrived && old(Exhausted()))
    {
      if !closed && bufPos >= |buffer| && !arrived {
        return None, [];
      }
      r, t := ReadChunk();
    }

    /** Returns the next `len` bytes, or all that come before the close, even across empty chunks. */
    method ReadExact(len: nat) returns (out: seq<Byte>, ghost t: seq<M.Step>)
      requires Valid()
      modifies this
      ensures Valid() && Leads(old(View()), View(), t, index)
      ensures out == old(Remaining())[..Min(len, |old(Remaining())|)]
      ensures consumed == old(consumed) + out && old(Remaining()) == out + Remaining()
      ensures |out| < len ==> closed
    {
      out, t := [], [];
      while |out| < len
        invariant Valid() && |out| <= len
        invariant consumed == old(consumed) + out
        invariant Leads(old(View()), View(), t, index)
        decreases |incoming|, |buffer| - bufPos
      {
        if closed || bufPos >= |buffer| {
          if incoming == [] {
            t := SeeClosed(old(View()), t);
            break;
          }
          t := Receive(old(View()), t);
        }
        var take := Min(|buffer| - bufPos, len - |out|);
        ghost var before := out;
        var bytes;
        bytes, t := Take(take, old(View()), t);
        out := out + bytes;
        Assoc(old(consumed), before, bytes);
      }
      Split(old(consumed), old(Remaining()), out, Remaining());
    }

    /** `recv` found a chunk, which becomes the buffer. */
    method Receive(ghost start: M.Chan, ghost t: seq<M.Step>) returns (ghost t': seq<M.Step>)
      requires Valid() && !closed && bufPos == |buffer| && incoming != []
      requires Leads(start, View(), t, index)
      modifies this`buffer, this`bufPos, this`incoming
      ensures Valid() && Leads(start, View(), t', index)
      ensures buffer == old(incoming)[0] && bufPos == 0 && incoming == old(incoming)[1..]
    {
      t' := t + [M.Recv(index)];
      LeadsOn(start, View(), t, index, M.Recv(index));
      buffer, bufPos, incoming := incoming[0], 0, incoming[1..];
      assert old(Remaining()) == Remaining();
    }

    /** `recv` found the disconnect. */
    method SeeClosed(ghost start: M.Chan, ghost t: seq<M.Step>) returns (ghost t': seq<M.Step>)
      requires Valid() && Exhausted()
      requires Leads(start, View(), t, index)
      modifies this`closed
      ensures Valid() && Leads(start, View(), t', index) && closed
    {
      t' := t + [M.SeeClosed(index)];
      LeadsOn(start, View(), t, index, M.SeeClosed(index));
      closed := true;
    }

    /** Consumes bytes already buffered. */
    method Take(n: nat, ghost start: M.Chan, ghost t: seq<M.Step>) returns (bytes: seq<Byte>, ghost t': seq<M.Step>)
      requires Valid() && n <= |buffer| - bufPos
      requires Leads(start, View(), t, index)
      modifies this`bufPos, this`consumed
      ensures Valid() && Leads(start, View(), t', index)
      ensures bytes == old(buffer[bufPos..bufPos + n]) && old(Remaining()) == bytes + Remaining()
      ensures bufPos == old(bufPos) + n && consumed == old(consumed) + bytes
    {
      t' := t + [M.Step.Take(index, n)];
      LeadsOn(start, View(), t, index, M.Step.Take(index, n));
      bytes := buffer[bufPos..bufPos + n];
      assert buffer[bufPos..] == bytes + buffer[bufPos + n..];
      assert buffer[bufPos..][..n] == bytes && buffer[bufPos..][n..] == buffer[bufPos + n..];
      bufPos := bufPos + n;
      consumed := consumed + bytes;
      Assoc(bytes, buffer[bufPos..], Concat(incoming));
      Assoc(old(consumed), bytes, Remaining());
    }

    /** Shows the next byte without consuming it; panics exactly when the next chunk is empty. */
    method PeekByte() returns (r: Peek, ghost t: seq<M.Step>)
      requires Valid()
      modifies this
      ensures Valid() && consumed == old(consumed) && Remaining() == old(Remaining())
      ensures Leads(old(View()), View(), t, index)
      ensures r == Panicked <==> old(bufPos == |buffer| && incoming != [] && incoming[0] == [])
      ensures r == Ended <==> old(Exhausted())
      ensures r.Byte? ==> |Remaining()| > 0 && r.b == Remaining()[0]
    {
      t := [];
      if closed {
        return Ended, t;
      }
      if bufPos < |buffer| {
        return Byte(buffer[bufPos]), t;
      }
      if incoming == [] {
        t := SeeClosed(View(), t);
        return Ended, t;
      }
      if incoming[0] == [] {
        LeadsOn(View(), View(), t, index, M.Recv(index));
        t := t + [M.Recv(index)];
        incoming := incoming[1..];
        return Panicked, t;
      }
      t := Receive(View(), t);
      return Byte(buffer[0]), t;
    }
  }
}
