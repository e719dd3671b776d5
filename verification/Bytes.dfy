/**
  Bytes, big-endian integers and small sequence facts shared by every protocol module.
  Machine integers are unbounded here; each truncating cast of the program is written out.
 */
module Bytes {
  type Byte = b: int | 0 <= b < 256

  datatype Option<+T> = None | Some(value: T)

  datatype Result<+T, +E> = Ok(value: T) | Err(error: E)

  function Min(a: nat, b: nat): nat {
    if a < b then a else b
  }

  function Zeros(n: nat): (s: seq<Byte>)
    ensures |s| == n
    ensures forall i :: 0 <= i < n ==> s[i] == 0
  {
    seq(n, _ => 0)
  }

  /** `to_be_bytes` of the low 16 bits of `n`. */
  function Be16(n: nat): (s: seq<Byte>)
    ensures |s| == 2
  {
    [(n / 256) % 256, n % 256]
  }

  function U16(hi: Byte, lo: Byte): (n: nat)
    ensures n < 65536
  {
    hi * 256 + lo
  }

  /** The three bytes written by `x >> 16`, `x >> 8` and `x`, each truncated to a byte. */
  function Be24(n: nat): (s: seq<Byte>)
    ensures |s| == 3
  {
    [(n / 65536) % 256, (n / 256) % 256, n % 256]
  }

  function U24(a: Byte, b: Byte, c: Byte): (n: nat)
    ensures n < 16777216
  {
    a * 65536 + b * 256 + c
  }

  /** `to_be_bytes` of the low 32 bits of `n`. */
  function Be32(n: nat): (s: seq<Byte>)
    ensures |s| == 4
  {
    [(n / 16777216) % 256, (n / 65536) % 256, (n / 256) % 256, n % 256]
  }

  function U32(a: Byte, b: Byte, c: Byte, d: Byte): (n: nat)
    ensures n < 4294967296
  {
    a * 16777216 + b * 65536 + c * 256 + d
  }

  lemma {:induction false} DivTwice(n: nat)
    ensures n / 65536 == n / 256 / 256
    ensures n / 16777216 == n / 65536 / 256
    ensures n / 4294967296 == n / 16777216 / 256
  {
  }

  lemma {:induction false} Low16(q: nat, v: nat)
    requires v < 65536
    ensures (65536 * q + v) % 65536 == v
  {
  }

  lemma {:induction false} Low24(q: nat, v: nat)
    requires v < 16777216
    ensures (16777216 * q + v) % 16777216 == v
  {
  }

  lemma {:induction false} Low32(q: nat, v: nat)
    requires v < 4294967296
    ensures (4294967296 * q + v) % 4294967296 == v
  {
  }

  lemma {:induction false} Be16Value(n: nat)
    ensures U16(Be16(n)[0], Be16(n)[1]) == n % 65536
  {
    var m := n / 256;
    assert n == 65536 * (m / 256) + (256 * (m % 256) + n % 256);
    Low16(m / 256, 256 * (m % 256) + n % 256);
  }

  lemma {:induction false} Be24Value(n: nat)
    ensures U24(Be24(n)[0], Be24(n)[1], Be24(n)[2]) == n % 16777216
  {
    DivTwice(n);
    var m := n / 256;
    var k := m / 256;
    assert n == 16777216 * (k / 256) + (65536 * (k % 256) + 256 * (m % 256) + n % 256);
    Low24(k / 256, 65536 * (k % 256) + 256 * (m % 256) + n % 256);
  }

  lemma {:induction false} Be32Value(n: nat)
    ensures U32(Be32(n)[0], Be32(n)[1], Be32(n)[2], Be32(n)[3]) == n % 4294967296
  {
    DivTwice(n);
    var m := n / 256;
    var k := m / 256;
    var j := k / 256;
    var low := 16777216 * (j % 256) + 65536 * (k % 256) + 256 * (m % 256) + n % 256;
    assert n == 4294967296 * (j / 256) + low;
    Low32(j / 256, low);
  }

  lemma {:induction false} Be16AtMost(n: nat)
    ensures U16(Be16(n)[0], Be16(n)[1]) <= n
  {
    Be16Value(n);
  }

  lemma {:induction false} Be24AtMost(n: nat)
    ensures U24(Be24(n)[0], Be24(n)[1], Be24(n)[2]) <= n
    ensures U24(Be24(n)[0], Be24(n)[1], Be24(n)[2]) == n <==> n < 16777216
  {
    Be24Value(n);
  }

  lemma {:induction false} Be16Exact(n: nat)
    requires n < 65536
    ensures U16(Be16(n)[0], Be16(n)[1]) == n
  {
    Be16Value(n);
  }

  lemma {:induction false} Be32Exact(n: nat)
    requires n < 4294967296
    ensures U32(Be32(n)[0], Be32(n)[1], Be32(n)[2], Be32(n)[3]) == n
  {
    DivTwice(n);
    var m := n / 256;
    var k := m / 256;
    var j := k / 256;
    assert j < 256;
    assert j % 256 == j;
  }

  lemma {:induction false} Be16OfU16(a: Byte, b: Byte)
    ensures Be16(U16(a, b)) == [a, b]
  {
    var n := U16(a, b);
    assert n / 256 == a && n % 256 == b;
  }

  lemma {:induction false} Be32OfU32(a: Byte, b: Byte, c: Byte, d: Byte)
    ensures Be32(U32(a, b, c, d)) == [a, b, c, d]
  {
    var n := U32(a, b, c, d);
    DivTwice(n);
    var m := a * 65536 + b * 256 + c;
    assert n == m * 256 + d;
    assert n / 256 == m && n % 256 == d;
    var k := a * 256 + b;
    assert m == k * 256 + c;
    assert m / 256 == k && m % 256 == c;
    assert k / 256 == a && k % 256 == b;
  }

  lemma {:induction false} Assoc<T>(a: seq<T>, b: seq<T>, c: seq<T>)
    ensures a + (b + c) == a + b + c
  {
  }

  /** A slice of a slice. */
  lemma {:induction false} Sub<T>(s: seq<T>, a: nat, b: nat, i: nat, j: nat)
    requires a <= b <= |s| && i <= j <= b - a
    ensures s[a..b][i..j] == s[a + i..a + j]
  {
    forall k | 0 <= k < j - i ensures s[a..b][i..j][k] == s[a + i..a + j][k] {
      assert s[a..b][i..j][k] == s[a..b][i + k] == s[a + i + k];
    }
  }

  /** The concatenation of a list of sequences. */
  function Concat<T>(ss: seq<seq<T>>): seq<T> {
    if ss == [] then [] else ss[0] + Concat(ss[1..])
  }

  lemma {:induction false} ConcatAppend<T>(ss: seq<seq<T>>, tt: seq<seq<T>>)
    ensures Concat(ss + tt) == Concat(ss) + Concat(tt)
  {
    if ss == [] {
      assert ss + tt == tt;
    } else {
      ConcatAppend(ss[1..], tt);
      assert (ss + tt)[0] == ss[0] && (ss + tt)[1..] == ss[1..] + tt;
      Assoc(ss[0], Concat(ss[1..]), Concat(tt));
    }
  }

  lemma {:induction false} ConcatOne<T>(s: seq<T>)
    ensures Concat([s]) == s
  {
    assert [s][1..] == [];
  }

  /** What the first `k` pieces of a stream bring. */
  function Arrived<T>(pieces: seq<seq<T>>, k: nat): seq<T>
    requires k <= |pieces|
  {
    Concat(pieces[..k])
  }

  lemma {:induction false} ArrivedNext<T>(pieces: seq<seq<T>>, k: nat)
    requires k < |pieces|
    ensures Arrived(pieces, k + 1) == Arrived(pieces, k) + pieces[k]
  {
    assert pieces[..k + 1] == pieces[..k] + [pieces[k]];
    ConcatAppend(pieces[..k], [pieces[k]]);
    ConcatOne(pieces[k]);
  }
}
