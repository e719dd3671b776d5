/**
  The AEAD key of crates/encryption/src/aead.rs: an abstract cipher plus a 96-bit
  big-endian nonce that every seal and every open increments in place.
 */
module Aead {
  import opened Bytes

  const NONCE_LEN := 12
  const TAG_LEN := 16
  const NONCE_COUNT := 0x1_0000_0000_0000_0000_0000_0000

  /** The longest plaintext the cipher is promised to accept. */
  const SEAL_LIMIT := 8192

  /** A keyed cipher. Arguments are nonce, message, associated data. */
  datatype Cipher = Cipher(
    encrypt: (seq<Byte>, seq<Byte>, seq<Byte>) -> Option<seq<Byte>>,
    decrypt: (seq<Byte>, seq<Byte>, seq<Byte>) -> Option<seq<Byte>>)

  /** The laws of AES-256-GCM and ChaCha20-Poly1305 that the program relies on. */
  ghost predicate Lawful(c: Cipher) {
    forall n: seq<Byte>, m: seq<Byte>, aad: seq<Byte> | |m| <= SEAL_LIMIT ::
      && c.encrypt(n, m, aad).Some?
      && |c.encrypt(n, m, aad).value| == |m| + TAG_LEN
      && c.decrypt(n, c.encrypt(n, m, aad).value, aad) == Some(m)
  }

  // ---- the nonce as a number ----

  function Pow256(n: nat): (p: nat)
    ensures p > 0
  {
    if n == 0 then 1 else 256 * Pow256(n - 1)
  }

  function BeValue(s: seq<Byte>): (v: nat)
    ensures v < Pow256(|s|)
  {
    if s == [] then 0 else BeValue(s[..|s| - 1]) * 256 + s[|s| - 1]
  }

  /** What the carry loop leaves behind. */
  function Successor(s: seq<Byte>): (t: seq<Byte>)
    ensures |t| == |s|
  {
    if s == [] then []
    else if s[|s| - 1] == 255 then Successor(s[..|s| - 1]) + [0]
    else s[..|s| - 1] + [s[|s| - 1] + 1]
  }

  /** The carry loop adds one and wraps to zero after the largest value. */
  lemma {:induction false} SuccessorIsPlusOne(s: seq<Byte>)
    ensures BeValue(Successor(s)) ==
            if BeValue(s) + 1 == Pow256(|s|) then 0 else BeValue(s) + 1
  {
    if s != [] {
      var init, t := s[..|s| - 1], Successor(s);
      if s[|s| - 1] == 255 {
        SuccessorIsPlusOne(init);
        assert t[..|t| - 1] == Successor(init);
      } else {
        assert t[..|t| - 1] == init;
      }
    }
  }

  /** The nonce consumed by the k-th operation on a fresh key. */
  function NonceAt(k: nat): (s: seq<Byte>)
    ensures |s| == NONCE_LEN
  {
    if k == 0 then Zeros(NONCE_LEN) else Successor(NonceAt(k - 1))
  }

  lemma {:induction false} ZerosValue(n: nat)
    ensures BeValue(Zeros(n)) == 0
  {
    if n > 0 {
      ZerosValue(n - 1);
      assert Zeros(n)[..n - 1] == Zeros(n - 1);
    }
  }

  lemma PowNonce()
    ensures Pow256(NONCE_LEN) == NONCE_COUNT
  {
    assert Pow256(4) == 0x1_0000_0000;
    assert Pow256(8) == 0x1_0000_0000_0000_0000;
  }

  /** `increment_nonce` is +1 modulo 2^96 on the big-endian value. */
  lemma {:induction false} SuccessorModulo(s: seq<Byte>)
    requires |s| == NONCE_LEN
    ensures BeValue(Successor(s)) == (BeValue(s) + 1) % NONCE_COUNT
  {
    SuccessorIsPlusOne(s);
    PowNonce();
    NonceCountStep(BeValue(s));
  }

  lemma {:induction false} NonceCountStep(k: nat)
    ensures (k + 1) % NONCE_COUNT == if k % NONCE_COUNT + 1 == NONCE_COUNT then 0 else k % NONCE_COUNT + 1
  {
  }

  lemma {:induction false} NonceAtValue(k: nat)
    ensures BeValue(NonceAt(k)) == k % NONCE_COUNT
  {
    PowNonce();
    if k == 0 {
      ZerosValue(NONCE_LEN);
    } else {
      NonceAtValue(k - 1);
      SuccessorIsPlusOne(NonceAt(k - 1));
      NonceCountStep(k - 1);
    }
  }

  /** Numbers less than 2^96 apart differ modulo 2^96. */
  lemma {:induction false} ModuloDiffers(i: nat, j: nat)
    requires i < j < i + NONCE_COUNT
    ensures i % NONCE_COUNT != j % NONCE_COUNT
  {
    var p, q := i / NONCE_COUNT, j / NONCE_COUNT;
    assert i == NONCE_COUNT * p + i % NONCE_COUNT && j == NONCE_COUNT * q + j % NONCE_COUNT;
    assert q == p || q == p + 1;
  }

  /** Any run of at most 2^96 operations on one key uses pairwise distinct nonces. */
  lemma {:induction false} NoncesDistinct(i: nat, j: nat)
    requires i < j < i + NONCE_COUNT
    ensures NonceAt(i) != NonceAt(j)
  {
    NonceAtValue(i);
    NonceAtValue(j);
    ModuloDiffers(i, j);
  }

  lemma {:induction false} SuccessorStep(s: seq<Byte>, i: nat)
    requires i < |s|
    ensures Successor(s[..i + 1]) == if s[i] == 255 then Successor(s[..i]) + [0] else s[..i] + [s[i] as int + 1]
  {
    assert s[..i + 1][..i] == s[..i];
  }

  /** The carry loop: from the last byte on, until one does not wrap. */
  method Carry(nonce: array<Byte>)
    modifies nonce
    ensures nonce[..] == Successor(old(nonce[..]))
  {
    ghost var current := nonce[..];
    assert current[..nonce.Length] == current;
    var i := nonce.Length;
    while i > 0
      invariant 0 <= i <= nonce.Length
      invariant nonce[..i] == current[..i]
      invariant Successor(current) == Successor(current[..i]) + nonce[i..]
    {
      i := i - 1;
      SuccessorStep(current, i);
      ghost var before := nonce[i + 1..];
      nonce[i] := (nonce[i] as int + 1) % 256;
      assert nonce[i..] == [nonce[i]] + before;
      if nonce[i] != 0 {
        assert nonce[..] == nonce[..i] + nonce[i..];
        return;
      }
      Assoc(Successor(current[..i]), [0], before);
    }
  }

  class AeadKey {
    const cipher: Cipher
    const nonce: array<Byte>
    /** How many operations this key has performed. */
    ghost var uses: nat

    ghost predicate Valid()
      reads this, nonce
    {
      nonce.Length == NONCE_LEN && nonce[..] == NonceAt(uses)
    }

    constructor (cipher: Cipher)
      ensures Valid() && fresh(nonce) && this.cipher == cipher && uses == 0
    {
      this.cipher := cipher;
      this.nonce := new Byte[NONCE_LEN](_ => 0);
      this.uses := 0;
    }

    method IncrementNonce() returns (current: seq<Byte>)
      requires Valid()
      modifies this, nonce
      ensures Valid()
      ensures uses == old(uses) + 1
      ensures current == NonceAt(old(uses))
      ensures BeValue(nonce[..]) == (BeValue(current) + 1) % NONCE_COUNT
    {
      current := nonce[..];
      Carry(nonce);
      SuccessorModulo(current);
      uses := uses + 1;
    }

    method Seal(plaintext: seq<Byte>, aad: seq<Byte>) returns (r: Option<seq<Byte>>)
      requires Valid()
      modifies this, nonce
      ensures Valid() && uses == old(uses) + 1
      ensures r == cipher.encrypt(NonceAt(old(uses)), plaintext, aad)
    {
      var n := IncrementNonce();
      r := cipher.encrypt(n, plaintext, aad);
    }

    method Open(ciphertext: seq<Byte>, aad: seq<Byte>) returns (r: Option<seq<Byte>>)
      requires Valid()
      modifies this, nonce
      ensures Valid() && uses == old(uses) + 1
      ensures r == cipher.decrypt(NonceAt(old(uses)), ciphertext, aad)
    {
      var n := IncrementNonce();
      r := cipher.decrypt(n, ciphertext, aad);
    }
  }
}
