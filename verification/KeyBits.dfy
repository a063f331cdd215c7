/** A key buffer read as a bit path, most significant bit first. */
module KeyBits {

  type KeyBuf = seq<bv8>
  type Path = seq<bool>

  /** 0x80 >> j. */
  function Mask(j: nat): bv8
    requires j < 8
  {
    if j == 0 then 0x80 else if j == 1 then 0x40 else if j == 2 then 0x20 else if j == 3 then 0x10
    else if j == 4 then 0x08 else if j == 5 then 0x04 else if j == 6 then 0x02 else 0x01
  }

  predicate BitAt(key: KeyBuf, i: nat)
    requires i < 8 * |key|
  {
    key[i / 8] & Mask(i % 8) != 0
  }

  function Bits(key: KeyBuf): (p: Path)
    ensures |p| == 8 * |key|
    ensures forall i :: 0 <= i < |p| ==> p[i] == BitAt(key, i)
  {
    seq(8 * |key|, i requires 0 <= i < 8 * |key| => BitAt(key, i))
  }

  /** Bits read past the end of a key are clear. */
  predicate BitOrZero(key: Path, i: nat) {
    i < |key| && key[i]
  }

  /** The first n bits read from a key of any length. */
  function Fit(key: Path, n: nat): (p: Path)
    ensures |p| == n && forall i :: 0 <= i < n ==> p[i] == BitOrZero(key, i)
    ensures |key| == n ==> p == key
  {
    seq(n, i requires 0 <= i < n => BitOrZero(key, i))
  }

  /** A longer key is read as its first bits, a shorter one as if clear bits followed. */
  lemma FitCutsOrPads(key: Path, n: nat)
    ensures |key| >= n ==> Fit(key, n) == key[..n]
    ensures |key| < n ==> Fit(key, n)[..|key|] == key && forall i :: |key| <= i < n ==> !Fit(key, n)[i]
  {
  }

  /** Binary digit j of a byte, counted from the most significant one: shifting right by 7 - j, the quotient by that
      power of two, leaves it last. */
  predicate Digit(b: bv8, j: nat)
    requires j < 8
  {
    (b >> (7 - j)) & 1 == 1
  }

  lemma BitOfByte(b: bv8, j: nat)
    requires j < 8
    ensures b & Mask(j) != 0 <==> Digit(b, j)
  {
  }

  /** A path holds the binary digits of its bytes, the most significant one first. */
  lemma BitIsBinaryDigit(key: KeyBuf, i: nat)
    requires i < 8 * |key|
    ensures Bits(key)[i] <==> Digit(key[i / 8], i % 8)
  {
    BitOfByte(key[i / 8], i % 8);
  }

  lemma ByteIsItsBits(x: bv8, y: bv8)
    requires forall j :: 0 <= j < 8 ==> (x & Mask(j) != 0) == (y & Mask(j) != 0)
    ensures x == y
  {
    assert (x & Mask(0) != 0) == (y & Mask(0) != 0);
    assert (x & Mask(1) != 0) == (y & Mask(1) != 0);
    assert (x & Mask(2) != 0) == (y & Mask(2) != 0);
    assert (x & Mask(3) != 0) == (y & Mask(3) != 0);
    assert (x & Mask(4) != 0) == (y & Mask(4) != 0);
    assert (x & Mask(5) != 0) == (y & Mask(5) != 0);
    assert (x & Mask(6) != 0) == (y & Mask(6) != 0);
    assert (x & Mask(7) != 0) == (y & Mask(7) != 0);
  }

  lemma BufferIsItsBits(a: KeyBuf, b: KeyBuf)
    requires |a| == |b|
    requires forall i :: 0 <= i < 8 * |a| ==> BitAt(a, i) == BitAt(b, i)
    ensures a == b
  {
    forall k | 0 <= k < |a| ensures a[k] == b[k] {
      forall j | 0 <= j < 8 ensures (a[k] & Mask(j) != 0) == (b[k] & Mask(j) != 0) {
        assert BitAt(a, 8 * k + j) == BitAt(b, 8 * k + j);
        assert (8 * k + j) / 8 == k && (8 * k + j) % 8 == j;
      }
      ByteIsItsBits(a[k], b[k]);
    }
  }

  /** Two buffers have one path only if they are equal, so a tree keyed by paths is keyed by buffers. */
  lemma PathDeterminesBuffer(a: KeyBuf, b: KeyBuf)
    requires Bits(a) == Bits(b)
    ensures a == b
  {
    forall i | 0 <= i < 8 * |a| ensures BitAt(a, i) == BitAt(b, i) {
      assert Bits(a)[i] == Bits(b)[i];
    }
    BufferIsItsBits(a, b);
  }
}
