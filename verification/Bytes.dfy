/** Bytes and little-endian fields. */
module Bytes {

  type byte = x: int | 0 <= x < 256

  type Bytes = seq<byte>

  type uint16 = x: int | 0 <= x < 0x1_0000

  type uint32 = x: int | 0 <= x < 0x1_0000_0000

  function U16(b: Bytes, at: nat): uint16
    requires at + 2 <= |b|
  {
    b[at] as int + 0x100 * b[at + 1] as int
  }

  function U32(b: Bytes, at: nat): uint32
    requires at + 4 <= |b|
  {
    b[at] as int + 0x100 * b[at + 1] as int + 0x1_0000 * b[at + 2] as int + 0x100_0000 * b[at + 3] as int
  }

  function LE16(n: uint16): (b: Bytes)
    ensures |b| == 2 && U16(b, 0) == n
  {
    [n % 0x100, n / 0x100]
  }

  function LE32(n: uint32): (b: Bytes)
    ensures |b| == 4 && U32(b, 0) == n
  {
    var upper := n / 0x100;
    var top := upper / 0x100;
    [n % 0x100, upper % 0x100, top % 0x100, top / 0x100]
  }

  lemma ReadBack16(b: Bytes, at: nat)
    requires at + 2 <= |b|
    ensures LE16(U16(b, at)) == b[at..at + 2]
  {
  }

  lemma ReadBack32(b: Bytes, at: nat)
    requires at + 4 <= |b|
    ensures LE32(U32(b, at)) == b[at..at + 4]
  {
    DigitsBase256(b[at], b[at + 1], b[at + 2], b[at + 3]);
  }

  lemma DigitsBase256(p: byte, q: byte, r: byte, s: byte)
    ensures LE32(p as int + 0x100 * q as int + 0x1_0000 * r as int + 0x100_0000 * s as int) == [p, q, r, s]
  {
    var top := r as int + 0x100 * s as int;
    var upper := q as int + 0x100 * top;
    var n := p as int + 0x100 * upper;
    assert n / 0x100 == upper && n % 0x100 == p;
    assert upper / 0x100 == top && upper % 0x100 == q;
    assert top / 0x100 == s && top % 0x100 == r;
  }

  /** A field inside a larger buffer reads as it does on its own. */
  lemma Inside16(b: Bytes, at: nat, n: uint16)
    requires at + 2 <= |b| && b[at..at + 2] == LE16(n)
    ensures U16(b, at) == n
  {
    assert b[at] == b[at..at + 2][0] && b[at + 1] == b[at..at + 2][1];
  }

  lemma Inside32(b: Bytes, at: nat, n: uint32)
    requires at + 4 <= |b| && b[at..at + 4] == LE32(n)
    ensures U32(b, at) == n
  {
    var f := b[at..at + 4];
    assert b[at] == f[0] && b[at + 1] == f[1] && b[at + 2] == f[2] && b[at + 3] == f[3];
  }

  lemma SubSlice(b: Bytes, at: nat, n: nat, i: nat, j: nat)
    requires at + n <= |b| && i <= j <= n
    ensures b[at..at + n][i..j] == b[at + i..at + j]
  {
    var l, r := b[at..at + n][i..j], b[at + i..at + j];
    forall k | 0 <= k < j - i
      ensures l[k] == r[k]
    {
      assert l[k] == b[at..at + n][i + k] == b[at + i + k];
    }
    assert l == r;
  }

  lemma FourParts(b: Bytes, h: nat, i: nat, j: nat, k: nat, l: nat)
    requires h <= i <= j <= k <= l <= |b|
    ensures b[h..i] + b[i..j] + b[j..k] + b[k..l] == b[h..l]
  {
  }
}
