/**
 Machine words as the C sources use them: bytes, 16- and 32-bit unsigned
 integers with explicit wrap-around, little-endian storage, and rounding up to a
 multiple. Bit masks of the form `x & ~3` or `x & (2^k - 1)` are written as the
 arithmetic they compute; module Roundup justifies this from the bits.
 */
module Words {
  const TWO16 := 0x1_0000
  const TWO32 := 0x1_0000_0000

  type Byte = x: int | 0 <= x < 0x100
  type U16 = x: int | 0 <= x < 0x1_0000
  type U32 = x: int | 0 <= x < 0x1_0000_0000

  function Min(a: int, b: int): int {
    if a <= b then a else b
  }

  // Unsigned 32-bit arithmetic keeps results modulo 2^32.
  function Wrap32(x: int): U32 {
    x % TWO32
  }

  // roundup(x, 4), and also `(x + 3) & ~3`.
  function RoundUp4(x: nat): nat {
    (x + 3) / 4 * 4
  }

  function Le16(x: U16): (s: seq<Byte>)
    ensures |s| == 2
  {
    [x % 256, x / 256]
  }

  function Le32(x: U32): (s: seq<Byte>)
    ensures |s| == 4
  {
    [x % 256, x / 256 % 256, x / 256 / 256 % 256, x / 256 / 256 / 256]
  }

  function U16At(s: seq<Byte>, i: nat): U16
    requires i + 2 <= |s|
  {
    s[i] as int + 256 * (s[i + 1] as int)
  }

  function U32At(s: seq<Byte>, i: nat): U32
    requires i + 4 <= |s|
  {
    s[i] as int + 256 * (s[i + 1] as int + 256 * (s[i + 2] as int + 256 * (s[i + 3] as int)))
  }

  lemma SliceOfSlice<T>(s: seq<T>, lo: nat, hi: nat, i: nat, j: nat)
    requires lo <= hi <= |s| && i <= j <= hi - lo
    ensures s[lo..hi][i..j] == s[lo + i..lo + j]
  {
    var a, b := s[lo..hi][i..j], s[lo + i..lo + j];
    assert |a| == |b|;
    assert forall k :: 0 <= k < |b| ==> a[k] == s[lo..hi][i + k] == s[lo + (i + k)] == b[k];
  }

  lemma Le16RoundTrip(x: U16, s: seq<Byte>, i: nat)
    requires i + 2 <= |s| && s[i..i + 2] == Le16(x)
    ensures U16At(s, i) == x
  {
    assert s[i] == s[i..i + 2][0] && s[i + 1] == s[i..i + 2][1];
  }

  lemma Le32RoundTrip(x: U32, s: seq<Byte>, i: nat)
    requires i + 4 <= |s| && s[i..i + 4] == Le32(x)
    ensures U32At(s, i) == x
  {
    var t := s[i..i + 4];
    assert s[i] == t[0] && s[i + 1] == t[1] && s[i + 2] == t[2] && s[i + 3] == t[3];
  }

  // The other direction: four bytes are the encoding of the word they decode to.
  lemma Le32Exact(s: seq<Byte>, i: nat)
    requires i + 4 <= |s|
    ensures Le32(U32At(s, i)) == s[i..i + 4]
  {
    var x := U32At(s, i);
    var b1: int, b2: int, b3: int := s[i + 1], s[i + 2], s[i + 3];
    assert x / 256 == b1 + 256 * (b2 + 256 * b3);
    assert x / 256 / 256 == b2 + 256 * b3;
  }

  // Wrapping early does not change the outcome.
  lemma WrapAdds(x: int, n: int)
    ensures Wrap32(Wrap32(x) + n) == Wrap32(x + n)
  {
    var q := (x + n) / TWO32 - x / TWO32;
    assert Wrap32(x) + n == (x + n) % TWO32 + TWO32 * q;
  }
}
