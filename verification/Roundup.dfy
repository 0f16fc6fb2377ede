/** The roundup macro as the source computes it, with a bit mask, and when that is rounding. */
module Roundup {
  import opened Words

  // Bitwise conjunction, least significant bit first.
  function And(a: nat, b: nat): (r: nat)
    ensures r <= b
  {
    if a == 0 || b == 0 then 0 else 2 * And(a / 2, b / 2) + if a % 2 == 1 && b % 2 == 1 then 1 else 0
  }

  // ((x) + ((y) - 1)) & (~((y) - 1)) on unsigned 32-bit operands: the complement keeps the
  // bits of the sum that are not in y - 1.
  function Mask(x: U32, y: U32): (r: int)
  {
    var sum := Wrap32(x + Wrap32(y - 1));
    sum - And(sum, Wrap32(y - 1))
  }

  lemma {:induction false} MaskOfNonzero(x: U32, y: U32)
    requires 0 < y && x + y <= TWO32
    ensures Mask(x, y) == x + (y - 1) - And(x + (y - 1), y - 1)
  {
    WrapSmall(y - 1);
    WrapSmall(x + (y - 1));
  }

  lemma WrapSmall(x: nat)
    requires x < TWO32
    ensures Wrap32(x) == x
  {
  }

  lemma MaskOfZero(x: U32)
    ensures Mask(x, 0) == Wrap32(x - 1) - And(Wrap32(x - 1), TWO32 - 1)
  {
  }

  /** `r` is the least multiple of `y` that is at least `x`. */
  predicate LeastMultiple(r: int, x: nat, y: nat)
    requires 0 < y
  {
    r % y == 0 && x <= r < x + y
  }

  // One bit at a time.
  lemma AndOfBits(a: nat, i: nat, b: nat, j: nat)
    requires i < 2 && j < 2
    ensures And(2 * a + i, 2 * b + j) == 2 * And(a, b) + if i == 1 && j == 1 then 1 else 0
  {
    assert (2 * a + i) / 2 == a && (2 * b + j) / 2 == b;
  }

  lemma {:induction false} AndIsRemainder(a: nat, y: nat)
    requires 0 < y && And(y, y - 1) == 0
    ensures And(a, y - 1) == a % y
    decreases y, 1
  {
    if y > 1 {
      var h := y / 2;
      PowerIsEven(h, y % 2);
      AndIsRemainderEven(a / 2, a % 2, h);
    }
  }

  lemma {:induction false} AndIsRemainderEven(a: nat, i: nat, h: nat)
    requires i < 2 && 0 < h && And(h, h - 1) == 0
    ensures And(2 * a + i, 2 * h - 1) == (2 * a + i) % (2 * h)
    decreases 2 * h, 0
  {
    AndOfBits(a, i, h - 1, 1);
    AndIsRemainder(a, h);
    Halved(a, i, h);
  }

  // A number above one that shares no bit with its predecessor is even, and so on down.
  lemma PowerIsEven(h: nat, i: nat)
    requires 0 < h && i < 2 && And(2 * h + i, 2 * h + i - 1) == 0
    ensures i == 0 && And(h, h - 1) == 0
  {
    if i == 1 {
      OddMeets(h);
    } else {
      EvenHalf(h);
    }
  }

  lemma EvenHalf(h: nat)
    requires 0 < h
    ensures And(2 * h, 2 * h - 1) == 2 * And(h, h - 1)
  {
    AndOfBits(h, 0, h - 1, 1);
  }

  lemma {:induction false} OddMeets(h: nat)
    requires 0 < h
    ensures And(2 * h + 1, 2 * h) != 0
  {
    AndSelf(h);
    AndOfBits(h, 1, h, 0);
  }

  lemma {:induction false} AndSelf(a: nat)
    ensures And(a, a) == a
  {
    if a > 0 {
      AndSelf(a / 2);
    }
  }

  lemma Halved(a: nat, i: nat, h: nat)
    requires i < 2 && 0 < h
    ensures (2 * a + i) % (2 * h) == 2 * (a % h) + i
  {
    var q, r := a / h, a % h;
    assert a == h * q + r;
    assert 2 * a + i == 2 * (h * q) + (2 * r + i);
    assert 2 * (h * q) == 2 * h * q;
    Remainder(2 * a + i, 2 * h, q, 2 * r + i);
  }

  lemma Remainder(a: nat, y: nat, q: nat, r: nat)
    requires r < y && a == y * q + r
    ensures a % y == r
  {
    var p, s := a / y, a % y;
    assert a == y * p + s;
    assert y * (p - q) == r - s;
    if p >= q {
      Small(y, p - q);
    } else {
      Small(y, q - p);
    }
  }

  lemma Small(y: nat, d: nat)
    requires y * d < y
    ensures d == 0
  {
    if d >= 1 {
      Product(y, d - 1);
    }
  }

  lemma Product(y: nat, d: nat)
    ensures y * (d + 1) == y * d + y && y * d >= 0
  {
  }

  // The macro rounds up every length exactly when the block size shares no bit with its
  // predecessor, that is when it is a power of two.
  lemma MaskRoundsIff(y: U32)
    requires 0 < y
    ensures (forall x: U32 :: x + y <= TWO32 ==> LeastMultiple(Mask(x, y), x, y)) <==> And(y, y - 1) == 0
  {
    if And(y, y - 1) == 0 {
      forall x: U32 | x + y <= TWO32
        ensures LeastMultiple(Mask(x, y), x, y)
      {
        MaskRounds(x, y);
      }
    } else {
      MaskMissesOne(y);
    }
  }

  lemma {:induction false} MaskRounds(x: U32, y: U32)
    requires 0 < y && x + y <= TWO32 && And(y, y - 1) == 0
    ensures LeastMultiple(Mask(x, y), x, y)
  {
    var s: nat := x + (y - 1);
    MaskOfNonzero(x, y);
    AndIsRemainder(s, y);
    MultipleBelow(s, y, And(s, y - 1), Mask(x, y));
  }

  lemma {:induction false} MaskMissesOne(y: U32)
    requires 0 < y < TWO32 && And(y, y - 1) != 0
    ensures !LeastMultiple(Mask(1, y), 1, y)
  {
    MaskOfNonzero(1, y);
    Remainder(y - And(y, y - 1), y, 0, y - And(y, y - 1));
  }

  lemma MultipleBelow(s: nat, y: nat, a: nat, r: int)
    requires 0 < y && a == s % y && r == s - a
    ensures r % y == 0 && r <= s < r + y
  {
    assert r == y * (s / y) + 0;
    Remainder(r, y, s / y, 0);
  }

  // Whatever the block size, only zero makes the result too short for the frame.
  lemma MaskCovers(x: U32, y: U32)
    requires x + y <= TWO32
    ensures x <= Mask(x, y) < TWO32 <==> 0 < y || x == 0
    ensures y == 0 ==> Mask(x, y) == 0
  {
    if y == 0 {
      MaskOfZero(x);
      AndWord(Wrap32(x - 1));
    } else {
      MaskOfNonzero(x, y);
    }
  }

  lemma AndWord(a: U32)
    ensures And(a, TWO32 - 1) == a
  {
    assert Pow2(8) == 0x100;
    PowSum(8, 8);
    PowSum(16, 16);
    AndAll(a, 32);
  }

  function Pow2(k: nat): (p: nat)
    ensures 0 < p
  {
    if k == 0 then 1 else 2 * Pow2(k - 1)
  }

  lemma {:induction false} PowSum(j: nat, k: nat)
    ensures Pow2(j + k) == Pow2(j) * Pow2(k)
  {
    if j > 0 {
      PowSum(j - 1, k);
    }
  }

  lemma {:induction false} AndAll(a: nat, k: nat)
    requires a < Pow2(k)
    ensures And(a, Pow2(k) - 1) == a
  {
    if k > 0 {
      AndAll(a / 2, k - 1);
      AndOfBits(a / 2, a % 2, Pow2(k - 1) - 1, 1);
    }
  }

  // roundup(x, 4), which the memory writes use.
  lemma MaskIsRoundUp4(x: U32)
    requires x + 4 <= TWO32
    ensures Mask(x, 4) == RoundUp4(x)
  {
    assert And(4, 3) == 0;
    MaskOfNonzero(x, 4);
    AndIsRemainder(x + 3, 4);
  }

  // Of two powers of two the smaller divides the larger.
  lemma {:induction false} PowerDivides(y: nat, p: nat)
    requires 0 < p <= y && And(y, y - 1) == 0 && And(p, p - 1) == 0
    ensures y % p == 0
  {
    if p > 1 {
      PowerIsEven(y / 2, y % 2);
      PowerIsEven(p / 2, p % 2);
      PowerDivides(y / 2, p / 2);
      Halved(y / 2, 0, p / 2);
    }
  }

  lemma {:induction false} BlocksOf512(y: nat)
    requires 512 <= y && And(y, y - 1) == 0
    ensures y % 512 == 0
  {
    And512();
    PowerDivides(y, 512);
  }

  lemma And512()
    ensures And(512, 511) == 0
  {
    EvenHalf(256);
    EvenHalf(128);
    EvenHalf(64);
    EvenHalf(32);
    EvenHalf(16);
    EvenHalf(8);
    EvenHalf(4);
    EvenHalf(2);
  }

  // A small power of two leaves a length of 513 between two blocks.
  lemma {:induction false} SmallBlockSize(y: U32)
    requires 0 < y < 512 && And(y, y - 1) == 0
    ensures Mask(513, y) == 512 + y
  {
    MaskRounds(513, y);
    And512();
    PowerDivides(512, y);
    NextMultiple(Mask(513, y), y, 512);
  }

  lemma NextMultiple(r: nat, y: nat, m: nat)
    requires 0 < y && r % y == 0 && m % y == 0 && m < r <= m + y
    ensures r == m + y
  {
    var d := r / y - m / y;
    assert r == y * (r / y) && m == y * (m / y);
    assert r - m == y * d;
    if d >= 2 {
      Product(y, d - 2);
      Product(y, d - 1);
    }
  }

  lemma {:induction false} AndSymmetric(a: nat, b: nat)
    ensures And(a, b) == And(b, a)
  {
    if a > 0 && b > 0 {
      AndSymmetric(a / 2, b / 2);
    }
  }

  // The low bits of a conjunction come from the low bits.
  lemma {:induction false} AndLow(a: nat, m: nat, k: nat)
    ensures And(a, m) % Pow2(k) == And(a % Pow2(k), m % Pow2(k))
  {
    if k > 0 {
      var a', m', h := a / 2, m / 2, Pow2(k - 1);
      AndLow(a', m', k - 1);
      AndLowBit(a', a % 2, m', m % 2, h);
    }
  }

  lemma {:induction false} AndLowBit(a: nat, i: nat, m: nat, j: nat, h: nat)
    requires i < 2 && j < 2 && 0 < h && And(a, m) % h == And(a % h, m % h)
    ensures And(2 * a + i, 2 * m + j) % (2 * h) == And((2 * a + i) % (2 * h), (2 * m + j) % (2 * h))
  {
    var both := if i == 1 && j == 1 then 1 else 0;
    Halved(a, i, h);
    Halved(m, j, h);
    AndOfBits(a, i, m, j);
    Halved(And(a, m), both, h);
    AndOfBits(a % h, i, m % h, j);
  }

  lemma {:induction false} Low9(s: nat, m: nat)
    ensures And(s, m) % 512 == And(s % 512, m % 512)
  {
    assert Pow2(9) == 512;
    AndLow(s, m, 9);
  }

  lemma {:induction false} AllOnes9(z: nat)
    requires z < 512
    ensures And(z, 511) == z && And(511, z) == z
  {
    assert Pow2(9) == 512;
    AndAll(z, 9);
    AndSymmetric(511, z);
  }

  lemma {:induction false} LowKept(s: nat, m: nat)
    requires m % 512 == 511
    ensures And(s, m) % 512 == s % 512
  {
    Low9(s, m);
    AllOnes9(s % 512);
  }

  lemma {:induction false} LowLost(s: nat, m: nat)
    requires s % 512 == 511 && m % 512 != 511
    ensures And(s, m) % 512 != 511
  {
    Low9(s, m);
    AllOnes9(m % 512);
  }

  // Any block size that is a multiple of 512 gives multiples of 512.
  lemma {:induction false} BlockMultiple(x: U32, y: U32)
    requires 0 < y && y % 512 == 0 && x + y <= TWO32
    ensures Mask(x, y) % 512 == 0
  {
    MultipleLength(x, y, y - 1, x + (y - 1));
  }

  lemma {:induction false} MultipleLength(x: U32, y: U32, m: nat, s: nat)
    requires y == m + 1 && x + m == s && m % 512 == 511 && s < TWO32
    ensures Mask(x, y) % 512 == 0
  {
    MaskOfNonzero(x, y);
    LowKept(s, m);
    SameLow(s, And(s, m));
  }

  lemma SameLow(s: nat, a: nat)
    requires a % 512 == s % 512
    ensures (s - a) % 512 == 0
  {
  }

  // Any other block size makes some frame length at least 512 and no multiple of 512.
  lemma {:induction false} OddBlock(y: U32) returns (x: U32)
    requires y < TWO16 && y % 512 != 0
    ensures 1024 <= x < TWO16 && Mask(x, y) >= 512 && Mask(x, y) % 512 != 0
  {
    var m: nat := y - 1;
    if m < 1024 {
      x := 2047 - m;
      OddLength(x, y, m, 2047);
    } else {
      x := 66559 - m;
      OddLength(x, y, m, 66559);
    }
  }

  lemma {:induction false} OddLength(x: U32, y: U32, m: nat, s: nat)
    requires y == m + 1 && x + m == s && s % 512 == 511 && m % 512 != 511 && m + 512 <= s < TWO32
    ensures Mask(x, y) >= 512 && Mask(x, y) % 512 != 0
  {
    MaskOfNonzero(x, y);
    LowLost(s, m);
    OtherLow(s, And(s, m));
  }

  lemma OtherLow(s: nat, a: nat)
    requires s % 512 == 511 && a % 512 != 511
    ensures (s - a) % 512 != 0
  {
  }
}
