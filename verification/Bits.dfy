/**
  Exact bit operations on natural numbers. The C++ code works on unsigned words; here a
  word of `w` bits is a natural number below 2^w, and every operation is defined bit by
  bit. The lemmas turn the patterns the code uses (mask, flag, shift, disjoint or) into
  arithmetic.
 */
module Bits {
  type byte = x: int | 0 <= x < 0x100
  type uint32 = x: int | 0 <= x < 0x1_0000_0000
  type uint64 = x: int | 0 <= x < 0x1_0000_0000_0000_0000
  type Bytes = seq<byte>

  function Pow2(k: nat): (r: nat)
    ensures r >= 1
  {
    if k == 0 then 1 else 2 * Pow2(k - 1)
  }

  /** `x` times 2^k. */
  function Scale(x: nat, k: nat): nat
    decreases k, x
  {
    if k == 0 then x else 2 * Scale(x, k - 1)
  }

  function BitOr(a: nat, b: nat): nat
    decreases a + b
  {
    if a == 0 then b
    else if b == 0 then a
    else 2 * BitOr(a / 2, b / 2) + (if a % 2 == 1 || b % 2 == 1 then 1 else 0)
  }

  function BitAnd(a: nat, b: nat): nat
    decreases a + b
  {
    if a == 0 || b == 0 then 0
    else 2 * BitAnd(a / 2, b / 2) + (if a % 2 == 1 && b % 2 == 1 then 1 else 0)
  }

  /** The low `w` bits: conversion to a `w`-bit word. */
  function Low(x: nat, w: nat): nat
    decreases w, x
  {
    if w == 0 then 0 else 2 * Low(x / 2, w - 1) + x % 2
  }

  /** `x << s` in a word of `w` bits: bits that pass the word are lost. */
  function Shl(x: nat, s: nat, w: nat): nat
    decreases s, w, x
  {
    if w == 0 then 0
    else if s == 0 then Low(x, w)
    else 2 * Shl(x, s - 1, w - 1)
  }

  /** `x >> s`. */
  function Shr(x: nat, s: nat): nat
    decreases s, x
  {
    if s == 0 then x else Shr(x / 2, s - 1)
  }

  // ----- powers of two

  lemma Pow2Values()
    ensures Pow2(7) == 0x80 && Pow2(8) == 0x100 && Pow2(31) == 0x8000_0000
    ensures Pow2(32) == 0x1_0000_0000 && Pow2(56) == 0x100_0000_0000_0000
    ensures Pow2(64) == 0x1_0000_0000_0000_0000
  {
    assert Pow2(7) == 0x80;
    assert Pow2(14) == 0x4000;
    assert Pow2(21) == 0x20_0000;
    assert Pow2(28) == 0x1000_0000;
    assert Pow2(35) == 0x8_0000_0000;
    assert Pow2(42) == 0x400_0000_0000;
    assert Pow2(49) == 0x2_0000_0000_0000;
    assert Pow2(56) == 0x100_0000_0000_0000;
  }

  lemma {:induction false} Pow2Monotone(a: nat, b: nat)
    requires a <= b
    ensures Pow2(a) <= Pow2(b)
  {
    if a < b { Pow2Monotone(a, b - 1); }
  }

  lemma {:induction false} ScaleIsProduct(x: nat, k: nat)
    ensures Scale(x, k) == x * Pow2(k)
  {
    if k > 0 {
      ScaleIsProduct(x, k - 1);
      assert x * (2 * Pow2(k - 1)) == 2 * (x * Pow2(k - 1));
    }
  }

  /** Moving by seven or eight bits more. */
  lemma ScaleMore(x: nat, k: nat)
    ensures Scale(x, k + 7) == 128 * Scale(x, k) && Scale(x, k + 8) == 256 * Scale(x, k)
    ensures Pow2(k + 7) == 128 * Pow2(k) && Pow2(k + 8) == 256 * Pow2(k)
  {
    assert Scale(x, k + 4) == 16 * Scale(x, k) by { assert Scale(x, k + 2) == 4 * Scale(x, k); }
    assert Scale(x, k + 7) == 8 * Scale(x, k + 4) by { assert Scale(x, k + 6) == 4 * Scale(x, k + 4); }
    assert Pow2(k + 4) == 16 * Pow2(k) by { assert Pow2(k + 2) == 4 * Pow2(k); }
    assert Pow2(k + 7) == 8 * Pow2(k + 4) by { assert Pow2(k + 6) == 4 * Pow2(k + 4); }
  }

  // ----- words

  lemma {:induction false} LowBound(x: nat, w: nat)
    ensures Low(x, w) < Pow2(w)
    ensures x < Pow2(w) ==> Low(x, w) == x
  {
    if w > 0 { LowBound(x / 2, w - 1); }
  }

  /** A quotient and a remainder in range are the quotient and the remainder. */
  lemma DivModUnique(x: int, d: int, q: int, r: int)
    requires d > 0 && x == d * q + r && 0 <= r < d
    ensures x / d == q && x % d == r
  {
    var q', r' := x / d, x % d;
    assert x == d * q' + r';
    assert d * (q - q') == d * q - d * q' == r' - r;
    assert d * (q' - q) == d * q' - d * q == r - r';
    if q' < q {
      MulAtLeast(d, q - q');
      assert false;
    } else if q' > q {
      MulAtLeast(d, q' - q);
      assert false;
    }
  }

  lemma MulAtLeast(d: int, k: int)
    requires d > 0 && k >= 1
    ensures d * k >= d
  {
  }

  /** Keeping `w` bits is reducing modulo 2^w. */
  lemma {:induction false} LowIsMod(x: nat, w: nat)
    ensures Low(x, w) == x % Pow2(w)
  {
    var q := LowSplit(x, w);
    LowBound(x, w);
    DivModUnique(x, Pow2(w), q, Low(x, w));
  }

  lemma {:induction false} LowSplit(x: nat, w: nat) returns (q: nat)
    ensures x == Pow2(w) * q + Low(x, w) && q == Shr(x, w)
  {
    if w == 0 {
      q := x;
    } else {
      q := LowSplit(x / 2, w - 1);
      assert (2 * Pow2(w - 1)) * q == 2 * (Pow2(w - 1) * q);
    }
  }

  /** Shifting right divides. */
  lemma ShrIsDiv(x: nat, s: nat)
    ensures Shr(x, s) == x / Pow2(s)
  {
    var q := LowSplit(x, s);
    LowBound(x, s);
    DivModUnique(x, Pow2(s), q, Low(x, s));
  }

  lemma ShrMore(x: nat, s: nat)
    ensures Shr(x, s + 7) == Shr(x, s) / 128 && Shr(x, s + 8) == Shr(x, s) / 256
  {
    ShrAdd(x, s, 7);
    ShrAdd(x, s, 8);
    ShrSmall(Shr(x, s));
  }

  lemma {:induction false} ShrAdd(x: nat, s: nat, t: nat)
    ensures Shr(x, s + t) == Shr(Shr(x, s), t)
  {
    if s > 0 { ShrAdd(x / 2, s - 1, t); }
  }

  lemma ShrSmall(x: nat)
    ensures Shr(x, 0) == x && Shr(x, 7) == x / 128 && Shr(x, 8) == x / 256
  {
    Pow2Values();
    ShrIsDiv(x, 7);
    ShrIsDiv(x, 8);
  }

  // ----- masks and flags

  /** Masking with 2^k - 1 keeps the low `k` bits. */
  lemma {:induction false} AndMask(x: nat, k: nat)
    ensures BitAnd(x, Pow2(k) - 1) == Low(x, k)
  {
    if x == 0 {
      LowBound(x, k);
    } else if k > 0 {
      AndMask(x / 2, k - 1);
      assert (Pow2(k) - 1) / 2 == Pow2(k - 1) - 1;
    }
  }

  /** Masking with 2^k tests bit `k`. */
  lemma {:induction false} AndBit(x: nat, k: nat)
    ensures BitAnd(x, Pow2(k)) == (if Shr(x, k) % 2 == 1 then Pow2(k) else 0)
  {
    if x == 0 {
      ShrZero(k);
    } else if k == 0 {
      assert BitAnd(x / 2, 0) == 0;
    } else {
      AndBit(x / 2, k - 1);
      assert Pow2(k) / 2 == Pow2(k - 1) && Pow2(k) % 2 == 0;
    }
  }

  lemma {:induction false} ShrZero(k: nat)
    ensures Shr(0, k) == 0
  {
    if k > 0 { ShrZero(k - 1); }
  }

  /** The low bits after setting bit `k`. */
  lemma {:induction false} OrBit(x: nat, k: nat)
    ensures Low(BitOr(x, Pow2(k)), k + 1) == Low(x, k) + Pow2(k)
  {
    if x == 0 {
      LowBound(0, k);
      LowBound(Pow2(k), k + 1);
    } else if k == 0 {
      assert BitOr(x / 2, 0) == x / 2;
    } else {
      OrBit(x / 2, k - 1);
      assert Pow2(k) / 2 == Pow2(k - 1) && Pow2(k) % 2 == 0;
    }
  }

  /** Or of numbers with disjoint bits is their sum. */
  lemma {:induction false} OrDisjoint(a: nat, b: nat, k: nat)
    requires a < Pow2(k)
    ensures BitOr(a, Scale(b, k)) == a + Scale(b, k)
  {
    if k > 0 && a > 0 && b > 0 {
      OrDisjoint(a / 2, b, k - 1);
    } else if b == 0 {
      ScaleIsProduct(0, k);
    }
  }

  /** One accumulation step of a decoder: the bits of `b` are placed above those of `r`
      and whatever passes the word is lost. */
  lemma {:induction false} OrShifted(r: nat, b: nat, s: nat, w: nat)
    requires r < Pow2(s) && s <= w
    ensures BitOr(r, Shl(b, s, w)) == Low(r + Scale(b, s), w)
  {
    if s > 0 {
      OrShifted(r / 2, b, s - 1, w - 1);
      assert (r + Scale(b, s)) / 2 == r / 2 + Scale(b, s - 1);
      assert Shl(b, s, w) / 2 == Shl(b, s - 1, w - 1) && Shl(b, s, w) % 2 == 0;
      if r == 0 || Shl(b, s, w) == 0 {
        assert BitOr(r / 2, 0) == r / 2;
      }
    }
  }

  // ----- the byte-sized instances used by the codecs

  lemma ByteFlag(x: byte)
    ensures BitAnd(x, 128) == (if x >= 128 then 128 else 0)
  {
    Pow2Values();
    AndBit(x, 7);
    ShrSmall(x);
  }

  lemma ByteMask(x: byte)
    ensures BitAnd(x, 127) == Low(x, 7) == x % 128
  {
    Pow2Values();
    AndMask(x, 7);
    LowIsMod(x, 7);
  }

  /** The byte stored by `*ptr = v | 128`. */
  lemma FlaggedByte(v: nat)
    ensures Low(BitOr(v, 128), 8) == 128 + v % 128
  {
    Pow2Values();
    OrBit(v, 7);
    LowIsMod(v, 7);
  }
}
