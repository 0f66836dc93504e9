/**
  The linear congruential generator that draws skip list heights: multiplication by 16807
  modulo 2^31 - 1, done with a shift and a mask instead of a division.
 */
module Random {
  import opened Bits

  const M: nat := 0x7fff_ffff
  const A: nat := 16807
  /** 16807 times this is one more than a multiple of M. */
  const A_INVERSE: nat := 1407677000

  /** The sequence of seeds. */
  function NextSeed(s: nat): nat {
    (A * s) % M
  }

  predicate IsSeed(s: nat) {
    1 <= s < M
  }

  class Random {
    var seed: uint32

    ghost predicate Valid()
      reads this
    {
      IsSeed(seed)
    }

    constructor (s: uint32)
      ensures Valid()
      ensures seed == InitialSeed(s) && (IsSeed(s) ==> seed == s)
    {
      var masked := BitAnd(s, 0x7fff_ffff);
      MaskSeed(s);
      seed := if masked == 0 || masked == 2147483647 then 1 else masked;
    }

    method Next() returns (r: uint32)
      requires Valid()
      modifies this
      ensures Valid() && r == seed == NextSeed(old(seed))
    {
      var product: nat := seed * A;
      FoldIsMod(seed);
      var sum := Low(Shr(product, 31) + BitAnd(product, M), 32);
      seed := if sum > M then sum - M else sum;
      r := seed;
    }

    method OneIn(n: nat) returns (b: bool)
      requires Valid() && n > 0
      modifies this
      ensures Valid() && seed == NextSeed(old(seed)) && (b <==> seed % n == 0)
    {
      var v := Next();
      b := v % n == 0;
    }
  }

  lemma MaskSeed(s: uint32)
    ensures BitAnd(s, 0x7fff_ffff) == s % 0x8000_0000
  {
    Pow2Values();
    AndMask(s, 31);
    LowIsMod(s, 31);
  }

  /** Undoing a step. */
  lemma InverseStep(s: nat)
    requires IsSeed(s)
    ensures (A_INVERSE * NextSeed(s)) % M == s
  {
    var q := (A * s) / M;
    var r := NextSeed(s);
    assert A * s == M * q + r;
    assert A_INVERSE * A == 1 + 11017 * M;
    var k := 11017 * s - A_INVERSE * q;
    assert A_INVERSE * r == A_INVERSE * A * s - A_INVERSE * (M * q);
    assert A_INVERSE * r == M * k + s;
    DivModUnique(A_INVERSE * r, M, k, s);
  }

  /** The seed never becomes 0 or the modulus. */
  lemma NextSeedInRange(s: nat)
    requires IsSeed(s)
    ensures IsSeed(NextSeed(s))
  {
    InverseStep(s);
  }

  /** Distinct seeds have distinct successors, so the seeds lie on cycles. */
  lemma NextSeedInjective(s: nat, t: nat)
    requires IsSeed(s) && IsSeed(t) && NextSeed(s) == NextSeed(t)
    ensures s == t
  {
    InverseStep(s);
    InverseStep(t);
  }

  /** Folding the high bits onto the low 31 and subtracting once is the remainder. */
  lemma FoldIsMod(s: nat)
    requires IsSeed(s)
    ensures var product := s * A;
            var sum := Low(Shr(product, 31) + BitAnd(product, M), 32);
            NextSeed(s) == (if sum > M then sum - M else sum) && IsSeed(NextSeed(s))
  {
    hide BitAnd, Shr, Low, NextSeed;
    var product: nat := s * A;
    Cut31(product);
    ProductBound(s, Shr(product, 31), BitAnd(product, M));
    NextSeedInRange(s);
    NextSeedIs(s);
    CastOut(product, Shr(product, 31), BitAnd(product, M));
    Fits32(Shr(product, 31) + BitAnd(product, M));
  }

  lemma Cut31(x: nat)
    ensures x == 0x8000_0000 * Shr(x, 31) + BitAnd(x, M) && BitAnd(x, M) <= M
  {
    Pow2Values();
    var hi := LowSplit(x, 31);
    AndMask(x, 31);
    LowBound(x, 31);
  }

  lemma ProductBound(s: nat, hi: nat, lo: nat)
    requires IsSeed(s) && s * A == 0x8000_0000 * hi + lo
    ensures hi < 16807
  {
  }

  lemma Fits32(x: nat)
    ensures x < 0x1_0000_0000 ==> Low(x, 32) == x
  {
    Pow2Values();
    LowBound(x, 32);
  }

  lemma NextSeedIs(s: nat)
    ensures NextSeed(s) == (s * A) % M
  {
  }

  /** Casting out 2^31 - 1 from a number cut into its high part and its low 31 bits. */
  lemma CastOut(product: nat, hi: nat, lo: nat)
    requires product == 0x8000_0000 * hi + lo && hi < 16807 && lo <= M
    ensures product % M == if hi + lo < M then hi + lo else hi + lo - M
  {
    if hi + lo < M {
      DivModUnique(product, M, hi, hi + lo);
    } else {
      DivModUnique(product, M, hi + 1, hi + lo - M);
    }
  }

  /** The seed after `n` draws. */
  function SeedAfter(s: nat, n: nat): nat {
    if n == 0 then s else NextSeed(SeedAfter(s, n - 1))
  }

  /** The seed the constructor makes of its argument. */
  function InitialSeed(arg: uint32): nat {
    if arg % 0x8000_0000 == 0 || arg % 0x8000_0000 == M then 1 else arg % 0x8000_0000
  }

  /** What the constructor does with its argument: the top bit is ignored, a number that can be a
      seed is kept, so that distinct ones make distinct generators, and the other two give 1. */
  lemma InitialSeedIs(arg: uint32)
    ensures IsSeed(arg) ==> InitialSeed(arg) == arg
    ensures arg < 0x8000_0000 ==> InitialSeed(arg + 0x8000_0000) == InitialSeed(arg)
    ensures InitialSeed(arg) == 1 <==> arg % 0x8000_0000 in {0, 1, 2147483647}
  {
  }

  /** Generators made with different seeds never agree after the same number of draws. */
  lemma DifferentStayDifferent(a: uint32, b: uint32, n: nat)
    requires IsSeed(a) && IsSeed(b) && a != b
    ensures SeedAfter(InitialSeed(a), n) != SeedAfter(InitialSeed(b), n)
  {
    InitialSeedIs(a);
    InitialSeedIs(b);
    if SeedAfter(a, n) == SeedAfter(b, n) { SeedAfterInjective(a, b, n); }
  }

  /** From every constructor argument, after any number of draws, the seed is in range. */
  lemma {:induction false} SeedsStayInRange(arg: uint32, n: nat)
    ensures IsSeed(SeedAfter(InitialSeed(arg), n))
  {
    if n > 0 {
      SeedsStayInRange(arg, n - 1);
      NextSeedInRange(SeedAfter(InitialSeed(arg), n - 1));
    }
  }

  /** Two generators that ever agree after the same number of draws always agreed. */
  lemma {:induction false} SeedAfterInjective(s: nat, t: nat, n: nat)
    requires IsSeed(s) && IsSeed(t) && SeedAfter(s, n) == SeedAfter(t, n)
    ensures s == t
  {
    if n > 0 {
      SeedAfterInRange(s, n - 1);
      SeedAfterInRange(t, n - 1);
      NextSeedInjective(SeedAfter(s, n - 1), SeedAfter(t, n - 1));
      SeedAfterInjective(s, t, n - 1);
    }
  }

  lemma {:induction false} SeedAfterInRange(s: nat, n: nat)
    requires IsSeed(s)
    ensures IsSeed(SeedAfter(s, n))
  {
    if n > 0 {
      SeedAfterInRange(s, n - 1);
      NextSeedInRange(SeedAfter(s, n - 1));
    }
  }

  /** The first seed to recur is the first seed. */
  lemma FirstToRecur(s: nat, i: nat, k: nat)
    requires IsSeed(s) && SeedAfter(s, i + k) == SeedAfter(s, i)
    ensures SeedAfter(s, k) == s
  {
    SeedAfterSum(s, k, i);
    SeedAfterInRange(s, k);
    SeedAfterInjective(SeedAfter(s, k), s, i);
  }

  lemma {:induction false} SeedAfterSum(s: nat, k: nat, i: nat)
    ensures SeedAfter(s, k + i) == SeedAfter(SeedAfter(s, k), i)
  {
    if i > 0 { SeedAfterSum(s, k, i - 1); }
  }
}
