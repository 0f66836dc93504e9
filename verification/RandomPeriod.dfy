/**
  The period of the generator. 16807 is a primitive root modulo 2^31 - 1, so the seeds form
  one cycle: every generator, whatever it was constructed with, goes through all of them.
 */
module RandomPeriod {
  import opened Bits
  import opened Random

  /** The number of seeds. */
  const PERIOD: nat := 2147483646

  // ----- seeds as powers

  lemma ModAdd(k: nat, z: nat)
    ensures (M * k + z) % M == z % M
  {
    DivModUnique(M * k + z, M, k + z / M, z % M);
  }

  lemma MulMod(x: nat, y: nat)
    ensures (x * (y % M)) % M == (x * y) % M
  {
    var q, r := y / M, y % M;
    assert x * y == x * (M * q) + x * r == M * (x * q) + x * r;
    ModAdd(x * q, x * r);
  }

  /** Drawing `n` times multiplies by the `n`-th seed after 1. */
  lemma {:induction false} SeedIsProduct(s: nat, n: nat)
    requires IsSeed(s)
    ensures SeedAfter(s, n) == (SeedAfter(1, n) * s) % M
  {
    if n == 0 {
      DivModUnique(s, M, 0, s);
    } else {
      SeedIsProduct(s, n - 1);
      OneFactor(A, SeedAfter(1, n - 1), s);
    }
  }

  lemma OneFactor(a: nat, p: nat, s: nat)
    ensures (a * ((p * s) % M)) % M == (((a * p) % M) * s) % M
  {
    MulMod(a, p * s);
    MulMod(s, a * p);
    Rotate(a, p, s);
    Rotate((a * p) % M, 1, s);
  }

  lemma Rotate(a: nat, p: nat, s: nat)
    ensures a * (p * s) == s * (a * p)
  {
  }

  lemma SeedProduct(i: nat, j: nat)
    ensures SeedAfter(1, i + j) == (SeedAfter(1, i) * SeedAfter(1, j)) % M
  {
    SeedAfterInRange(1, j);
    SeedAfterSum(1, j, i);
    SeedIsProduct(SeedAfter(1, j), i);
  }

  // ----- the periods of the sequence that starts at 1

  predicate Returns(k: nat) {
    SeedAfter(1, k) == 1
  }

  lemma ReturnsDifference(a: nat, b: nat)
    requires Returns(a + b) && Returns(b)
    ensures Returns(a)
  {
    FirstToRecur(1, b, a);
  }

  lemma {:induction false} ReturnsMultiple(d: nat, m: nat)
    requires Returns(d)
    ensures Returns(d * m)
  {
    if m > 0 {
      ReturnsMultiple(d, m - 1);
      assert d * m == d + d * (m - 1);
      SeedAfterSum(1, d, d * (m - 1));
    }
  }

  /** Two periods have a common divisor that is a period. */
  lemma {:induction false} CommonPeriod(a: nat, b: nat) returns (d: nat, x: nat, y: nat)
    requires Returns(a) && Returns(b) && a > 0
    ensures d > 0 && Returns(d) && a == d * x && b == d * y
    decreases b
  {
    if b == 0 {
      d, x, y := a, 1, 0;
    } else {
      var q, r := a / b, a % b;
      ReturnsMultiple(b, q);
      assert a == r + b * q;
      ReturnsDifference(r, b * q);
      d, x, y := CommonPeriod(b, r);
      Combine(a, b, r, q, d, x, y);
      x, y := x * q + y, x;
    }
  }

  lemma Combine(a: nat, b: nat, r: nat, q: nat, d: nat, x: nat, y: nat)
    requires a == r + b * q && b == d * x && r == d * y
    ensures a == d * (x * q + y)
  {
    assert b * q == d * (x * q);
  }

  // ----- the prime factors of the number of seeds

  predicate NoDivisorUpTo(q: nat, n: nat) {
    n < 2 || (q % n != 0 && NoDivisorUpTo(q, n - 1))
  }

  predicate Prime(q: nat) {
    q > 1 && forall r :: 1 < r < q ==> q % r != 0
  }

  lemma {:induction false} NoDivisor(q: nat, n: nat, r: nat)
    requires NoDivisorUpTo(q, n) && 1 < r <= n
    ensures q % r != 0
  {
    if r < n { NoDivisor(q, n - 1, r); }
  }

  lemma TrialDivision(q: nat, n: nat)
    requires q > 1 && NoDivisorUpTo(q, n) && q < (n + 1) * (n + 1)
    ensures Prime(q)
  {
    forall r | 1 < r < q
      ensures q % r != 0
    {
      if q % r == 0 {
        var t := SmallFactor(q, n, r);
        NoDivisor(q, n, t);
      }
    }
  }

  lemma SmallFactor(q: nat, n: nat, r: nat) returns (t: nat)
    requires 1 < r < q && q % r == 0 && q < (n + 1) * (n + 1)
    ensures 1 < t <= n && q % t == 0
  {
    var u := q / r;
    assert q == r * u;
    Cofactor(q, r, u);
    if r <= n {
      t := r;
    } else {
      t := u;
      if u > n { Grow(n + 1, r, n + 1, u); }
    }
  }

  lemma Cofactor(q: nat, r: nat, u: nat)
    requires 1 < r < q && q == r * u
    ensures 1 < u && q % u == 0
  {
    DivModUnique(q, u, r, 0);
  }

  lemma Grow(a: nat, b: nat, c: nat, d: nat)
    requires a <= b && c <= d
    ensures a * c <= b * d
  {
    assert a * c <= b * c <= b * d;
  }

  /** A prime that divides `r * d` and not `r` divides `d`. */
  lemma {:induction false} PrimeDivides(q: nat, r: nat, d: nat, c: nat) returns (e: nat)
    requires Prime(q) && 0 < r < q && r * d == q * c
    ensures d == q * e
    decreases r
  {
    if r == 1 {
      e := c;
    } else {
      var t, r' := q / r, q % r;
      assert q == r * t + r';
      assert r' * d == q * d - t * (r * d) == q * d - t * (q * c) == q * (d - t * c);
      assert r' > 0 && r' * d >= 0;
      e := PrimeDivides(q, r', d, d - t * c);
    }
  }

  /** The prime factors of 2^31 - 2; 3 is in it twice. */
  const FACTORS: set<nat> := {2, 3, 7, 11, 31, 151, 331}

  lemma PrimeFactors()
    ensures forall q :: q in FACTORS ==> Prime(q)
  {
    TrialDivision(2, 1);
    TrialDivision(3, 1);
    TrialDivision(7, 2);
    TrialDivision(11, 3);
    TrialDivision(31, 5);
    TrialDivision(151, 12);
    assert NoDivisorUpTo(331, 9);
    TrialDivision(331, 18);
  }

  // ----- the powers that decide

  /** `x` is the `e`-th power of the multiplier. */
  predicate At(e: nat, x: nat) {
    SeedAfter(1, e) == x
  }

  lemma Square(e: nat, x: nat, y: nat)
    requires At(e, x) && y == (x * x) % M
    ensures At(2 * e, y)
  {
    SeedProduct(e, e);
  }

  lemma Squares(e: nat, x: nat, x1: nat, x2: nat, x3: nat, x4: nat)
    requires At(e, x) && x1 == (x * x) % M && x2 == (x1 * x1) % M && x3 == (x2 * x2) % M && x4 == (x3 * x3) % M
    ensures At(2 * e, x1) && At(4 * e, x2) && At(8 * e, x3) && At(16 * e, x4)
  {
    hide *;
    Square(e, x, x1);
    Square(2 * e, x1, x2);
    Square(4 * e, x2, x3);
    Square(8 * e, x3, x4);
  }

  lemma Times(e: nat, x: nat, e1: nat, x1: nat, y: nat)
    requires At(e, x) && At(e1, x1) && y == (x * x1) % M
    ensures At(e + e1, y)
  {
    SeedProduct(e, e1);
  }

  lemma Times2(e: nat, x: nat, e1: nat, x1: nat, e2: nat, x2: nat, y: nat, z: nat)
    requires At(e, x) && At(e1, x1) && At(e2, x2) && y == (x * x1) % M && z == (y * x2) % M
    ensures At(e + e1 + e2, z)
  {
    hide *;
    Times(e, x, e1, x1, y);
    Times(e + e1, y, e2, x2, z);
  }

  ghost predicate PowersOfTwo() {
    && At(1, 16807) && At(2, 282475249) && At(4, 984943658)
    && At(8, 1457850878) && At(16, 1137522503) && At(32, 1636807826)
    && At(64, 685118024) && At(128, 515204530) && At(256, 897054849)
    && At(512, 2038299453) && At(1024, 1836275591) && At(2048, 349037107)
    && At(4096, 149796865) && At(8192, 1186652285) && At(16384, 2106880871)
    && At(32768, 877809922) && At(65536, 1682791109) && At(131072, 1900685356)
    && At(262144, 2080563572) && At(524288, 612544882) && At(1048576, 1295048709)
    && At(2097152, 1987420232) && At(4194304, 868966365) && At(8388608, 1331238991)
    && At(16777216, 1550655590) && At(33554432, 766698560) && At(67108864, 1154667137)
    && At(134217728, 901595110) && At(268435456, 1008653149) && At(536870912, 1821072732)
    && At(1073741824, 2147466840)
  }

  lemma TwoPowers()
    ensures PowersOfTwo()
  {
    FirstPower();
    hide SeedAfter;
    Squares(1, 16807, 282475249, 984943658, 1457850878, 1137522503);
    Squares(16, 1137522503, 1636807826, 685118024, 515204530, 897054849);
    Squares(256, 897054849, 2038299453, 1836275591, 349037107, 149796865);
    Squares(4096, 149796865, 1186652285, 2106880871, 877809922, 1682791109);
    Squares(65536, 1682791109, 1900685356, 2080563572, 612544882, 1295048709);
    Squares(1048576, 1295048709, 1987420232, 868966365, 1331238991, 1550655590);
    Squares(16777216, 1550655590, 766698560, 1154667137, 901595110, 1008653149);
    Squares(268435456, 1008653149, 1821072732, 2147466840, 282475249, 984943658);
  }

  lemma FirstPower()
    ensures At(1, 16807)
  {
    assert SeedAfter(1, 0) == 1;
  }

  lemma Without3()
    requires PowersOfTwo()
    ensures At(715827882, 634005911)
  {
    hide SeedAfter, At;
    Times2(2, 282475249, 8, 1457850878, 32, 1636807826, 2007237709, 2110010672);
    Times2(42, 2110010672, 128, 515204530, 512, 2038299453, 881140534, 1987502657);
    Times2(682, 1987502657, 2048, 349037107, 8192, 1186652285, 1656394764, 99284761);
    Times2(10922, 99284761, 32768, 877809922, 131072, 1900685356, 544348633, 1175969859);
    Times2(174762, 1175969859, 524288, 612544882, 2097152, 1987420232, 448035156, 313625057);
    Times2(2796202, 313625057, 8388608, 1331238991, 33554432, 766698560, 1401305734, 1252779437);
    Times2(44739242, 1252779437, 134217728, 901595110, 536870912, 1821072732, 1695056031, 634005911);
  }

  lemma Without7()
    requires PowersOfTwo()
    ensures At(306783378, 1600955193)
  {
    hide SeedAfter, At;
    Times2(2, 282475249, 16, 1137522503, 128, 515204530, 16531729, 877819790);
    Times2(146, 877819790, 1024, 1836275591, 8192, 1186652285, 1973792143, 1588280530);
    Times2(9362, 1588280530, 65536, 1682791109, 524288, 612544882, 713072451, 864669998);
    Times2(599186, 864669998, 4194304, 868966365, 33554432, 766698560, 1089368889, 1410082339);
    Times(38347922, 1410082339, 268435456, 1008653149, 1600955193);
  }

  lemma Without11()
    requires PowersOfTwo()
    ensures At(195225786, 298192073)
  {
    hide SeedAfter, At;
    Times2(2, 282475249, 8, 1457850878, 16, 1137522503, 2007237709, 1131570933);
    Times2(26, 1131570933, 32, 1636807826, 128, 515204530, 1927702196, 462242385);
    Times2(186, 462242385, 2048, 349037107, 8192, 1186652285, 621222764, 1432671743);
    Times2(10426, 1432671743, 16384, 2106880871, 32768, 877809922, 904341801, 687791678);
    Times2(59578, 687791678, 131072, 1900685356, 2097152, 1987420232, 515678993, 70230534);
    Times2(2287802, 70230534, 8388608, 1331238991, 16777216, 1550655590, 1922162627, 249105855);
    Times2(27453626, 249105855, 33554432, 766698560, 134217728, 901595110, 765237990, 298192073);
  }

  lemma Without31()
    requires PowersOfTwo()
    ensures At(69273666, 16384)
  {
    hide SeedAfter, At;
    Times2(2, 282475249, 64, 685118024, 2048, 349037107, 1060806853, 111398400);
    Times2(2114, 111398400, 65536, 1682791109, 2097152, 1987420232, 766345775, 501934855);
    Times(2164802, 501934855, 67108864, 1154667137, 16384);
  }

  lemma Without151()
    requires PowersOfTwo()
    ensures At(14221746, 1013763951)
  {
    hide SeedAfter, At;
    Times2(2, 282475249, 16, 1137522503, 32, 1636807826, 16531729, 937186357);
    Times2(50, 937186357, 128, 515204530, 256, 897054849, 290145159, 2119315080);
    Times2(434, 2119315080, 65536, 1682791109, 524288, 612544882, 461253127, 1419975727);
    Times2(590258, 1419975727, 1048576, 1295048709, 4194304, 868966365, 2125667626, 168128469);
    Times(5833138, 168128469, 8388608, 1331238991, 1013763951);
  }

  lemma Without331()
    requires PowersOfTwo()
    ensures At(6487866, 759513457)
  {
    hide SeedAfter, At;
    Times2(2, 282475249, 8, 1457850878, 16, 1137522503, 2007237709, 1131570933);
    Times2(26, 1131570933, 32, 1636807826, 256, 897054849, 1927702196, 1262696576);
    Times2(314, 1262696576, 512, 2038299453, 1024, 1836275591, 895063368, 2028965134);
    Times2(1850, 2028965134, 2048, 349037107, 4096, 149796865, 840788275, 1433401925);
    Times2(7994, 1433401925, 8192, 1186652285, 16384, 2106880871, 369200414, 1576225411);
    Times2(32570, 1576225411, 32768, 877809922, 131072, 1900685356, 1456949660, 7693700);
    Times2(196410, 7693700, 2097152, 1987420232, 4194304, 868966365, 1043837591, 759513457);
  }

  /** The seed before `M - A` is `M - 1`, whose square is 1. */
  lemma Without2()
    requires PowersOfTwo()
    ensures At(1073741823, 2147483646) && At(2147483646, 1)
  {
    hide SeedAfter, At;
    BeforeNegative(1073741823);
    Square(1073741823, 2147483646, 1);
  }

  lemma BeforeNegative(e: nat)
    requires At(e + 1, 2147466840)
    ensures At(e, 2147483646)
  {
    AtNext(e);
    hide SeedAfter, NextSeed;
    assert NextSeed(2147483646) == 2147466840 by { NextOfLast(); }
    SeedAfterInRange(1, e);
    NextSeedInjective(SeedAfter(1, e), 2147483646);
  }

  lemma AtNext(e: nat)
    ensures SeedAfter(1, e + 1) == NextSeed(SeedAfter(1, e))
  {
  }

  lemma NextOfLast()
    ensures NextSeed(2147483646) == 2147466840
  {
  }

  lemma WholePower()
    ensures Returns(PERIOD)
  {
    TwoPowers();
    Without2();
    AtOneReturns(PERIOD);
  }

  lemma AtOneReturns(e: nat)
    ensures Returns(e) <==> At(e, 1)
  {
  }

  lemma AtOnce(e: nat, x: nat, y: nat)
    requires At(e, x) && At(e, y)
    ensures x == y
  {
  }

  /** No proper part of the number of seeds is a period. */
  lemma PartDoesNotReturn(q: nat)
    requires q in FACTORS
    ensures Prime(q) && PERIOD == q * (PERIOD / q) && !Returns(PERIOD / q)
  {
    hide Prime, Returns, At, SeedAfter, PowersOfTwo;
    PrimeFactors();
    TwoPowers();
    Without2();
    Without3();
    Without7();
    Without11();
    Without31();
    Without151();
    Without331();
    var e := PERIOD / q;
    AtOneReturns(e);
    if At(e, 1) {
      AtOnce(e, 1, match q
        case 2 => 2147483646
        case 3 => 634005911
        case 7 => 1600955193
        case 11 => 298192073
        case 31 => 16384
        case 151 => 1013763951
        case _ => 759513457);
    }
  }

  // ----- every period is a multiple of the number of seeds

  /** What is left of a divisor after `q` has been taken out of the other one. */
  lemma Peel(q: nat, m: nat, d: nat, c: nat) returns (e: nat)
    requires Prime(q) && m % q != 0 && m * d == q * c
    ensures d == q * e && m * e == c
  {
    var r, t := m % q, m / q;
    assert m == q * t + r;
    TakeOut(q, t, r, m, d, c);
    e := PrimeDivides(q, r, d, c - t * d);
    Cancel(q, m * e, c, m, e);
  }

  lemma TakeOut(q: nat, t: nat, r: nat, m: nat, d: nat, c: nat)
    requires m == q * t + r && m * d == q * c && q > 0
    ensures r * d == q * (c - t * d) && c - t * d >= 0
  {
    assert (q * t + r) * d == q * (t * d) + r * d;
    if c < t * d { MulBelow(q, c, t * d); }
  }

  lemma MulBelow(q: nat, a: nat, b: nat)
    requires q > 0 && a < b
    ensures q * a < q * b
  {
    assert q * (b - a) > 0;
  }

  lemma Cancel(q: nat, x: nat, c: nat, m: nat, e: nat)
    requires q > 0 && x == m * e && m * (q * e) == q * c
    ensures x == c
  {
    assert q * x == m * (q * e);
    if x < c { MulBelow(q, x, c); }
    if c < x { MulBelow(q, c, x); }
  }

  lemma FactorMissing(d: nat, m: nat, q: nat)
    requires Returns(d) && d * m == PERIOD && q in FACTORS
    ensures m % q != 0
  {
    PartDoesNotReturn(q);
    if m % q == 0 {
      var t := m / q;
      assert m == q * t;
      assert q * (d * t) == d * m == q * (PERIOD / q);
      ReturnsMultiple(d, t);
    }
  }

  lemma DivisorIsWhole(d: nat, m: nat)
    requires Returns(d) && d * m == PERIOD
    ensures m == 1
  {
    hide Returns, Prime;
    forall q | q in FACTORS
      ensures m % q != 0 && Prime(q)
    {
      FactorMissing(d, m, q);
      PartDoesNotReturn(q);
    }
    var e := Peel(2, m, d, 1073741823);
    e := Peel(3, m, e, 357913941);
    e := Peel(3, m, e, 119304647);
    e := Peel(7, m, e, 17043521);
    e := Peel(11, m, e, 1549411);
    e := Peel(31, m, e, 49981);
    e := Peel(151, m, e, 331);
    e := Peel(331, m, e, 1);
  }

  /** The sequence from 1 is back at 1 exactly after multiples of 2^31 - 2. */
  lemma ReturnsExactly(k: nat)
    ensures Returns(k) <==> k % PERIOD == 0
  {
    WholePower();
    hide Returns;
    if Returns(k) {
      var d, x, y := CommonPeriod(PERIOD, k);
      DivisorIsWhole(d, x);
      assert d == PERIOD;
      DivModUnique(k, PERIOD, y, 0);
    }
    if k % PERIOD == 0 {
      ReturnsMultiple(PERIOD, k / PERIOD);
    }
  }

  // ----- every seed is on the one cycle

  ghost function Orbit(n: nat): set<nat> {
    if n == 0 then {} else Orbit(n - 1) + {SeedAfter(1, n - 1)}
  }

  ghost function Seeds(n: nat): set<nat> {
    if n == 0 then {} else Seeds(n - 1) + {n}
  }

  lemma {:induction false} OrbitPlace(n: nat, t: nat) returns (j: nat)
    requires t in Orbit(n)
    ensures j < n && SeedAfter(1, j) == t
  {
    hide SeedAfter;
    if t in Orbit(n - 1) {
      j := OrbitPlace(n - 1, t);
    } else {
      j := n - 1;
    }
  }

  /** Two of the first 2^31 - 2 seeds never agree. */
  lemma NoEarlyReturn(i: nat, j: nat)
    requires i < j < PERIOD
    ensures SeedAfter(1, i) != SeedAfter(1, j)
  {
    hide SeedAfter;
    if SeedAfter(1, i) == SeedAfter(1, j) {
      FirstToRecur(1, i, j - i);
      ReturnsExactly(j - i);
      DivModUnique(j - i, PERIOD, 0, j - i);
      assert false;
    }
  }

  lemma {:induction false} OrbitSize(n: nat)
    requires n <= PERIOD
    ensures |Orbit(n)| == n
  {
    hide SeedAfter;
    if n > 0 {
      OrbitSize(n - 1);
      if SeedAfter(1, n - 1) in Orbit(n - 1) {
        var j := OrbitPlace(n - 1, SeedAfter(1, n - 1));
        NoEarlyReturn(j, n - 1);
      }
    }
  }

  lemma {:induction false} SeedsAre(n: nat)
    ensures |Seeds(n)| == n && forall t :: t in Seeds(n) <==> 1 <= t <= n
  {
    if n > 0 { SeedsAre(n - 1); }
  }

  lemma SameSize(a: set<nat>, b: set<nat>)
    requires a <= b && |a| == |b|
    ensures a == b
  {
    assert |b - a| == |b| - |a|;
  }

  lemma SeedOnOrbit(t: nat) returns (j: nat)
    requires IsSeed(t)
    ensures j < PERIOD && SeedAfter(1, j) == t
  {
    hide SeedAfter, Orbit, Seeds;
    OrbitSize(PERIOD);
    SeedsAre(PERIOD);
    forall x | x in Orbit(PERIOD)
      ensures x in Seeds(PERIOD)
    {
      var i := OrbitPlace(PERIOD, x);
      SeedAfterInRange(1, i);
    }
    SameSize(Orbit(PERIOD), Seeds(PERIOD));
    j := OrbitPlace(PERIOD, t);
  }

  /** From every seed: back at it exactly after multiples of 2^31 - 2 draws. */
  lemma FullPeriod(s: nat, k: nat)
    requires IsSeed(s)
    ensures SeedAfter(s, k) == s <==> k % PERIOD == 0
  {
    var j := SeedOnOrbit(s);
    SeedAfterSum(1, j, k);
    ReturnsExactly(k);
    if SeedAfter(s, k) == s {
      FirstToRecur(1, j, k);
    }
    if Returns(k) {
      SeedAfterSum(1, k, j);
    }
  }

  /** And every seed follows: there is one cycle, through all 2^31 - 2 of them. */
  lemma EverySeedFollows(s: nat, t: nat)
    requires IsSeed(s) && IsSeed(t)
    ensures exists k :: 0 <= k < PERIOD && SeedAfter(s, k) == t
  {
    hide SeedAfter;
    var i := SeedOnOrbit(s);
    var j := SeedOnOrbit(t);
    var k := if i <= j then j - i else PERIOD + j - i;
    SeedAfterSum(1, i, k);
    if i > j {
      SeedAfterSum(1, j, PERIOD);
      FullPeriod(t, PERIOD);
    }
    assert SeedAfter(s, k) == t;
  }
}
