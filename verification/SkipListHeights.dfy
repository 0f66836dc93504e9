/**
  Which heights nodes get. Heights come from the generator alone, so they can be told in
  advance; all twelve occur, and whatever the generator has drawn, each of them occurs again.
 */
module SkipListHeights {
  import opened Random
  import opened RandomPeriod
  import opened SkipLists

  /** A seed determines the height and the seed left behind. */
  lemma DrawsOnce(before: nat, h: nat, after: nat, h': nat, after': nat)
    requires Draws(before, h, after) && Draws(before, h', after')
    ensures h == h' && after == after'
  {
    hide SeedAfter;
    Earlier(before, h, after, h', after');
    Earlier(before, h', after', h, after);
  }

  lemma Earlier(before: nat, h: nat, after: nat, h': nat, after': nat)
    requires Draws(before, h, after) && Draws(before, h', after')
    ensures h >= h'
  {
  }

  lemma DrawIs(s: nat, n: nat, x: nat, y: nat)
    requires SeedAfter(s, n) == x && y == (16807 * x) % 2147483647
    ensures SeedAfter(s, n + 1) == y
  {
  }

  lemma NoDraw(s: nat)
    ensures SeedAfter(s, 0) == s
  {
  }

  /** A new list, whose generator starts at 0xdeadbeef without its top bit, gives its first node
      two levels. */
  lemma FirstHeight()
    ensures Draws(0x5ead_beef, 2, 386994929)
  {
    hide SeedAfter;
    NoDraw(0x5ead_beef);
    DrawIs(0x5ead_beef, 0, 1588444911, 1624403320);
    DrawIs(0x5ead_beef, 1, 1624403320, 386994929);
  }

  /** Two draws divisible by four, then one that is not: three levels and three draws. */
  lemma ThreeLevels()
    ensures Draws(514034807, 3, 2067375466)
  {
    hide SeedAfter;
    NoDraw(514034807);
    DrawIs(514034807, 0, 514034807, 56289368);
    DrawIs(514034807, 1, 56289368, 1162603296);
    DrawIs(514034807, 2, 1162603296, 2067375466);
  }

  /** Eleven draws divisible by four, and one that is not. */
  lemma ElevenDraws()
    ensures forall i :: 1 <= i <= 11 ==> SeedAfter(337470, i) % 4 == 0
    ensures SeedAfter(337470, 12) % 4 != 0
  {
    hide SeedAfter;
    NoDraw(337470);
    DrawIs(337470, 0, 337470, 1376890996);
    DrawIs(337470, 1, 1376890996, 123189700);
    DrawIs(337470, 2, 123189700, 275052192);
    DrawIs(337470, 3, 275052192, 1417382600);
    DrawIs(337470, 4, 1417382600, 2060745676);
    DrawIs(337470, 5, 2060745676, 336317716);
    DrawIs(337470, 6, 336317716, 314893908);
    DrawIs(337470, 7, 314893908, 1022205548);
    DrawIs(337470, 8, 1022205548, 339469236);
    DrawIs(337470, 9, 339469236, 1742883020);
    DrawIs(337470, 10, 1742883020, 957972060);
    DrawIs(337470, 11, 957972060, 951510861);
  }

  /** The generator behind these draws makes nodes of all heights. */
  lemma HeightOccurs(h: nat)
    requires 1 <= h <= 12
    ensures Draws(SeedAfter(337470, 12 - h), h, SeedAfter(337470, if h < 12 then 12 else 11))
  {
    hide SeedAfter;
    ElevenDraws();
    var s := SeedAfter(337470, 12 - h);
    forall i | 1 <= i < h
      ensures SeedAfter(s, i) % 4 == 0
    {
      SeedAfterSum(337470, 12 - h, i);
    }
    SeedAfterSum(337470, 12 - h, if h < 12 then h else 11);
  }

  /** Whatever the generator has drawn, every height from 1 to 12 comes again. */
  lemma EveryHeightComes(s: nat, h: nat)
    requires IsSeed(s) && 1 <= h <= 12
    ensures exists k, after :: 0 <= k < PERIOD && Draws(SeedAfter(s, k), h, after)
  {
    hide SeedAfter, Draws;
    HeightOccurs(h);
    SeedAfterInRange(337470, 12 - h);
    EverySeedFollows(s, SeedAfter(337470, 12 - h));
    var k :| 0 <= k < PERIOD && SeedAfter(s, k) == SeedAfter(337470, 12 - h);
    assert Draws(SeedAfter(s, k), h, SeedAfter(337470, if h < 12 then 12 else 11));
  }
}
