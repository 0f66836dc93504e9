/**
  The abstract value of a skip list: an ascending sequence of keys.
 */
module SortedKeys {
  import opened Order

  /** How many leading keys are below `k`. */
  function LowerBound<K>(cmp: (K, K) -> int, ks: seq<K>, k: K): (i: nat)
    ensures i <= |ks|
    ensures forall m :: 0 <= m < i ==> cmp(ks[m], k) < 0
    ensures i < |ks| ==> cmp(ks[i], k) >= 0
  {
    if ks == [] || cmp(ks[0], k) >= 0 then 0 else 1 + LowerBound(cmp, ks[1..], k)
  }

  /** The keys with `k` in its place. */
  function InsertSorted<K>(cmp: (K, K) -> int, ks: seq<K>, k: K): seq<K> {
    var i := LowerBound(cmp, ks, k);
    ks[..i] + [k] + ks[i..]
  }

  /** One insertion after another, from nothing. */
  function InsertAll<K>(cmp: (K, K) -> int, ks: seq<K>): seq<K> {
    if ks == [] then [] else InsertSorted(cmp, InsertAll(cmp, ks[..|ks| - 1]), ks[|ks| - 1])
  }

  ghost predicate Contains<K>(cmp: (K, K) -> int, ks: seq<K>, k: K) {
    exists y :: y in ks && cmp(y, k) == 0
  }

  ghost predicate Distinct<K>(cmp: (K, K) -> int, ks: seq<K>) {
    forall i, j :: 0 <= i < j < |ks| ==> cmp(ks[i], ks[j]) != 0
  }

  function Reverse<K>(ks: seq<K>): (r: seq<K>)
    ensures |r| == |ks|
    ensures forall i :: 0 <= i < |r| ==> r[i] == ks[|ks| - 1 - i]
  {
    if ks == [] then [] else [ks[|ks| - 1]] + Reverse(ks[..|ks| - 1])
  }

  /** There is one place to stop. */
  lemma LowerBoundIs<K>(cmp: (K, K) -> int, ks: seq<K>, k: K, i: nat)
    requires i <= |ks| && forall m :: 0 <= m < i ==> cmp(ks[m], k) < 0
    requires i < |ks| ==> cmp(ks[i], k) >= 0
    ensures LowerBound(cmp, ks, k) == i
  {
  }

  /** What lies before and after the lower bound. */
  lemma LowerBoundSplits<K(!new)>(cmp: (K, K) -> int, ks: seq<K>, k: K)
    requires TotalPreorder(cmp) && Ascending(cmp, ks)
    ensures forall m :: LowerBound(cmp, ks, k) < m < |ks| ==> cmp(k, ks[m]) < 0
  {
    hide TotalPreorder;
    var i := LowerBound(cmp, ks, k);
    forall m | i < m < |ks|
      ensures cmp(k, ks[m]) < 0
    {
      Flip(cmp, ks[i], k);
      LeLt(cmp, k, ks[i], ks[m]);
    }
  }

  /** The search finds a key exactly when it is there. */
  lemma LowerBoundFinds<K(!new)>(cmp: (K, K) -> int, ks: seq<K>, k: K)
    requires TotalPreorder(cmp) && Ascending(cmp, ks)
    ensures Contains(cmp, ks, k) <==> LowerBound(cmp, ks, k) < |ks| && cmp(k, ks[LowerBound(cmp, ks, k)]) == 0
  {
    hide TotalPreorder;
    var i := LowerBound(cmp, ks, k);
    LowerBoundSplits(cmp, ks, k);
    forall m | 0 <= m < |ks|
      ensures cmp(ks[m], k) == 0 <==> cmp(k, ks[m]) == 0
    {
      Flip(cmp, ks[m], k);
    }
    if i < |ks| && cmp(k, ks[i]) == 0 {
      assert ks[i] in ks && cmp(ks[i], k) == 0;
    }
  }

  /** The inserted key is above everything before it and below everything after it. */
  lemma InsertSortedAscends<K(!new)>(cmp: (K, K) -> int, ks: seq<K>, k: K)
    requires TotalPreorder(cmp) && Ascending(cmp, ks) && !Contains(cmp, ks, k)
    ensures Ascending(cmp, InsertSorted(cmp, ks, k))
  {
    hide TotalPreorder;
    var i, r := LowerBound(cmp, ks, k), InsertSorted(cmp, ks, k);
    LowerBoundSplits(cmp, ks, k);
    if i < |ks| {
      assert ks[i] in ks;
      Flip(cmp, ks[i], k);
    }
    InsertSortedAt(cmp, ks, k);
    hide Contains, InsertSorted, LowerBound;
    forall a, b | 0 <= a < b < |r|
      ensures cmp(r[a], r[b]) < 0
    {
    }
  }

  lemma InsertSortedAt<K>(cmp: (K, K) -> int, ks: seq<K>, k: K)
    ensures var i, r := LowerBound(cmp, ks, k), InsertSorted(cmp, ks, k);
            && |r| == |ks| + 1 && r[i] == k
            && (forall a :: 0 <= a < i ==> r[a] == ks[a])
            && (forall a :: i < a < |r| ==> r[a] == ks[a - 1])
  {
  }

  /** Inserting an absent key keeps the keys ascending and adds exactly that key. */
  lemma InsertSortedAdds<K(!new)>(cmp: (K, K) -> int, ks: seq<K>, k: K)
    requires TotalPreorder(cmp) && Ascending(cmp, ks) && !Contains(cmp, ks, k)
    ensures Ascending(cmp, InsertSorted(cmp, ks, k))
    ensures multiset(InsertSorted(cmp, ks, k)) == multiset(ks) + multiset{k}
    ensures forall x :: Contains(cmp, InsertSorted(cmp, ks, k), x) <==> Contains(cmp, ks, x) || cmp(k, x) == 0
  {
    InsertSortedAscends(cmp, ks, k);
    hide TotalPreorder, Ascending;
    SplicedKeys(ks, LowerBound(cmp, ks, k), k);
    hide InsertSorted, LowerBound;
    var r := InsertSorted(cmp, ks, k);
    assert forall y :: y in r <==> y in ks || y == k;
  }

  lemma SplicedKeys<K>(ks: seq<K>, i: nat, k: K)
    requires i <= |ks|
    ensures multiset(ks[..i] + [k] + ks[i..]) == multiset(ks) + multiset{k}
    ensures forall y :: y in ks[..i] + [k] + ks[i..] <==> y in ks || y == k
  {
    assert ks == ks[..i] + ks[i..];
  }

  /** Any order of distinct insertions yields the same set of keys, ascending. */
  lemma {:induction false} InsertAllSorts<K(!new)>(cmp: (K, K) -> int, ks: seq<K>)
    requires TotalPreorder(cmp) && Distinct(cmp, ks)
    ensures Ascending(cmp, InsertAll(cmp, ks)) && multiset(InsertAll(cmp, ks)) == multiset(ks)
    ensures forall x :: Contains(cmp, InsertAll(cmp, ks), x) <==> Contains(cmp, ks, x)
  {
    if ks != [] {
      var front, k := ks[..|ks| - 1], ks[|ks| - 1];
      assert ks == front + [k];
      InsertAllSorts(cmp, front);
      forall x
        ensures Contains(cmp, ks, x) <==> Contains(cmp, front, x) || cmp(k, x) == 0
      {
        assert ks[|ks| - 1] == k;
      }
      assert !Contains(cmp, front, k);
      InsertSortedAdds(cmp, InsertAll(cmp, front), k);
    }
  }

  /** Ascending sequences of the same keys are equal, so the order of insertion is forgotten. */
  lemma {:induction false} AscendingUnique<K(!new)>(cmp: (K, K) -> int, a: seq<K>, b: seq<K>)
    requires TotalPreorder(cmp) && Ascending(cmp, a) && Ascending(cmp, b) && multiset(a) == multiset(b)
    ensures a == b
  {
    hide TotalPreorder;
    SameLength(a, b);
    if a != [] {
      SameFirst(cmp, a, b);
      TailMultiset(a);
      TailMultiset(b);
      AscendingUnique(cmp, a[1..], b[1..]);
    }
  }

  lemma SameLength<K>(a: seq<K>, b: seq<K>)
    requires multiset(a) == multiset(b)
    ensures |a| == |b|
  {
    assert |multiset(a)| == |a| && |multiset(b)| == |b|;
  }

  lemma TailMultiset<K>(s: seq<K>)
    requires s != []
    ensures multiset(s[1..]) == multiset(s) - multiset{s[0]} && s == [s[0]] + s[1..]
  {
    assert s == [s[0]] + s[1..];
  }

  lemma SameFirst<K(!new)>(cmp: (K, K) -> int, a: seq<K>, b: seq<K>)
    requires TotalPreorder(cmp) && Ascending(cmp, a) && Ascending(cmp, b) && multiset(a) == multiset(b)
    requires a != [] && b != []
    ensures a[0] == b[0]
  {
    hide TotalPreorder;
    assert a[0] in multiset(b) && b[0] in multiset(a);
    var i :| 0 <= i < |b| && b[i] == a[0];
    var j :| 0 <= j < |a| && a[j] == b[0];
    Flip(cmp, a[0], b[0]);
  }
}
