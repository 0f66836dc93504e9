/**
  What the skip list and the key formats ask of a three-way comparison function.
 */
module Order {
  /** Signs are antisymmetric and "not after" is transitive. Distinct keys may compare equal. */
  ghost predicate TotalPreorder<K(!new)>(cmp: (K, K) -> int) {
    && (forall a, b :: cmp(a, b) < 0 <==> cmp(b, a) > 0)
    && (forall a, b, c :: cmp(a, b) <= 0 && cmp(b, c) <= 0 ==> cmp(a, c) <= 0)
  }

  /** Every earlier element compares strictly below every later one. */
  ghost predicate Ascending<K>(cmp: (K, K) -> int, s: seq<K>) {
    forall i, j :: 0 <= i < j < |s| ==> cmp(s[i], s[j]) < 0
  }

  lemma LtLe<K(!new)>(cmp: (K, K) -> int, a: K, b: K, c: K)
    requires TotalPreorder(cmp)
    requires cmp(a, b) < 0 && cmp(b, c) <= 0
    ensures cmp(a, c) < 0
  {
    assert cmp(c, a) <= 0 ==> cmp(b, a) <= 0;
  }

  lemma LeLt<K(!new)>(cmp: (K, K) -> int, a: K, b: K, c: K)
    requires TotalPreorder(cmp)
    requires cmp(a, b) <= 0 && cmp(b, c) < 0
    ensures cmp(a, c) < 0
  {
    assert cmp(c, a) <= 0 ==> cmp(c, b) <= 0;
  }

  lemma Flip<K(!new)>(cmp: (K, K) -> int, a: K, b: K)
    requires TotalPreorder(cmp)
    ensures cmp(a, b) < 0 <==> cmp(b, a) > 0
    ensures cmp(a, b) == 0 <==> cmp(b, a) == 0
  {
  }
}
