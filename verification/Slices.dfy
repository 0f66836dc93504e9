/**
  Byte strings: the `Slice` view that decoders advance, the growing string that encoders
  append to, and the bytewise comparison both rest on.
 */
module Slices {
  import opened Bits
  import opened Order

  /** A view of bytes; only the viewed bytes are modelled, not their address. */
  class Slice {
    var data: Bytes

    constructor (d: Bytes)
      ensures data == d
    {
      data := d;
    }

    method RemovePrefix(n: nat)
      requires n <= |data|
      modifies this
      ensures data == old(data)[n..]
    {
      data := data[n..];
    }
  }

  /** A `std::string` that is appended to, overwritten at an index and truncated. */
  class Str {
    var bytes: Bytes

    constructor (b: Bytes)
      ensures bytes == b
    {
      bytes := b;
    }

    method Append(b: Bytes)
      modifies this
      ensures bytes == old(bytes) + b
    {
      bytes := bytes + b;
    }

    method Put(i: nat, b: byte)
      requires i < |bytes|
      modifies this
      ensures bytes == old(bytes)[i := b]
    {
      bytes := bytes[i := b];
    }

    /** `resize` to a length not above the current one. */
    method Truncate(n: nat)
      requires n <= |bytes|
      modifies this
      ensures bytes == old(bytes)[..n]
    {
      bytes := bytes[..n];
    }

    method Swap(other: Str)
      requires other != this
      modifies this, other
      ensures bytes == old(other.bytes) && other.bytes == old(bytes)
    {
      bytes, other.bytes := other.bytes, bytes;
    }
  }

  /** `memcmp` on the first `n` bytes: the sign of the first difference. */
  function Memcmp(a: Bytes, b: Bytes, n: nat): int
    requires n <= |a| && n <= |b|
  {
    if n == 0 then 0
    else if a[0] < b[0] then -1
    else if a[0] > b[0] then 1
    else Memcmp(a[1..], b[1..], n - 1)
  }

  function Compare(a: Bytes, b: Bytes): int {
    var minLen := if |a| < |b| then |a| else |b|;
    var res := Memcmp(a, b, minLen);
    if res == 0 then
      if |a| < |b| then -1 else if |a| > |b| then 1 else 0
    else res
  }

  predicate StartsWith(s: Bytes, x: Bytes) {
    |s| >= |x| && Memcmp(s, x, |x|) == 0
  }

  predicate Equal(a: Bytes, b: Bytes) {
    |a| == |b| && Memcmp(a, b, |a|) == 0
  }

  /** Dictionary order stated on positions: the strings agree before `i`, and there
      either `a` ends while `b` goes on, or `a` has the smaller byte. */
  ghost predicate LessAt(a: Bytes, b: Bytes, i: nat) {
    && i <= |a| && i < |b|
    && a[..i] == b[..i]
    && (i == |a| || a[i] < b[i])
  }

  ghost predicate Less(a: Bytes, b: Bytes) {
    exists i: nat :: LessAt(a, b, i)
  }

  /** The first difference, if any, decides `memcmp`. */
  lemma {:induction false} MemcmpFirstDifference(a: Bytes, b: Bytes, n: nat) returns (i: nat)
    requires n <= |a| && n <= |b|
    ensures i <= n && a[..i] == b[..i]
    ensures i == n <==> Memcmp(a, b, n) == 0
    ensures i < n ==> a[i] != b[i] && (Memcmp(a, b, n) < 0 <==> a[i] < b[i])
  {
    if n == 0 || a[0] != b[0] {
      i := 0;
    } else {
      i := MemcmpFirstDifference(a[1..], b[1..], n - 1);
      assert a[..i + 1] == [a[0]] + a[1..][..i];
      assert b[..i + 1] == [b[0]] + b[1..][..i];
      i := i + 1;
    }
  }

  lemma LessAsymmetric(a: Bytes, b: Bytes, i: nat, j: nat)
    requires LessAt(a, b, i)
    ensures !LessAt(b, a, j)
  {
    if j <= |b| && j < |a| {
      if i < j {
        assert a[..j][i] == a[i] && b[..j][i] == b[i];
      } else if j < i {
        assert a[j] == a[..i][j] == b[..i][j] == b[j];
      }
    }
  }

  /** `Slice::compare` is dictionary order, and reports 0 for identical bytes only. */
  lemma CompareIsDictionaryOrder(a: Bytes, b: Bytes)
    ensures Compare(a, b) < 0 <==> Less(a, b)
    ensures Compare(a, b) > 0 <==> Less(b, a)
    ensures Compare(a, b) == 0 <==> a == b
  {
    var n := if |a| < |b| then |a| else |b|;
    var i := MemcmpFirstDifference(a, b, n);
    if i < n {
      if a[i] < b[i] {
        assert LessAt(a, b, i);
      } else {
        assert LessAt(b, a, i);
      }
    } else if |a| < |b| {
      assert LessAt(a, b, i);
    } else if |b| < |a| {
      assert LessAt(b, a, i);
    } else {
      assert a == a[..i] && b == b[..i];
    }
    forall k: nat, l: nat | LessAt(a, b, k)
      ensures !LessAt(b, a, l)
    {
      LessAsymmetric(a, b, k, l);
    }
    forall k: nat, l: nat | LessAt(b, a, k)
      ensures !LessAt(a, b, l)
    {
      LessAsymmetric(b, a, k, l);
    }
  }

  lemma LessTransitive(a: Bytes, b: Bytes, c: Bytes)
    requires Less(a, b) && Less(b, c)
    ensures Less(a, c)
  {
    var i: nat :| LessAt(a, b, i);
    var j: nat :| LessAt(b, c, j);
    var k := if i < j then i else j;
    assert a[..k] == a[..i][..k] == b[..i][..k] == b[..k];
    assert c[..k] == c[..j][..k] == b[..j][..k] == b[..k];
    if i < j {
      assert b[i] == b[..j][i] == c[..j][i] == c[i];
    } else if j < i {
      assert a[j] == a[..i][j] == b[..i][j] == b[j];
    }
    assert LessAt(a, c, k);
  }

  /** `Slice::compare` is a total order on byte strings. */
  lemma CompareTotalOrder()
    ensures TotalPreorder(Compare)
    ensures forall a, b :: Compare(a, b) == 0 <==> a == b
  {
    forall a, b
      ensures Compare(a, b) < 0 <==> Compare(b, a) > 0
      ensures Compare(a, b) == 0 <==> a == b
    {
      CompareIsDictionaryOrder(a, b);
      CompareIsDictionaryOrder(b, a);
    }
    forall a, b, c | Compare(a, b) <= 0 && Compare(b, c) <= 0
      ensures Compare(a, c) <= 0
    {
      CompareIsDictionaryOrder(a, b);
      CompareIsDictionaryOrder(b, c);
      CompareIsDictionaryOrder(a, c);
      if a != b && b != c {
        LessTransitive(a, b, c);
      }
    }
  }

  /** The equality operator and `startsWith` mean equality and prefix. */
  lemma EqualAndPrefix(s: Bytes, x: Bytes)
    ensures Equal(s, x) <==> s == x
    ensures StartsWith(s, x) <==> x <= s
  {
    if |s| >= |x| {
      var i := MemcmpFirstDifference(s, x, |x|);
      assert x[..|x|] == x;
      assert x <= s ==> s[..|x|] == x;
      if |s| == |x| {
        assert s[..|x|] == s;
      }
    }
  }
}
