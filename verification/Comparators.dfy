/**
  The default comparator's key shortening: a separator between two keys and a short key
  not below a given one, both computed by changing a string in place.
 */
module Comparators {
  import opened Bits
  import opened Slices

  /** The length of the longest common prefix. */
  function DiffIndex(a: Bytes, b: Bytes): (d: nat)
    ensures d <= |a| && d <= |b| && a[..d] == b[..d]
    ensures d < |a| && d < |b| ==> a[d] != b[d]
  {
    if a == [] || b == [] || a[0] != b[0] then 0
    else
      var d := DiffIndex(a[1..], b[1..]);
      assert a[..d + 1] == [a[0]] + a[1..][..d] && b[..d + 1] == [b[0]] + b[1..][..d];
      1 + d
  }

  /** The keys first differ inside both, and there is a byte strictly between the two. */
  predicate Separable(start: Bytes, limit: Bytes) {
    var d := DiffIndex(start, limit);
    d < |start| && d < |limit| && start[d] as int + 1 < limit[d]
  }

  function Separator(start: Bytes, limit: Bytes): Bytes {
    var d := DiffIndex(start, limit);
    if Separable(start, limit) then start[..d] + [start[d] + 1] else start
  }

  method FindShortestSeparator(start: Str, limit: Bytes)
    modifies start
    ensures start.bytes == Separator(old(start.bytes), limit)
  {
    var minLength := if |start.bytes| < |limit| then |start.bytes| else |limit|;
    var diffIndex := 0;
    while diffIndex < minLength && start.bytes[diffIndex] == limit[diffIndex]
      invariant diffIndex <= minLength
      invariant start.bytes[..diffIndex] == limit[..diffIndex]
    {
      diffIndex := diffIndex + 1;
    }
    DiffIndexIs(start.bytes, limit, diffIndex);
    if diffIndex >= minLength {
      // one string is a prefix of the other: nothing to shorten
    } else {
      var diffByte := start.bytes[diffIndex];
      if diffByte < 0xff && diffByte + 1 < limit[diffIndex] {
        start.Put(diffIndex, diffByte + 1);
        start.Truncate(diffIndex + 1);
        assert start.bytes == Separator(old(start.bytes), limit);
        SeparatorBetween(old(start.bytes), limit);
        assert Compare(start.bytes, limit) < 0;
      }
    }
  }

  lemma DiffIndexIs(a: Bytes, b: Bytes, d: nat)
    requires d <= |a| && d <= |b| && a[..d] == b[..d]
    requires d < |a| && d < |b| ==> a[d] != b[d]
    ensures DiffIndex(a, b) == d
  {
    PrefixAgrees(a, b, d);
    PrefixAgrees(a, b, DiffIndex(a, b));
  }

  lemma PrefixAgrees(a: Bytes, b: Bytes, d: nat)
    requires d <= |a| && d <= |b| && a[..d] == b[..d]
    ensures forall i :: 0 <= i < d ==> a[i] == b[i]
  {
    forall i | 0 <= i < d
      ensures a[i] == b[i]
    {
      assert a[i] == a[..d][i] && b[i] == b[..d][i];
    }
  }

  /** A changed start lies strictly between start and limit. */
  lemma SeparatorBetween(start: Bytes, limit: Bytes)
    requires Separable(start, limit)
    ensures Compare(start, Separator(start, limit)) < 0 && Compare(Separator(start, limit), limit) < 0
  {
    var d, r := DiffIndex(start, limit), Separator(start, limit);
    assert r[..d] == start[..d];
    assert LessAt(start, r, d) && LessAt(r, limit, d);
    CompareIsDictionaryOrder(start, r);
    CompareIsDictionaryOrder(r, limit);
  }

  /** The strings agree before `i`, where there is a byte strictly between theirs. */
  predicate RoomAt(start: Bytes, limit: Bytes, i: nat) {
    i < |start| && i < |limit| && start[..i] == limit[..i] && start[i] as int + 1 < limit[i]
  }

  /** No string above `s` and at most as long as `r` is below `r`. */
  ghost predicate LeastAbove(s: Bytes, r: Bytes) {
    forall t :: Compare(s, t) < 0 && |t| <= |r| ==> Compare(r, t) <= 0
  }

  lemma RoomIsAtDiff(start: Bytes, limit: Bytes, i: nat)
    requires RoomAt(start, limit, i)
    ensures Separable(start, limit) && DiffIndex(start, limit) == i
  {
    DiffIndexIs(start, limit, i);
  }

  /** Raising a byte and cutting off behind it gives the least string of that length above. */
  lemma RaisedIsLeast(s: Bytes, i: nat)
    requires i < |s| && s[i] < 255
    ensures Compare(s, s[..i] + [s[i] + 1]) < 0 && LeastAbove(s, s[..i] + [s[i] + 1])
  {
    var r := s[..i] + [s[i] + 1];
    assert r[..i] == s[..i];
    assert LessAt(s, r, i);
    CompareIsDictionaryOrder(s, r);
    forall t | Compare(s, t) < 0 && |t| <= |r|
      ensures Compare(r, t) <= 0
    {
      CompareIsDictionaryOrder(s, t);
      var j: nat :| LessAt(s, t, j);
      NotBelowRaised(s, i, t, j);
    }
  }

  lemma NotBelowRaised(s: Bytes, i: nat, t: Bytes, j: nat)
    requires i < |s| && s[i] < 255 && LessAt(s, t, j) && |t| <= i + 1
    ensures Compare(s[..i] + [s[i] + 1], t) <= 0
  {
    var r := s[..i] + [s[i] + 1];
    assert j <= i;
    assert r[..j] == s[..j];
    CompareIsDictionaryOrder(r, t);
    if j < i || t[i] > r[i] {
      assert LessAt(r, t, j);
    } else {
      assert t == t[..i] + [t[i]] && r == t;
    }
  }

  /** The separator in full. It changes start exactly when there is room at the first difference,
      cuts it off there, and then is the least string of its length above start. */
  lemma SeparatorIsLeast(start: Bytes, limit: Bytes)
    ensures Separator(start, limit) != start <==> exists i: nat :: RoomAt(start, limit, i)
    ensures forall i: nat :: RoomAt(start, limit, i) ==> |Separator(start, limit)| == i + 1
    ensures Separator(start, limit) != start ==>
              Compare(start, Separator(start, limit)) < 0 && LeastAbove(start, Separator(start, limit))
  {
    var d := DiffIndex(start, limit);
    if Separable(start, limit) {
      assert RoomAt(start, limit, d);
      assert Separator(start, limit)[d] != start[d];
      RaisedIsLeast(start, d);
    }
    forall i: nat | RoomAt(start, limit, i)
      ensures |Separator(start, limit)| == i + 1 && Separable(start, limit)
    {
      RoomIsAtDiff(start, limit, i);
    }
  }

  /** `s` lies in [start, limit). */
  predicate InRange(start: Bytes, s: Bytes, limit: Bytes) {
    Compare(start, s) <= 0 && Compare(s, limit) < 0
  }

  ghost predicate NoneShorter(start: Bytes, limit: Bytes, r: Bytes) {
    forall s :: InRange(start, s, limit) ==> |s| >= |r|
  }

  /** A string shorter than `start` and not below it exceeds it at some position. */
  lemma ShorterExceeds(start: Bytes, s: Bytes) returns (i: nat)
    requires Compare(start, s) <= 0 && |s| < |start|
    ensures i < |s| && s[..i] == start[..i] && s[i] > start[i]
  {
    CompareIsDictionaryOrder(start, s);
    i :| LessAt(start, s, i);
  }

  /** Strings of [start, limit) agree with both on the common prefix, as far as they go, or
      are at least as long as `start`. */
  lemma ShorterLeavesLate(start: Bytes, limit: Bytes, s: Bytes, i: nat)
    requires Compare(s, limit) < 0 && i < |s| && i < |start| && s[..i] == start[..i] && s[i] > start[i]
    ensures i >= DiffIndex(start, limit)
  {
    var d := DiffIndex(start, limit);
    if i < d {
      assert limit[..i] == limit[..d][..i] == start[..d][..i] == start[..i];
      assert limit[i] == limit[..d][i] == start[..d][i] == start[i];
      assert LessAt(limit, s, i);
      CompareIsDictionaryOrder(limit, s);
      CompareIsDictionaryOrder(s, limit);
    }
  }

  /** Whenever start is changed, no string of [start, limit) is shorter than the result. */
  lemma ChangedIsShortest(start: Bytes, limit: Bytes)
    requires Separable(start, limit)
    ensures NoneShorter(start, limit, Separator(start, limit))
  {
    var d := DiffIndex(start, limit);
    forall s | InRange(start, s, limit)
      ensures |s| > d
    {
      if |s| <= d {
        var i := ShorterExceeds(start, s);
        ShorterLeavesLate(start, limit, s, i);
      }
    }
  }

  /** When an unchanged start is nonetheless the shortest: it is a prefix of limit; or the
      differing bytes are neighbours and start ends there, or limit ends there and all that
      start has after it, but for its last byte, is 0xff. */
  predicate ShortestAsItIs(start: Bytes, limit: Bytes) {
    var d := DiffIndex(start, limit);
    || d == |start|
    || (d < |start| && d < |limit| &&
        if |limit| > d + 1 then |start| == d + 1
        else forall i :: d < i < |start| - 1 ==> start[i] == 0xff)
  }

  lemma UnchangedIsShortest(start: Bytes, limit: Bytes)
    requires Compare(start, limit) < 0 && !Separable(start, limit) && ShortestAsItIs(start, limit)
    ensures NoneShorter(start, limit, start)
  {
    var d := DiffIndex(start, limit);
    StartsBelow(start, limit);
    forall s | InRange(start, s, limit)
      ensures |s| >= |start|
    {
      if |s| < |start| {
        var i := ShorterExceeds(start, s);
        ShorterLeavesLate(start, limit, s, i);
        if i == d && |limit| == d + 1 {
          NotBelow(limit, s, d);
        }
      }
    }
  }

  /** Agreeing with all of `limit` but its last byte, and not below it there. */
  lemma NotBelow(limit: Bytes, s: Bytes, d: nat)
    requires |limit| == d + 1 && d < |s| && s[..d] == limit[..d] && s[d] >= limit[d]
    ensures Compare(s, limit) >= 0
  {
    CompareIsDictionaryOrder(limit, s);
    CompareIsDictionaryOrder(s, limit);
    if s[d] > limit[d] {
      assert LessAt(limit, s, d);
    } else {
      assert limit == s[..d + 1];
      if |s| > d + 1 {
        assert LessAt(limit, s, d + 1);
      } else {
        assert s == s[..d + 1];
      }
    }
  }

  /** With start below limit, the byte of start at the first difference is the smaller one. */
  lemma StartsBelow(start: Bytes, limit: Bytes)
    requires Compare(start, limit) < 0
    ensures var d := DiffIndex(start, limit);
            d < |limit| && (d < |start| ==> start[d] < limit[d])
  {
    CompareIsDictionaryOrder(start, limit);
    var i: nat :| LessAt(start, limit, i);
    DiffIndexIs(start, limit, i);
  }

  lemma UnchangedNotShortest(start: Bytes, limit: Bytes) returns (s: Bytes)
    requires Compare(start, limit) < 0 && !Separable(start, limit) && !ShortestAsItIs(start, limit)
    ensures InRange(start, s, limit) && |s| < |start|
  {
    var d := DiffIndex(start, limit);
    StartsBelow(start, limit);
    if |limit| > d + 1 {
      s := limit[..d + 1];
      assert s[..d] == limit[..d];
      assert LessAt(start, s, d);
      assert LessAt(s, limit, d + 1);
    } else {
      var i :| d < i < |start| - 1 && start[i] != 0xff;
      s := start[..i] + [start[i] + 1];
      assert s[..i] == start[..i];
      assert LessAt(start, s, i);
      assert s[..d] == start[..i][..d] == start[..d];
      assert LessAt(s, limit, d);
    }
    CompareIsDictionaryOrder(start, s);
    CompareIsDictionaryOrder(s, limit);
  }

  /** The documentation of the interface promises the shortest key of [start, limit). The
      code meets it exactly when it changes start or start was already shortest. */
  lemma SeparatorIsShortest(start: Bytes, limit: Bytes)
    requires Compare(start, limit) < 0
    ensures InRange(start, Separator(start, limit), limit)
    ensures NoneShorter(start, limit, Separator(start, limit)) <==>
            Separable(start, limit) || ShortestAsItIs(start, limit)
  {
    CompareTotalOrder();
    if Separable(start, limit) {
      SeparatorBetween(start, limit);
      ChangedIsShortest(start, limit);
    } else if ShortestAsItIs(start, limit) {
      UnchangedIsShortest(start, limit);
    } else {
      var s := UnchangedNotShortest(start, limit);
    }
  }

  /** "1x" and "29": the code leaves "1x" although "2" lies between them. */
  lemma SeparatorNotAlwaysShortest()
    ensures var start: Bytes, limit: Bytes := [0x31, 0x78], [0x32, 0x39];
            Compare(start, limit) < 0 && Separator(start, limit) == start && !NoneShorter(start, limit, start)
  {
    var start: Bytes, limit: Bytes := [0x31, 0x78], [0x32, 0x39];
    DiffIndexIs(start, limit, 0);
    SeparatorIsShortest(start, limit);
  }

  // ----- short successor

  function ShortSuccessor(key: Bytes): Bytes {
    if key == [] then []
    else if key[0] != 0xff then [key[0] + 1]
    else
      var tail := ShortSuccessor(key[1..]);
      [0xff] + tail
  }

  method FindShortSuccessor(key: Str)
    modifies key
    ensures key.bytes == ShortSuccessor(old(key.bytes))
  {
    var n := |key.bytes|;
    var i := 0;
    while i < n
      invariant 0 <= i <= n && key.bytes == old(key.bytes)
      invariant forall j :: 0 <= j < i ==> key.bytes[j] == 0xff
    {
      var byt := key.bytes[i];
      if byt != 0xff {
        key.Put(i, byt + 1);
        key.Truncate(i + 1);
        SuccessorAt(old(key.bytes), i);
        return;
      }
      i := i + 1;
    }
    SuccessorAt(key.bytes, n);
  }

  /** Its two cases: a byte other than 0xff after `i` bytes 0xff, or only bytes 0xff. */
  lemma {:induction false} SuccessorAt(key: Bytes, i: nat)
    requires i <= |key| && forall j :: 0 <= j < i ==> key[j] == 0xff
    ensures i < |key| && key[i] != 0xff ==> ShortSuccessor(key) == key[..i] + [key[i] + 1]
    ensures i == |key| ==> ShortSuccessor(key) == key
  {
    if i > 0 {
      SuccessorAt(key[1..], i - 1);
      assert key[..i] == [0xff] + key[1..][..i - 1];
      assert key == [0xff] + key[1..];
    }
  }

  /** The successor is not below the key, differs from it unless every byte is 0xff, and is
      as short as any string not below the key. */
  lemma SuccessorIsShortest(key: Bytes)
    ensures Compare(key, ShortSuccessor(key)) <= 0
    ensures Compare(key, ShortSuccessor(key)) == 0 <==> forall i :: 0 <= i < |key| ==> key[i] == 0xff
    ensures forall s :: Compare(key, s) <= 0 ==> |s| >= |ShortSuccessor(key)|
  {
    var i := LeadingOnes(key);
    var r := ShortSuccessor(key);
    SuccessorAt(key, i);
    CompareIsDictionaryOrder(key, r);
    if i < |key| {
      assert r[..i] == key[..i];
      assert LessAt(key, r, i);
    }
    forall s | Compare(key, s) <= 0
      ensures |s| >= |r|
    {
      if |s| < |r| {
        var e := ShorterExceeds(key, s);
      }
    }
  }

  /** The successor of a key with a byte other than 0xff is the least string of its length above
      the key. */
  lemma SuccessorIsLeast(key: Bytes)
    ensures ShortSuccessor(key) != key <==> exists i :: 0 <= i < |key| && key[i] != 0xff
    ensures ShortSuccessor(key) != key ==>
              Compare(key, ShortSuccessor(key)) < 0 && LeastAbove(key, ShortSuccessor(key))
  {
    var i := LeadingOnes(key);
    SuccessorAt(key, i);
    if i < |key| {
      assert ShortSuccessor(key)[i] != key[i];
      RaisedIsLeast(key, i);
    }
  }

  /** How many bytes 0xff a key begins with. */
  function LeadingOnes(key: Bytes): (i: nat)
    ensures i <= |key| && (forall j :: 0 <= j < i ==> key[j] == 0xff) && (i < |key| ==> key[i] != 0xff)
  {
    if key == [] || key[0] != 0xff then 0 else 1 + LeadingOnes(key[1..])
  }
}
