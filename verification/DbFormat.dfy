/**
  Internal keys: a user key followed by eight bytes holding a sequence number and a type.
  Their order, their shortening, and the keys used for snapshot lookups.
 */
module DbFormat {
  import opened Wrappers
  import opened Bits
  import opened Order
  import opened Slices
  import opened Coding
  import opened Comparators

  datatype ValueType = TypeDeletion | TypeValue {
    function Code(): byte {
      if TypeDeletion? then 0 else 1
    }
  }

  const VALUE_TYPE_FOR_SEEK: ValueType := TypeValue
  const MAX_SEQUENCE_NUMBER: nat := 0xff_ffff_ffff_ffff

  datatype ParsedInternalKey = ParsedInternalKey(userKey: Bytes, sequence: nat, kind: ValueType)

  predicate WellFormed(k: ParsedInternalKey) {
    k.sequence <= MAX_SEQUENCE_NUMBER
  }

  function PackSequenceAndType(sequence: nat, t: ValueType): nat
    requires sequence <= MAX_SEQUENCE_NUMBER
  {
    BitOr(Shl(sequence, 8, 64), t.Code())
  }

  /** The packed word: the sequence number above the byte of the type. */
  lemma PackValue(sequence: nat, t: ValueType)
    requires sequence <= MAX_SEQUENCE_NUMBER
    ensures PackSequenceAndType(sequence, t) == 256 * sequence + t.Code() < 0x1_0000_0000_0000_0000
  {
    hide BitOr, Low, Shl, Scale, Pow2;
    Pow2Values();
    var shifted := Shl(sequence, 8, 64);
    OrShifted(0, sequence, 8, 64);
    ScaleEight(sequence);
    LowBound(256 * sequence, 64);
    OrZero(shifted);
    OrDisjoint(t.Code(), sequence, 8);
    OrSymmetric(t.Code(), shifted);
  }

  lemma ScaleEight(x: nat)
    ensures Scale(x, 8) == 256 * x
  {
    ScaleMore(x, 0);
  }

  lemma OrZero(x: nat)
    ensures BitOr(0, x) == x
  {
  }

  lemma {:induction false} OrSymmetric(a: nat, b: nat)
    ensures BitOr(a, b) == BitOr(b, a)
    decreases a + b
  {
    if a > 0 && b > 0 { OrSymmetric(a / 2, b / 2); }
  }

  /** The encoding of an internal key. */
  function Encoded(k: ParsedInternalKey): Bytes
    requires WellFormed(k)
  {
    k.userKey + LittleEndian(PackSequenceAndType(k.sequence, k.kind), 8)
  }

  lemma KeyBytes(k: ParsedInternalKey)
    requires WellFormed(k)
    ensures k.sequence <= MAX_SEQUENCE_NUMBER && PackSequenceAndType(k.sequence, k.kind) < 0x1_0000_0000_0000_0000
    ensures Encoded(k) == k.userKey + LittleEndian(PackSequenceAndType(k.sequence, k.kind), 8)
  {
    PackValue(k.sequence, k.kind);
  }

  method AppendInternalKey(result: Str, k: ParsedInternalKey)
    requires WellFormed(k)
    modifies result
    ensures result.bytes == old(result.bytes) + Encoded(k)
  {
    PackValue(k.sequence, k.kind);
    KeyBytes(k);
    hide *;
    result.Append(k.userKey);
    PutFixed64(result, PackSequenceAndType(k.sequence, k.kind));
    Regroup(old(result.bytes), k.userKey, LittleEndian(PackSequenceAndType(k.sequence, k.kind), 8));
  }

  /** Encoded keys the code accepts: `ExtractUserKey` asserts at least eight bytes. */
  type InternalKey = b: Bytes | |b| >= 8 witness [0, 0, 0, 0, 0, 0, 0, 0]

  function ExtractUserKey(k: InternalKey): Bytes {
    k[..|k| - 8]
  }

  function Trailer(k: InternalKey): nat {
    DecodeFixed64(k[|k| - 8..])
  }

  /** Too short, or with a type that does not exist, a key is refused. */
  function ParseInternalKey(k: Bytes): Option<ParsedInternalKey> {
    if |k| < 8 then None
    else
      var num := Trailer(k);
      var c := BitAnd(num, 0xff);
      if c <= TypeValue.Code() then
        Some(ParsedInternalKey(ExtractUserKey(k), Shr(num, 8), if c == 0 then TypeDeletion else TypeValue))
      else None
  }

  /** `InternalKeyComparator::compare` over the bytewise comparator. */
  function InternalCompare(a: InternalKey, b: InternalKey): int {
    var r := Compare(ExtractUserKey(a), ExtractUserKey(b));
    if r == 0 then
      var aNum, bNum := Trailer(a), Trailer(b);
      if aNum > bNum then -1 else if aNum < bNum then 1 else 0
    else r
  }

  // ----- encoding, parsing and order

  lemma TrailerParts(num: nat)
    ensures BitAnd(num, 0xff) == num % 256 && Shr(num, 8) == num / 256
  {
    Pow2Values();
    AndMask(num, 8);
    LowIsMod(num, 8);
    ShrSmall(num);
  }

  lemma EncodedParts(k: ParsedInternalKey)
    requires WellFormed(k)
    ensures |Encoded(k)| == |k.userKey| + 8
    ensures ExtractUserKey(Encoded(k)) == k.userKey
    ensures Trailer(Encoded(k)) == 256 * k.sequence + k.kind.Code()
  {
    hide DecodeFixed64;
    var e := Encoded(k);
    PackValue(k.sequence, k.kind);
    var word := LittleEndian(PackSequenceAndType(k.sequence, k.kind), 8);
    assert e[|e| - 8..] == word;
    Fixed64RoundTrip(PackSequenceAndType(k.sequence, k.kind), []);
  }

  /** Parsing inverts encoding, and only encodings of well-formed keys parse. */
  lemma ParseInvertsEncode(k: ParsedInternalKey)
    requires WellFormed(k)
    ensures ParseInternalKey(Encoded(k)) == Some(k)
  {
    hide Encoded, Trailer, BitAnd, Shr, ExtractUserKey;
    EncodedParts(k);
    TrailerParts(Trailer(Encoded(k)));
  }

  lemma EncodeInvertsParse(b: Bytes)
    requires ParseInternalKey(b).Some?
    ensures WellFormed(ParseInternalKey(b).value) && Encoded(ParseInternalKey(b).value) == b
  {
    hide DecodeFixed64, BitAnd, Shr, LittleEndian, PackSequenceAndType;
    var num := Trailer(b);
    TrailerParts(num);
    DecodeFixed64Value(b[|b| - 8..]);
    var k := ParseInternalKey(b).value;
    PackValue(k.sequence, k.kind);
    Fixed64RoundTrip(0, b[|b| - 8..]);
    assert b == ExtractUserKey(b) + b[|b| - 8..];
  }

  /** The comparator on byte strings is a total order in which only identical keys compare equal. */
  lemma InternalCompareTotalOrder()
    ensures TotalPreorder(InternalCompare)
    ensures forall a: InternalKey, b: InternalKey :: InternalCompare(a, b) == 0 <==> a == b
  {
    hide DecodeFixed64, Compare, ExtractUserKey;
    CompareTotalOrder();
    forall a: InternalKey, b: InternalKey
      ensures InternalCompare(a, b) < 0 <==> InternalCompare(b, a) > 0
      ensures InternalCompare(a, b) == 0 <==> a == b
    {
      if InternalCompare(a, b) == 0 { SamePartsSameKey(a, b); }
    }
    forall a: InternalKey, b: InternalKey, c: InternalKey | InternalCompare(a, b) <= 0 && InternalCompare(b, c) <= 0
      ensures InternalCompare(a, c) <= 0
    {
      Flip(Compare, ExtractUserKey(a), ExtractUserKey(b));
      if Compare(ExtractUserKey(a), ExtractUserKey(b)) < 0 {
        LtLe(Compare, ExtractUserKey(a), ExtractUserKey(b), ExtractUserKey(c));
      } else if Compare(ExtractUserKey(b), ExtractUserKey(c)) < 0 {
        LeLt(Compare, ExtractUserKey(a), ExtractUserKey(b), ExtractUserKey(c));
      }
    }
  }

  lemma SamePartsSameKey(a: InternalKey, b: InternalKey)
    requires ExtractUserKey(a) == ExtractUserKey(b) && Trailer(a) == Trailer(b)
    ensures a == b
  {
    hide *;
    KeyFromParts(a);
    KeyFromParts(b);
  }

  lemma KeyFromParts(a: InternalKey)
    ensures a == ExtractUserKey(a) + LittleEndian(Trailer(a), 8)
  {
    hide DecodeFixed64, LittleEndian;
    Fixed64RoundTrip(0, a[|a| - 8..]);
  }

  /** User key ascending, then sequence number descending, then type descending. */
  ghost predicate ParsedBefore(a: ParsedInternalKey, b: ParsedInternalKey) {
    || Less(a.userKey, b.userKey)
    || (a.userKey == b.userKey && a.sequence > b.sequence)
    || (a.userKey == b.userKey && a.sequence == b.sequence && a.kind.Code() > b.kind.Code())
  }

  /** The comparator orders encodings as `ParsedBefore` orders the keys they stand for. */
  lemma CompareOrdersParsed(a: InternalKey, b: InternalKey)
    requires ParseInternalKey(a).Some? && ParseInternalKey(b).Some?
    ensures InternalCompare(a, b) < 0 <==> ParsedBefore(ParseInternalKey(a).value, ParseInternalKey(b).value)
    ensures InternalCompare(a, b) > 0 <==> ParsedBefore(ParseInternalKey(b).value, ParseInternalKey(a).value)
    ensures InternalCompare(a, b) == 0 <==> ParseInternalKey(a).value == ParseInternalKey(b).value
  {
    hide Trailer, BitAnd, Shr, ExtractUserKey, Compare, Less;
    TrailerParts(Trailer(a));
    TrailerParts(Trailer(b));
    CompareIsDictionaryOrder(ExtractUserKey(a), ExtractUserKey(b));
  }

  // ----- shortening

  /** The key put in place of a shortened user key: it sorts before every entry of that user key. */
  function SeekKey(userKey: Bytes): InternalKey {
    PackValue(MAX_SEQUENCE_NUMBER, VALUE_TYPE_FOR_SEEK);
    Encoded(ParsedInternalKey(userKey, MAX_SEQUENCE_NUMBER, VALUE_TYPE_FOR_SEEK))
  }

  predicate Shortens(userKey: Bytes, shorter: Bytes) {
    |shorter| < |userKey| && Compare(userKey, shorter) < 0
  }

  function InternalSeparator(start: InternalKey, limit: InternalKey): InternalKey {
    var tmp := Separator(ExtractUserKey(start), ExtractUserKey(limit));
    if Shortens(ExtractUserKey(start), tmp) then SeekKey(tmp) else start
  }

  function InternalSuccessor(key: InternalKey): InternalKey {
    var tmp := ShortSuccessor(ExtractUserKey(key));
    if Shortens(ExtractUserKey(key), tmp) then SeekKey(tmp) else key
  }

  /** Keys are ordered by their user keys when these differ. */
  lemma UserKeyDecides(a: InternalKey, b: InternalKey)
    ensures Compare(ExtractUserKey(a), ExtractUserKey(b)) != 0 ==>
              InternalCompare(a, b) == Compare(ExtractUserKey(a), ExtractUserKey(b))
  {
  }

  lemma SeekKeyParts(userKey: Bytes)
    ensures ExtractUserKey(SeekKey(userKey)) == userKey
    ensures ParseInternalKey(SeekKey(userKey)) ==
            Some(ParsedInternalKey(userKey, MAX_SEQUENCE_NUMBER, VALUE_TYPE_FOR_SEEK))
  {
    EncodedParts(ParsedInternalKey(userKey, MAX_SEQUENCE_NUMBER, VALUE_TYPE_FOR_SEEK));
    ParseInvertsEncode(ParsedInternalKey(userKey, MAX_SEQUENCE_NUMBER, VALUE_TYPE_FOR_SEEK));
  }

  /** No entry of the user key sorts before its seek key. */
  lemma SeekKeyIsFirst(userKey: Bytes, k: InternalKey)
    requires ParseInternalKey(k).Some? && ExtractUserKey(k) == userKey
    ensures InternalCompare(SeekKey(userKey), k) <= 0
  {
    SeekKeyParts(userKey);
    EncodeInvertsParse(k);
    CompareOrdersParsed(SeekKey(userKey), k);
    hide InternalCompare, SeekKey, Less;
    CompareIsDictionaryOrder(userKey, userKey);
    CompareTotalOrder();
  }

  /** What is put in place of a key: the shorter user key with the largest sequence number
      there is, so that it sorts before all entries of that user key. */
  ghost predicate PutInPlace(r: InternalKey, userKey: Bytes) {
    && ParseInternalKey(r) == Some(ParsedInternalKey(userKey, 0xff_ffff_ffff_ffff, TypeValue))
    && forall k: InternalKey :: ParseInternalKey(k).Some? && ExtractUserKey(k) == userKey ==> InternalCompare(r, k) <= 0
  }

  lemma SeekKeyPutInPlace(userKey: Bytes)
    ensures PutInPlace(SeekKey(userKey), userKey)
  {
    hide InternalCompare, SeekKey, ExtractUserKey, ParseInternalKey;
    SeekKeyParts(userKey);
    forall k: InternalKey | ParseInternalKey(k).Some? && ExtractUserKey(k) == userKey
      ensures InternalCompare(SeekKey(userKey), k) <= 0
    {
      SeekKeyIsFirst(userKey, k);
    }
  }

  /** The separator in full: start is replaced exactly when its user key has room before the
      limit's at a byte that is not its last, and then by the shortened user key. */
  lemma InternalSeparatorIs(start: InternalKey, limit: InternalKey)
    ensures var u, v, r := ExtractUserKey(start), ExtractUserKey(limit), InternalSeparator(start, limit);
            && (r != start <==> exists i: nat :: RoomAt(u, v, i) && i + 1 < |u|)
            && (r != start ==> PutInPlace(r, Separator(u, v)))
  {
    hide InternalCompare, SeekKey, Compare, Separator, LeastAbove, ExtractUserKey, PutInPlace, RoomAt;
    var u, v := ExtractUserKey(start), ExtractUserKey(limit);
    SeparatorIsLeast(u, v);
    SeekKeyPutInPlace(Separator(u, v));
    SeekKeyParts(Separator(u, v));
  }

  /** The successor in full: a key is replaced exactly when some byte string shorter than its
      user key is above it, and then by the short successor of the user key. */
  lemma InternalSuccessorIs(key: InternalKey)
    ensures var u, r := ExtractUserKey(key), InternalSuccessor(key);
            && (r != key <==> exists s :: Shortens(u, s))
            && (r != key ==> PutInPlace(r, ShortSuccessor(u)))
  {
    hide InternalCompare, SeekKey, Compare, ShortSuccessor, LeastAbove, ExtractUserKey, PutInPlace;
    var u := ExtractUserKey(key);
    SuccessorIsShortest(u);
    SuccessorIsLeast(u);
    SeekKeyPutInPlace(ShortSuccessor(u));
    SeekKeyParts(ShortSuccessor(u));
  }

  method FindShortestInternalSeparator(start: Str, limit: InternalKey)
    requires |start.bytes| >= 8
    modifies start
    ensures start.bytes == InternalSeparator(old(start.bytes), limit)
  {
    var userStart, userLimit := ExtractUserKey(start.bytes), ExtractUserKey(limit);
    var tmp := new Str(userStart);
    FindShortestSeparator(tmp, userLimit);
    if |tmp.bytes| < |userStart| && Compare(userStart, tmp.bytes) < 0 {
      ReplacedSeparator(start.bytes, limit);
      PackValue(MAX_SEQUENCE_NUMBER, VALUE_TYPE_FOR_SEEK);
      PutFixed64(tmp, PackSequenceAndType(MAX_SEQUENCE_NUMBER, VALUE_TYPE_FOR_SEEK));
      assert InternalCompare(start.bytes, tmp.bytes) < 0;
      assert InternalCompare(tmp.bytes, limit) < 0;
      start.Swap(tmp);
    }
  }

  method FindShortInternalSuccessor(key: Str)
    requires |key.bytes| >= 8
    modifies key
    ensures key.bytes == InternalSuccessor(old(key.bytes))
  {
    var userKey := ExtractUserKey(key.bytes);
    var tmp := new Str(userKey);
    FindShortSuccessor(tmp);
    if |tmp.bytes| < |userKey| && Compare(userKey, tmp.bytes) < 0 {
      SeekKeyParts(tmp.bytes);
      UserKeyDecides(key.bytes, SeekKey(tmp.bytes));
      PackValue(MAX_SEQUENCE_NUMBER, VALUE_TYPE_FOR_SEEK);
      PutFixed64(tmp, PackSequenceAndType(MAX_SEQUENCE_NUMBER, VALUE_TYPE_FOR_SEEK));
      assert InternalCompare(key.bytes, tmp.bytes) < 0;
      key.Swap(tmp);
    }
  }

  /** A separator that was put in place lies strictly between start and limit. */
  lemma ReplacedSeparator(start: InternalKey, limit: InternalKey)
    requires Shortens(ExtractUserKey(start), Separator(ExtractUserKey(start), ExtractUserKey(limit)))
    ensures InternalCompare(start, InternalSeparator(start, limit)) < 0
    ensures InternalCompare(InternalSeparator(start, limit), limit) < 0
    ensures |InternalSeparator(start, limit)| < |start|
  {
    hide Compare, Trailer, Less;
    var tmp := Separator(ExtractUserKey(start), ExtractUserKey(limit));
    SeekKeyParts(tmp);
    UserKeyDecides(start, SeekKey(tmp));
    UserKeyDecides(SeekKey(tmp), limit);
    SeparatorBetween(ExtractUserKey(start), ExtractUserKey(limit));
    EncodedParts(ParsedInternalKey(tmp, MAX_SEQUENCE_NUMBER, VALUE_TYPE_FOR_SEEK));
  }

  /** The separator splits the keys as start and limit did: every key up to start stays below
      a replaced one, and every key from limit on stays above it. */
  lemma SeparatorSplitsKeys(start: InternalKey, limit: InternalKey)
    requires InternalSeparator(start, limit) != start
    ensures ParseInternalKey(InternalSeparator(start, limit)).Some?
    ensures forall k: InternalKey :: InternalCompare(k, start) <= 0 ==>
              InternalCompare(k, InternalSeparator(start, limit)) < 0
    ensures forall k: InternalKey :: InternalCompare(limit, k) <= 0 ==>
              InternalCompare(InternalSeparator(start, limit), k) < 0
  {
    ReplacedSeparator(start, limit);
    SeekKeyParts(Separator(ExtractUserKey(start), ExtractUserKey(limit)));
    InternalCompareTotalOrder();
    hide InternalCompare, InternalSeparator, TotalPreorder;
    var r := InternalSeparator(start, limit);
    forall k: InternalKey | InternalCompare(k, start) <= 0
      ensures InternalCompare(k, r) < 0
    {
      LeLt(InternalCompare, k, start, r);
    }
    forall k: InternalKey | InternalCompare(limit, k) <= 0
      ensures InternalCompare(r, k) < 0
    {
      LtLe(InternalCompare, r, limit, k);
    }
  }

  /** A replaced successor is above the key and every key below it, and shorter. */
  lemma SuccessorIsAbove(key: InternalKey)
    ensures InternalCompare(key, InternalSuccessor(key)) <= 0
    ensures InternalSuccessor(key) != key ==>
              InternalCompare(key, InternalSuccessor(key)) < 0 && |InternalSuccessor(key)| < |key|
    ensures forall k: InternalKey :: InternalCompare(k, key) <= 0 ==> InternalCompare(k, InternalSuccessor(key)) <= 0
  {
    InternalCompareTotalOrder();
    var tmp := ShortSuccessor(ExtractUserKey(key));
    if Shortens(ExtractUserKey(key), tmp) {
      SeekKeyParts(tmp);
      UserKeyDecides(key, SeekKey(tmp));
      EncodedParts(ParsedInternalKey(tmp, MAX_SEQUENCE_NUMBER, VALUE_TYPE_FOR_SEEK));
    }
    hide InternalCompare, InternalSuccessor, Compare;
  }

  // ----- lookup keys

  /** `memcpy` into a buffer. */
  method CopyInto(dst: array<byte>, off: nat, src: Bytes)
    requires off + |src| <= dst.Length
    modifies dst
    ensures dst[..off + |src|] == old(dst[..off]) + src
    ensures dst[off + |src|..] == old(dst[off + |src|..])
  {
    var i := 0;
    while i < |src|
      invariant 0 <= i <= |src|
      invariant dst[..off + i] == old(dst[..off]) + src[..i]
      invariant dst[off + |src|..] == old(dst[off + |src|..])
    {
      dst[off + i] := src[i];
      i := i + 1;
    }
    assert src[..|src|] == src;
  }

  lemma LengthPrefix(n: nat)
    ensures Low(n, 32) < 0x1_0000_0000 && |Varint(Low(n, 32))| <= 5
  {
    Pow2Values();
    LowBound(n, 32);
    VarintBytes(Low(n, 32));
  }

  /** The three writes through the moving pointer. */
  method FillLookup(dst: array<byte>, userKey: Bytes, length: uint32, word: uint64) returns (p: nat, e: nat)
    requires |Varint(length)| + |userKey| + 8 <= dst.Length
    modifies dst
    ensures p == |Varint(length)| && e == p + |userKey| + 8
    ensures dst[..e] == Varint(length) + (userKey + LittleEndian(word, 8))
  {
    hide *;
    p := EncodeVarint32(dst, 0, length);
    assert dst[..p] == dst[0..p];
    CopyInto(dst, p, userKey);
    e := p + |userKey|;
    EncodeFixed64(dst, e, word);
    e := e + 8;
    assert dst[..e] == dst[..e - 8] + dst[e - 8..e];
    assert dst[..e] == Varint(length) + (userKey + LittleEndian(word, 8));
  }

  /** The bytes behind a lookup: a length prefix, the user key, and the snapshot's trailer. */
  class LookupKey {
    const buffer: array<byte>
    const keyStart: nat
    const end: nat

    ghost predicate Valid()
      reads this, buffer
    {
      keyStart <= end <= buffer.Length && end - keyStart >= 8
    }

    /** Keys that fit use the 200 bytes inside the object. The length is cut to 32 bits. */
    constructor (userKey: Bytes, sequence: nat)
      requires sequence <= MAX_SEQUENCE_NUMBER
      ensures Valid() && fresh(buffer)
      ensures buffer[..end] ==
              Varint(Low(|userKey| + 8, 32)) + Encoded(ParsedInternalKey(userKey, sequence, VALUE_TYPE_FOR_SEEK))
      ensures keyStart == |Varint(Low(|userKey| + 8, 32))|
    {
      var usize := |userKey|;
      var needed := usize + 13;
      var dst := new byte[if needed <= 200 then 200 else needed];
      LengthPrefix(usize + 8);
      PackValue(sequence, VALUE_TYPE_FOR_SEEK);
      KeyBytes(ParsedInternalKey(userKey, sequence, VALUE_TYPE_FOR_SEEK));
      hide Low, Varint, LittleEndian, PackSequenceAndType, Encoded;
      var p, e := FillLookup(dst, userKey, Low(usize + 8, 32), PackSequenceAndType(sequence, VALUE_TYPE_FOR_SEEK));
      buffer := dst;
      keyStart := p;
      end := e;
    }

    method MemtableKey() returns (s: Bytes)
      requires Valid()
      ensures s == buffer[..end]
    {
      s := buffer[0..end];
    }

    method GetInternalKey() returns (s: Bytes)
      requires Valid()
      ensures s == buffer[keyStart..end]
    {
      s := buffer[keyStart..end];
    }

    method UserKey() returns (s: Bytes)
      requires Valid()
      ensures s == buffer[keyStart..end - 8]
    {
      s := buffer[keyStart..end - 8];
    }
  }

  /** The three views of a lookup key. */
  method LookupViews(userKey: Bytes, sequence: nat) returns (memtable: Bytes, internal: Bytes, user: Bytes)
    requires sequence <= MAX_SEQUENCE_NUMBER
    ensures internal == Encoded(ParsedInternalKey(userKey, sequence, VALUE_TYPE_FOR_SEEK))
    ensures memtable == Varint(Low(|internal|, 32)) + internal
    ensures user == userKey
  {
    var k := new LookupKey(userKey, sequence);
    memtable := k.MemtableKey();
    internal := k.GetInternalKey();
    user := k.UserKey();
    EncodedParts(ParsedInternalKey(userKey, sequence, VALUE_TYPE_FOR_SEEK));
    assert internal == k.buffer[..k.end][k.keyStart..];
    assert user == internal[..|internal| - 8];
  }

  /** Reading the memtable key as a length-prefixed slice gives the internal key back exactly
      when its length fits 32 bits; beyond that the prefix was cut. */
  lemma MemtableKeyReads(internal: Bytes)
    ensures ReadSlice(Varint(Low(|internal|, 32)) + internal) == (Some(internal), []) <==> |internal| < 0x1_0000_0000
  {
    SliceRoundTrip(internal, []);
    assert SliceBytes(internal) + [] == Varint(Low(|internal|, 32)) + internal;
  }
}
