/**
  Fixed-width little-endian words and base-128 variable-length integers (unsigned LEB128,
  section 7.6 of DWARF Version 5), with the streaming readers built on them.
 */
module Coding {
  import opened Bits
  import opened Slices
  import opened Wrappers

  // ----- the two formats, stated on byte strings

  /** Unsigned LEB128: seven bits a byte, low bits first, the top bit set on all but the last. */
  function Varint(v: nat): (bs: Bytes)
    ensures |bs| >= 1
  {
    if v < 128 then [v] else [128 + v % 128] + Varint(v / 128)
  }

  /** The number whose base-128 digits, low first, are the low seven bits of the bytes. */
  function Base128(bs: Bytes): nat {
    if bs == [] then 0 else bs[0] % 128 + 128 * Base128(bs[1..])
  }

  /** The length of the varint at the front of `bs`: the position after the first byte
      below 128 among the first `max` bytes, or 0 when there is none. */
  function VarintSize(bs: Bytes, max: nat): (n: nat)
    ensures n <= max && n <= |bs|
    ensures n > 0 ==> bs[n - 1] < 128 && forall i :: 0 <= i < n - 1 ==> bs[i] >= 128
    ensures n == 0 ==> forall i :: 0 <= i < |bs| && i < max ==> bs[i] >= 128
  {
    if bs == [] || max == 0 then 0
    else if bs[0] < 128 then 1
    else var m := VarintSize(bs[1..], max - 1);
      if m == 0 then 0 else m + 1
  }

  /** `n` bytes of `v`, low byte first. */
  function LittleEndian(v: nat, n: nat): (bs: Bytes)
    ensures |bs| == n
    decreases n, v
  {
    if n == 0 then [] else [v % 256] + LittleEndian(v / 256, n - 1)
  }

  function FromLittleEndian(bs: Bytes): nat {
    if bs == [] then 0 else bs[0] + 256 * FromLittleEndian(bs[1..])
  }

  // ----- varint: the encoders

  /** Number of bytes of the encoding, by magnitude. */
  lemma VarintBytes(v: nat)
    ensures v < 0x1_0000_0000 ==> |Varint(v)| <= 5
    ensures v < 0x1_0000_0000_0000_0000 ==> |Varint(v)| <= 10
  {
    Pow2Values();
    Pow2Monotone(32, 35);
    Pow2Monotone(64, 70);
    VarintBytesBound(v, 5);
    VarintBytesBound(v, 10);
  }

  lemma GroupBound(v: nat, p: nat)
    ensures v / 128 < p <==> v < 128 * p
  {
  }

  /** `n` bytes are enough exactly for the numbers of `7 * n` bits. */
  lemma {:induction false} VarintBytesBound(v: nat, n: nat)
    requires n >= 1
    ensures v < Pow2(7 * n) <==> |Varint(v)| <= n
  {
    hide Scale, Pow2;
    Pow2Values();
    if n > 1 {
      ScaleMore(0, 7 * (n - 1));
      if v >= 128 {
        VarintBytesBound(v / 128, n - 1);
        GroupBound(v, Pow2(7 * (n - 1)));
      } else {
        Pow2Monotone(0, 7 * (n - 1));
      }
    }
  }

  /** The byte stored by `*ptr = v | 128`. */
  function Flagged(v: nat): byte {
    FlaggedByte(v);
    Low(BitOr(v, 128), 8)
  }

  lemma VarintStep(v: nat, q: nat)
    requires v >= 128 && q == v / 128
    ensures Varint(v) == [Flagged(v)] + Varint(q)
  {
    FlaggedByte(v);
  }

  lemma VarintLast(v: nat)
    requires v < 128
    ensures Varint(v) == [v]
  {
  }

  lemma NestedShifts(v: uint32)
    ensures Shr(v, 7) == v / 128
    ensures Shr(v, 14) == Shr(v, 7) / 128
    ensures Shr(v, 21) == Shr(v, 14) / 128
    ensures Shr(v, 28) == Shr(v, 21) / 128
    ensures v < 0x80 ==> Shr(v, 7) == 0
    ensures v < 0x4000 <==> Shr(v, 7) < 128
    ensures v < 0x20_0000 <==> Shr(v, 14) < 128
    ensures v < 0x1000_0000 <==> Shr(v, 21) < 128
    ensures Shr(v, 28) < 128
  {
    ShrMore(v, 0);
    ShrMore(v, 7);
    ShrMore(v, 14);
    ShrMore(v, 21);
  }

  /** What the unrolled encoder stores, case by case. */
  lemma UnrolledStores(v: uint32)
    ensures v < 0x80 ==> Varint(v) == [v]
    ensures 0x80 <= v < 0x4000 ==> Shr(v, 7) < 128 && Varint(v) == [Flagged(v), Shr(v, 7)]
    ensures 0x4000 <= v < 0x20_0000 ==>
              Shr(v, 14) < 128 && Varint(v) == [Flagged(v), Flagged(Shr(v, 7)), Shr(v, 14)]
    ensures 0x20_0000 <= v < 0x1000_0000 ==>
              Shr(v, 21) < 128
              && Varint(v) == [Flagged(v), Flagged(Shr(v, 7)), Flagged(Shr(v, 14)), Shr(v, 21)]
    ensures 0x1000_0000 <= v ==>
              Shr(v, 28) < 128
              && Varint(v) == [Flagged(v), Flagged(Shr(v, 7)), Flagged(Shr(v, 14)), Flagged(Shr(v, 21)), Shr(v, 28)]
  {
    hide *;
    var v1, v2, v3, v4 := Shr(v, 7), Shr(v, 14), Shr(v, 21), Shr(v, 28);
    NestedShifts(v);
    if v < 0x80 {
      VarintLast(v);
    } else {
      VarintStep(v, v1);
      if v < 0x4000 {
        VarintLast(v1);
      } else {
        VarintStep(v1, v2);
        if v < 0x20_0000 {
          VarintLast(v2);
        } else {
          VarintStep(v2, v3);
          if v < 0x1000_0000 {
            VarintLast(v3);
          } else {
            VarintStep(v3, v4);
            VarintLast(v4);
          }
        }
      }
    }
  }

  /** What one turn of the encoding loop stores. */
  lemma LoopStore(v: nat)
    requires v >= 128
    ensures Varint(v) == [Flagged(v)] + Varint(Shr(v, 7))
    ensures Shr(v, 7) == v / 128 < v
  {
    ShrSmall(v);
    FlaggedByte(v);
  }

  /** The five-case unrolled encoder. Nothing outside the written bytes changes. */
  method EncodeVarint32(dst: array<byte>, off: nat, value: uint32) returns (end: nat)
    requires off + |Varint(value)| <= dst.Length
    modifies dst
    ensures end == off + |Varint(value)|
    ensures dst[off..end] == Varint(value)
    ensures dst[..off] == old(dst[..off]) && dst[end..] == old(dst[end..])
  {
    hide *;
    UnrolledStores(value);
    if value < 0x80 {
      dst[off] := value;
      end := off + 1;
    } else if value < 0x4000 {
      dst[off] := Flagged(value);
      dst[off + 1] := Shr(value, 7);
      end := off + 2;
    } else if value < 0x20_0000 {
      dst[off] := Flagged(value);
      dst[off + 1] := Flagged(Shr(value, 7));
      dst[off + 2] := Shr(value, 14);
      end := off + 3;
    } else if value < 0x1000_0000 {
      dst[off] := Flagged(value);
      dst[off + 1] := Flagged(Shr(value, 7));
      dst[off + 2] := Flagged(Shr(value, 14));
      dst[off + 3] := Shr(value, 21);
      end := off + 4;
    } else {
      dst[off] := Flagged(value);
      dst[off + 1] := Flagged(Shr(value, 7));
      dst[off + 2] := Flagged(Shr(value, 14));
      dst[off + 3] := Flagged(Shr(value, 21));
      dst[off + 4] := Shr(value, 28);
      end := off + 5;
    }
  }

  /** The loop encoder. */
  method EncodeVarint64(dst: array<byte>, off: nat, value: uint64) returns (end: nat)
    requires off + |Varint(value)| <= dst.Length
    modifies dst
    ensures end == off + |Varint(value)|
    ensures dst[off..end] == Varint(value)
    ensures dst[..off] == old(dst[..off]) && dst[end..] == old(dst[end..])
  {
    hide *;
    var v: nat := value;
    end := off;
    while v >= 128
      invariant off <= end && end + |Varint(v)| == off + |Varint(value)|
      invariant dst[off..end] + Varint(v) == Varint(value)
      invariant dst[..off] == old(dst[..off])
      invariant forall i :: end <= i < dst.Length ==> dst[i] == old(dst[i])
      decreases v
    {
      LoopStore(v);
      ghost var written := dst[off..end];
      dst[end] := Flagged(v);
      assert dst[off..end + 1] == written + [Flagged(v)];
      v := Shr(v, 7);
      end := end + 1;
      assert dst[off..end] + Varint(v) == written + ([dst[end - 1]] + Varint(v));
    }
    VarintLast(v);
    ghost var written := dst[off..end];
    dst[end] := v;
    end := end + 1;
    assert dst[off..end] == written + [v];
  }

  method PutVarint32(dst: Str, value: uint32)
    modifies dst
    ensures dst.bytes == old(dst.bytes) + Varint(value)
  {
    VarintBytes(value);
    var buf := new byte[5];
    var end := EncodeVarint32(buf, 0, value);
    dst.Append(buf[..end]);
  }

  method PutVarint64(dst: Str, value: uint64)
    modifies dst
    ensures dst.bytes == old(dst.bytes) + Varint(value)
  {
    VarintBytes(value);
    var buf := new byte[10];
    var end := EncodeVarint64(buf, 0, value);
    dst.Append(buf[..end]);
  }

  method VarintLength(v: uint64) returns (len: nat)
    ensures len == |Varint(v)|
  {
    var rest: nat := v;
    len := 1;
    while rest >= 128
      invariant len + |Varint(rest)| == 1 + |Varint(v)|
      decreases rest
    {
      LoopStore(rest);
      rest := Shr(rest, 7);
      len := len + 1;
    }
  }

  // ----- varint: the decoders

  /** What a varint reader does with the bytes in front of it: at most `max` bytes are
      looked at, and the value is kept in a word of `w` bits. */
  function ReadVarint(bs: Bytes, max: nat, w: nat): Option<(nat, Bytes)> {
    var n := VarintSize(bs, max);
    if n == 0 then None else Some((Low(Base128(bs[..n]), w), bs[n..]))
  }

  lemma {:induction false} Base128Append(bs: Bytes, b: byte)
    ensures Base128(bs + [b]) == Base128(bs) + Scale(b % 128, 7 * |bs|)
    ensures Base128(bs) < Pow2(7 * |bs|)
  {
    if bs == [] {
      assert Base128([b]) == b % 128 + 128 * Base128([b][1..]);
    } else {
      Base128Append(bs[1..], b);
      assert (bs + [b])[1..] == bs[1..] + [b];
      ScaleMore(b % 128, 7 * (|bs| - 1));
    }
  }

  /** One turn of the decoding loops, on a continuation byte and on a last byte. */
  lemma DecodeStep(bs: Bytes, b: byte, w: nat)
    requires 7 * |bs| <= w
    ensures BitAnd(b, 128) != 0 <==> b >= 128
    ensures b >= 128 && 7 * |bs| + 7 <= w ==>
              BitOr(Base128(bs), Shl(BitAnd(b, 127), 7 * |bs|, w)) == Base128(bs + [b])
    ensures b < 128 ==>
              BitOr(Base128(bs), Shl(b, 7 * |bs|, w)) == Low(Base128(bs + [b]), w)
  {
    hide *;
    ByteFlag(b);
    ByteMask(b);
    Base128Append(bs, b);
    OrShifted(Base128(bs), b % 128, 7 * |bs|, w);
    if 7 * |bs| + 7 <= w { Base128Fits(bs + [b], w); }
  }

  lemma Base128Fits(bs: Bytes, w: nat)
    requires 7 * |bs| <= w
    ensures Low(Base128(bs), w) == Base128(bs)
  {
    Base128Append(bs, 0);
    Pow2Monotone(7 * |bs|, w);
    LowBound(Base128(bs), w);
  }

  /** A decoding loop that stops at the first byte below 128 stops at `VarintSize`. */
  lemma VarintSizeIs(bs: Bytes, max: nat, n: nat)
    requires n <= |bs| && n <= max
    requires forall i :: 0 <= i < n ==> bs[i] >= 128
    ensures n < |bs| && n < max && bs[n] < 128 ==> VarintSize(bs, max) == n + 1
    ensures n == |bs| || n == max ==> VarintSize(bs, max) == 0
  {
  }

  /** The same, as what the reader returns from `buf[p..limit]` when the loop is at `cur`. */
  lemma ReadsAt(buf: Bytes, p: nat, limit: nat, cur: nat, max: nat, w: nat)
    requires p <= cur <= limit <= |buf| && cur - p <= max
    requires forall i :: p <= i < cur ==> buf[i] >= 128
    ensures cur < limit && cur - p < max && buf[cur] < 128 ==>
              ReadVarint(buf[p..limit], max, w) == Some((Low(Base128(buf[p..cur + 1]), w), buf[cur + 1..limit]))
    ensures cur == limit || cur - p == max ==> ReadVarint(buf[p..limit], max, w) == None
  {
    var bs := buf[p..limit];
    VarintSizeIs(bs, max, cur - p);
    if cur < limit {
      assert bs[..cur + 1 - p] == buf[p..cur + 1];
      assert bs[cur + 1 - p..] == buf[cur + 1..limit];
    }
  }

  lemma OneMore(buf: Bytes, p: nat, cur: nat)
    requires p <= cur < |buf|
    ensures buf[p..cur + 1] == buf[p..cur] + [buf[cur]]
  {
  }

  method GetVarint32PtrFallback(buf: Bytes, p: nat, limit: nat) returns (q: Option<nat>, value: uint32)
    requires p <= limit <= |buf|
    ensures q.Some? ==> p < q.value <= limit
    ensures ReadVarint(buf[p..limit], 5, 32) ==
            if q.None? then None else Some((value, buf[q.value..limit]))
  {
    hide Low, BitOr, BitAnd, Shl, Pow2, VarintSize, ReadVarint;
    var result: nat := 0;
    var shift := 0;
    var cur := p;
    value := 0;
    Pow2Values();
    while shift <= 28 && cur < limit
      invariant p <= cur <= limit && shift == 7 * (cur - p) <= 35
      invariant forall i :: p <= i < cur ==> buf[i] >= 128
      invariant shift <= 28 ==> result == Base128(buf[p..cur])
    {
      var byt := buf[cur];
      ghost var bs := buf[p..cur];
      DecodeStep(bs, byt, 32);
      ReadsAt(buf, p, limit, cur, 5, 32);
      cur := cur + 1;
      OneMore(buf, p, cur - 1);
      if BitAnd(byt, 128) != 0 {
        result := BitOr(result, Shl(BitAnd(byt, 127), shift, 32));
      } else {
        result := BitOr(result, Shl(byt, shift, 32));
        LowBound(Base128(buf[p..cur]), 32);
        return Some(cur), result;
      }
      shift := shift + 7;
    }
    ReadsAt(buf, p, limit, cur, 5, 32);
    return None, 0;
  }

  /** The one-byte fast path in front of the loop. */
  method GetVarint32Ptr(buf: Bytes, p: nat, limit: nat) returns (q: Option<nat>, value: uint32)
    requires p <= limit <= |buf|
    ensures q.Some? ==> p < q.value <= limit
    ensures ReadVarint(buf[p..limit], 5, 32) ==
            if q.None? then None else Some((value, buf[q.value..limit]))
  {
    hide Low, BitAnd, VarintSize, Pow2;
    if p < limit {
      var result := buf[p];
      ByteFlag(result);
      if BitAnd(result, 128) == 0 {
        Pow2Values();
        assert buf[p..limit][..1] == [result];
        assert Base128([result]) == result + 128 * Base128([result][1..]);
        LowBound(result, 32);
        assert buf[p..limit][1..] == buf[p + 1..limit];
        return Some(p + 1), result;
      }
    }
    q, value := GetVarint32PtrFallback(buf, p, limit);
  }

  method GetVarint64Ptr(buf: Bytes, p: nat, limit: nat) returns (q: Option<nat>, value: uint64)
    requires p <= limit <= |buf|
    ensures q.Some? ==> p < q.value <= limit
    ensures ReadVarint(buf[p..limit], 10, 64) ==
            if q.None? then None else Some((value, buf[q.value..limit]))
  {
    hide Low, BitOr, BitAnd, Shl, Pow2, VarintSize, ReadVarint;
    var result: nat := 0;
    var shift := 0;
    var cur := p;
    value := 0;
    Pow2Values();
    while shift <= 63 && cur < limit
      invariant p <= cur <= limit && shift == 7 * (cur - p) <= 70
      invariant forall i :: p <= i < cur ==> buf[i] >= 128
      invariant shift <= 63 ==> result == Base128(buf[p..cur])
    {
      var byt := buf[cur];
      ghost var bs := buf[p..cur];
      DecodeStep(bs, byt, 64);
      ReadsAt(buf, p, limit, cur, 10, 64);
      cur := cur + 1;
      OneMore(buf, p, cur - 1);
      if BitAnd(byt, 128) != 0 {
        result := BitOr(result, Shl(BitAnd(byt, 127), shift, 64));
      } else {
        result := BitOr(result, Shl(byt, shift, 64));
        LowBound(Base128(buf[p..cur]), 64);
        return Some(cur), result;
      }
      shift := shift + 7;
    }
    ReadsAt(buf, p, limit, cur, 10, 64);
    return None, 0;
  }

  /** On failure the input is left as it was. */
  method GetVarint32(input: Slice) returns (ok: bool, value: uint32)
    modifies input
    ensures ReadVarint(old(input.data), 5, 32) == if ok then Some((value, input.data)) else None
    ensures !ok ==> input.data == old(input.data)
  {
    var buf := input.data;
    var q, v := GetVarint32Ptr(buf, 0, |buf|);
    assert buf[0..|buf|] == buf;
    if q.None? {
      return false, 0;
    }
    input.data := buf[q.value..|buf|];
    return true, v;
  }

  method GetVarint64(input: Slice) returns (ok: bool, value: uint64)
    modifies input
    ensures ReadVarint(old(input.data), 10, 64) == if ok then Some((value, input.data)) else None
    ensures !ok ==> input.data == old(input.data)
  {
    var buf := input.data;
    var q, v := GetVarint64Ptr(buf, 0, |buf|);
    assert buf[0..|buf|] == buf;
    if q.None? {
      return false, 0;
    }
    input.data := buf[q.value..|buf|];
    return true, v;
  }

  /** On arbitrary bytes: a reader succeeds exactly when a byte below 128 is among the first
      `max`, and then yields the base-128 number up to the first such byte, modulo `2^w`. */
  lemma ReadVarintOnAnyBytes(bs: Bytes, max: nat, w: nat)
    ensures ReadVarint(bs, max, w).Some? <==> exists i :: 0 <= i < |bs| && i < max && bs[i] < 128
    ensures forall i :: (0 <= i < |bs| && i < max && bs[i] < 128 && forall j :: 0 <= j < i ==> bs[j] >= 128) ==>
              ReadVarint(bs, max, w) == Some((Base128(bs[..i + 1]) % Pow2(w), bs[i + 1..]))
  {
    hide *;
    var n := VarintSize(bs, max);
    ReadVarintIs(bs, max, w);
    if n > 0 {
      assert bs[n - 1] < 128;
    }
    forall i | 0 <= i < |bs| && i < max && bs[i] < 128 && forall j :: 0 <= j < i ==> bs[j] >= 128
      ensures ReadVarint(bs, max, w) == Some((Base128(bs[..i + 1]) % Pow2(w), bs[i + 1..]))
    {
      ReadVarintAt(bs, max, w, i);
    }
  }

  lemma ReadVarintAt(bs: Bytes, max: nat, w: nat, i: nat)
    requires i < |bs| && i < max && bs[i] < 128 && forall j :: 0 <= j < i ==> bs[j] >= 128
    ensures ReadVarint(bs, max, w) == Some((Base128(bs[..i + 1]) % Pow2(w), bs[i + 1..]))
  {
    hide *;
    VarintSizeIs(bs, max, i);
    ReadVarintIs(bs, max, w);
  }

  lemma ReadVarintIs(bs: Bytes, max: nat, w: nat)
    ensures var n := VarintSize(bs, max);
            ReadVarint(bs, max, w) == if n == 0 then None else Some((Base128(bs[..n]) % Pow2(w), bs[n..]))
  {
    hide Low, Pow2, Base128, VarintSize;
    LowIsMod(Base128(bs[..VarintSize(bs, max)]), w);
  }

  lemma Base128Split(bs: Bytes)
    requires bs != []
    ensures Base128(bs) / 128 == Base128(bs[1..]) && Low(Base128(bs), 7) == Low(bs[0], 7)
  {
    Pow2Values();
    LowIsMod(Base128(bs), 7);
    LowIsMod(bs[0], 7);
  }

  /** `Base128` read off digit by digit: byte `i` contributes exactly its low seven bits. */
  lemma {:induction false} Base128Digit(bs: Bytes, i: nat)
    requires i < |bs|
    ensures Low(Shr(Base128(bs), 7 * i), 7) == Low(bs[i], 7)
  {
    hide *;
    Base128Split(bs);
    ShrSmall(Base128(bs));
    if i > 0 {
      Base128Digit(bs[1..], i - 1);
      ShrAdd(Base128(bs), 7, 7 * (i - 1));
    }
  }

  // ----- varint: encoding against decoding

  lemma {:induction false} VarintShape(v: nat)
    ensures Varint(v)[|Varint(v)| - 1] < 128
    ensures forall i :: 0 <= i < |Varint(v)| - 1 ==> Varint(v)[i] >= 128
    ensures |Varint(v)| > 1 ==> Varint(v)[|Varint(v)| - 1] > 0
    ensures Base128(Varint(v)) == v
  {
    hide Varint, Base128;
    if v < 128 {
      VarintLast(v);
      Base128Cons(v, []);
    } else {
      var tail := Varint(v / 128);
      VarintShape(v / 128);
      VarintCons(v);
      if v / 128 < 128 { VarintLast(v / 128); } else { VarintCons(v / 128); }
      Base128Cons(128 + v % 128, tail);
    }
  }

  lemma VarintCons(v: nat)
    requires v >= 128
    ensures Varint(v) == [128 + v % 128] + Varint(v / 128)
  {
  }

  lemma Base128Cons(b: byte, bs: Bytes)
    ensures Base128([b] + bs) == b % 128 + 128 * Base128(bs)
    ensures bs == [] ==> Base128([b]) == b % 128
  {
    assert ([b] + bs)[1..] == bs && ([b] + bs)[0] == b;
    assert Base128([]) == 0;
    if bs == [] { assert [b] + bs == [b]; }
  }

  /** The encoding is the only byte string of its shape without a zero top group, and a
      padded string of the same value is longer. */
  lemma {:induction false} VarintCanonical(bs: Bytes)
    requires bs != [] && bs[|bs| - 1] < 128
    requires forall i :: 0 <= i < |bs| - 1 ==> bs[i] >= 128
    ensures bs == Varint(Base128(bs)) <==> |bs| == 1 || bs[|bs| - 1] > 0
    ensures |Varint(Base128(bs))| <= |bs|
  {
    if |bs| == 1 {
      assert Base128(bs) == bs[0] + 128 * Base128(bs[1..]);
    } else {
      var tail := bs[1..];
      var v := Base128(bs);
      VarintCanonical(tail);
      assert v / 128 == Base128(tail) && 128 + v % 128 == bs[0];
      VarintShape(v);
      if v >= 128 {
        assert Varint(v)[1..] == Varint(v / 128);
        assert bs == [bs[0]] + tail;
      }
    }
  }

  /** Reading back what was written, whatever follows; and no strict prefix is accepted. */
  lemma VarintRoundTrip(v: nat, rest: Bytes, max: nat, w: nat)
    requires |Varint(v)| <= max && v < Pow2(w)
    ensures ReadVarint(Varint(v) + rest, max, w) == Some((v, rest))
    ensures forall k :: 0 <= k < |Varint(v)| ==> ReadVarint(Varint(v)[..k], max, w) == None
  {
    var bs := Varint(v);
    VarintShape(v);
    VarintSizeIs(bs + rest, max, |bs| - 1);
    assert (bs + rest)[..|bs|] == bs && (bs + rest)[|bs|..] == rest;
    LowBound(v, w);
    forall k | 0 <= k < |bs|
      ensures VarintSize(bs[..k], max) == 0
    {
      VarintSizeIs(bs[..k], max, k);
    }
  }

  lemma ReadVarintFits(bs: Bytes, max: nat, w: nat)
    ensures ReadVarint(bs, max, w).Some? ==> ReadVarint(bs, max, w).value.0 < Pow2(w)
  {
    LowBound(Base128(bs[..VarintSize(bs, max)]), w);
  }

  // ----- length-prefixed slices

  /** The length is cut to 32 bits on its way into the encoder. */
  method PutLengthPrefixedSlice(dst: Str, value: Bytes)
    modifies dst
    ensures dst.bytes == old(dst.bytes) + SliceBytes(value)
  {
    hide Varint, Low, Pow2;
    Pow2Values();
    LowBound(|value|, 32);
    PutVarint32(dst, Low(|value|, 32));
    dst.Append(value);
    Regroup(old(dst.bytes), Varint(Low(|value|, 32)), value);
  }

  function SliceBytes(value: Bytes): Bytes {
    Varint(Low(|value|, 32)) + value
  }

  lemma Regroup(a: Bytes, b: Bytes, c: Bytes)
    ensures (a + b) + c == a + (b + c)
  {
  }

  /** The slice read, if any, and what is left. When the length is readable but the bytes
      are too few, the read fails with the length already consumed. */
  function ReadSlice(bs: Bytes): (Option<Bytes>, Bytes) {
    match ReadVarint(bs, 5, 32)
    case None => (None, bs)
    case Some((len, rest)) => if |rest| >= len then (Some(rest[..len]), rest[len..]) else (None, rest)
  }

  method GetLengthPrefixedSlice(input: Slice) returns (ok: bool, result: Bytes)
    modifies input
    ensures ReadSlice(old(input.data)) == (if ok then Some(result) else None, input.data)
  {
    result := [];
    var len;
    ok, len := GetVarint32(input);
    if ok && |input.data| >= len {
      result := input.data[..len];
      input.RemovePrefix(len);
    } else {
      ok := false;
    }
  }

  /** Byte `i` is the first one below 128, and it is among the first `max`. */
  predicate LastByteAt(bs: Bytes, max: nat, i: nat) {
    i < |bs| && i < max && bs[i] < 128 && forall j :: 0 <= j < i ==> bs[j] >= 128
  }

  /** On arbitrary bytes, the three outcomes of a slice read: no length among the first five
      bytes, and nothing is taken; too few bytes behind the length, and the length is taken and
      nothing else; or the slice is read and what follows it is left. */
  lemma ReadSliceOnAnyBytes(bs: Bytes)
    ensures (forall i: nat :: !LastByteAt(bs, 5, i)) ==> ReadSlice(bs) == (None, bs)
    ensures forall i: nat :: LastByteAt(bs, 5, i) ==>
              var len, rest := Base128(bs[..i + 1]) % 0x1_0000_0000, bs[i + 1..];
              ReadSlice(bs) == if len <= |rest| then (Some(rest[..len]), rest[len..]) else (None, rest)
  {
    hide ReadVarint, Base128, Pow2, VarintSize;
    Pow2Values();
    ReadVarintIs(bs, 5, 32);
    var n := VarintSize(bs, 5);
    if n > 0 { assert LastByteAt(bs, 5, n - 1); }
    forall i: nat | LastByteAt(bs, 5, i)
      ensures n == i + 1
    {
      VarintSizeIs(bs, 5, i);
    }
  }

  /** A failed slice read gives the bytes back exactly when it failed on the length. */
  lemma FailedSliceReadLeaves(bs: Bytes)
    requires ReadSlice(bs).0.None?
    ensures ReadSlice(bs).1 == bs <==> ReadVarint(bs, 5, 32).None?
  {
    if ReadVarint(bs, 5, 32).Some? {
      assert |ReadSlice(bs).1| < |bs|;
    }
  }

  /** A one-byte length with nothing behind it: the read fails, and the length is gone. */
  lemma FailedSliceReadConsumes(len: byte)
    requires 0 < len < 128
    ensures ReadVarint([len], 5, 32) == Some((len, [])) && ReadSlice([len]) == (None, [])
  {
    hide ReadVarint, Varint, Pow2;
    Pow2Values();
    VarintLast(len);
    VarintBytes(len);
    VarintRoundTrip(len, [], 5, 32);
    assert Varint(len) + [] == [len];
  }

  /** A slice is read back, and what follows left alone, exactly when its length fits 32 bits. */
  lemma SliceRoundTrip(d: Bytes, rest: Bytes)
    ensures ReadSlice(SliceBytes(d) + rest) == (Some(d), rest) <==> |d| < 0x1_0000_0000
  {
    hide Low, Varint, Pow2, VarintSize, Base128;
    var len := Low(|d|, 32);
    Pow2Values();
    LowBound(|d|, 32);
    VarintBytes(len);
    VarintRoundTrip(len, d + rest, 5, 32);
    assert SliceBytes(d) + rest == Varint(len) + (d + rest);
    if |d| < 0x1_0000_0000 {
      assert (d + rest)[..len] == d && (d + rest)[len..] == rest;
    } else {
      assert |(d + rest)[..len]| < |d|;
    }
  }

  // ----- streams of mixed items

  datatype Item = Int32(v32: uint32) | Int64(v64: uint64) | Chunk(data: Bytes)
  datatype Kind = KInt32 | KInt64 | KChunk

  predicate Encodable(i: Item) {
    i.Chunk? ==> |i.data| < 0x1_0000_0000
  }

  function KindOf(i: Item): Kind {
    match i
    case Int32(_) => KInt32
    case Int64(_) => KInt64
    case Chunk(_) => KChunk
  }

  /** What the `Put` function of the item's kind appends. */
  function ItemBytes(i: Item): Bytes {
    match i
    case Int32(v) => Varint(v)
    case Int64(v) => Varint(v)
    case Chunk(d) => SliceBytes(d)
  }

  /** What the `Get` function of the kind reads. */
  function ReadItem(k: Kind, bs: Bytes): Option<(Item, Bytes)> {
    ReadVarintFits(bs, 5, 32);
    ReadVarintFits(bs, 10, 64);
    Pow2Values();
    match k
    case KInt32 =>
      (match ReadVarint(bs, 5, 32)
       case None => None
       case Some((v, rest)) => Some((Int32(v), rest)))
    case KInt64 =>
      (match ReadVarint(bs, 10, 64)
       case None => None
       case Some((v, rest)) => Some((Int64(v), rest)))
    case KChunk =>
      (match ReadSlice(bs)
       case (None, _) => None
       case (Some(d), rest) => Some((Chunk(d), rest)))
  }

  function StreamBytes(items: seq<Item>): Bytes {
    if items == [] then [] else ItemBytes(items[0]) + StreamBytes(items[1..])
  }

  function ReadStream(kinds: seq<Kind>, bs: Bytes): Option<(seq<Item>, Bytes)> {
    if kinds == [] then Some(([], bs))
    else match ReadItem(kinds[0], bs)
      case None => None
      case Some((i, rest)) =>
        match ReadStream(kinds[1..], rest)
        case None => None
        case Some((items, rest')) => Some(([i] + items, rest'))
  }

  function Kinds(items: seq<Item>): seq<Kind> {
    seq(|items|, i requires 0 <= i < |items| => KindOf(items[i]))
  }

  lemma ItemRoundTrip(i: Item, rest: Bytes)
    requires Encodable(i)
    ensures ReadItem(KindOf(i), ItemBytes(i) + rest) == Some((i, rest))
  {
    hide Varint, VarintSize, Low, Base128, Pow2, SliceBytes, ReadSlice;
    Pow2Values();
    match i {
      case Int32(v) =>
        VarintBytes(v);
        VarintRoundTrip(v, rest, 5, 32);
      case Int64(v) =>
        VarintBytes(v);
        VarintRoundTrip(v, rest, 10, 64);
      case Chunk(d) =>
        SliceRoundTrip(d, rest);
    }
  }

  /** Any mix of integers and slices written one after the other is read back in order,
      and the bytes that follow are left untouched. */
  lemma {:induction false} StreamRoundTrip(items: seq<Item>, rest: Bytes)
    requires forall i :: 0 <= i < |items| ==> Encodable(items[i])
    ensures ReadStream(Kinds(items), StreamBytes(items) + rest) == Some((items, rest))
  {
    if items == [] {
      assert StreamBytes(items) + rest == rest;
    } else {
      var tail := StreamBytes(items[1..]) + rest;
      assert StreamBytes(items) + rest == ItemBytes(items[0]) + tail;
      ItemRoundTrip(items[0], tail);
      StreamRoundTrip(items[1..], rest);
      assert Kinds(items)[1..] == Kinds(items[1..]);
      assert [items[0]] + items[1..] == items;
    }
  }

  // ----- fixed-width words

  method EncodeFixed32(dst: array<byte>, off: nat, value: uint32)
    requires off + 4 <= dst.Length
    modifies dst
    ensures dst[off..off + 4] == LittleEndian(value, 4)
    ensures dst[..off] == old(dst[..off]) && dst[off + 4..] == old(dst[off + 4..])
  {
    LittleEndianBytes(value, 4);
    dst[off] := LowByte(value, 0);
    dst[off + 1] := LowByte(value, 8);
    dst[off + 2] := LowByte(value, 16);
    dst[off + 3] := LowByte(value, 24);
  }

  method EncodeFixed64(dst: array<byte>, off: nat, value: uint64)
    requires off + 8 <= dst.Length
    modifies dst
    ensures dst[off..off + 8] == LittleEndian(value, 8)
    ensures dst[..off] == old(dst[..off]) && dst[off + 8..] == old(dst[off + 8..])
  {
    LittleEndianBytes(value, 8);
    dst[off] := LowByte(value, 0);
    dst[off + 1] := LowByte(value, 8);
    dst[off + 2] := LowByte(value, 16);
    dst[off + 3] := LowByte(value, 24);
    dst[off + 4] := LowByte(value, 32);
    dst[off + 5] := LowByte(value, 40);
    dst[off + 6] := LowByte(value, 48);
    dst[off + 7] := LowByte(value, 56);
  }

  /** The cast to one byte of `value >> s`. */
  function LowByte(value: nat, s: nat): byte {
    Pow2Values();
    LowBound(Shr(value, s), 8);
    Low(Shr(value, s), 8)
  }

  lemma {:induction false} LittleEndianBytes(v: nat, n: nat)
    ensures forall i :: 0 <= i < n ==> LittleEndian(v, n)[i] == LowByte(v, 8 * i)
  {
    hide Low, Shr, Pow2;
    if n > 0 {
      Pow2Values();
      LowIsMod(v, 8);
      ShrSmall(v);
      LittleEndianBytes(v / 256, n - 1);
      forall i | 1 <= i < n
        ensures LittleEndian(v, n)[i] == LowByte(v, 8 * i)
      {
        ShrAdd(v, 8, 8 * (i - 1));
      }
    }
  }

  method PutFixed32(dst: Str, value: uint32)
    modifies dst
    ensures dst.bytes == old(dst.bytes) + LittleEndian(value, 4)
  {
    var buf := new byte[4];
    EncodeFixed32(buf, 0, value);
    assert buf[0..4] == buf[..];
    dst.Append(buf[..]);
  }

  method PutFixed64(dst: Str, value: uint64)
    modifies dst
    ensures dst.bytes == old(dst.bytes) + LittleEndian(value, 8)
  {
    var buf := new byte[8];
    EncodeFixed64(buf, 0, value);
    assert buf[0..8] == buf[..];
    dst.Append(buf[..]);
  }

  /** Byte `i` widened to a `w`-bit word and moved to its place. */
  function Placed(bs: Bytes, i: nat, w: nat): nat
    requires i < |bs|
  {
    Shl(bs[i], 8 * i, w)
  }

  function DecodeFixed32(bs: Bytes): nat
    requires |bs| >= 4
  {
    BitOr(BitOr(BitOr(bs[0], Placed(bs, 1, 32)), Placed(bs, 2, 32)), Placed(bs, 3, 32))
  }

  function DecodeFixed64(bs: Bytes): nat
    requires |bs| >= 8
  {
    BitOr(BitOr(BitOr(BitOr(BitOr(BitOr(BitOr(bs[0],
      Placed(bs, 1, 64)), Placed(bs, 2, 64)), Placed(bs, 3, 64)),
      Placed(bs, 4, 64)), Placed(bs, 5, 64)), Placed(bs, 6, 64)), Placed(bs, 7, 64))
  }

  lemma {:induction false} FromLittleEndianAppend(bs: Bytes, b: byte)
    ensures FromLittleEndian(bs + [b]) == FromLittleEndian(bs) + Scale(b, 8 * |bs|)
    ensures FromLittleEndian(bs) < Pow2(8 * |bs|)
  {
    if bs == [] {
      assert FromLittleEndian([b]) == b + 256 * FromLittleEndian([b][1..]);
    } else {
      FromLittleEndianAppend(bs[1..], b);
      assert (bs + [b])[1..] == bs[1..] + [b];
      ScaleMore(b, 8 * (|bs| - 1));
    }
  }

  /** Or-ing one more byte above the bytes already decoded. */
  lemma PlacedStep(bs: Bytes, i: nat, w: nat)
    requires i < |bs| && 8 * i + 8 <= w
    ensures BitOr(FromLittleEndian(bs[..i]), Placed(bs, i, w)) == FromLittleEndian(bs[..i + 1])
  {
    hide Low, Scale, Shl, BitOr, FromLittleEndian;
    var low, all := bs[..i], bs[..i + 1];
    assert all == low + [bs[i]];
    FromLittleEndianAppend(low, bs[i]);
    FromLittleEndianAppend(all, 0);
    OrShifted(FromLittleEndian(low), bs[i], 8 * i, w);
    Pow2Monotone(8 * i + 8, w);
    LowBound(FromLittleEndian(all), w);
  }

  lemma FirstByte(bs: Bytes)
    requires bs != []
    ensures FromLittleEndian(bs[..1]) == bs[0]
  {
    assert bs[..1] == [bs[0]];
    assert FromLittleEndian([bs[0]]) == bs[0] + 256 * FromLittleEndian([bs[0]][1..]);
  }

  /** The decoders compute the little-endian value of the first four or eight bytes. */
  lemma DecodeFixed32Value(bs: Bytes)
    requires |bs| >= 4
    ensures DecodeFixed32(bs) == FromLittleEndian(bs[..4]) < 0x1_0000_0000
  {
    hide FromLittleEndian, Placed, BitOr, Low, Scale, Shl;
    Pow2Values();
    FirstByte(bs);
    PlacedStep(bs, 1, 32);
    PlacedStep(bs, 2, 32);
    PlacedStep(bs, 3, 32);
    FromLittleEndianAppend(bs[..4], 0);
  }

  lemma DecodeFixed64Value(bs: Bytes)
    requires |bs| >= 8
    ensures DecodeFixed64(bs) == FromLittleEndian(bs[..8]) < 0x1_0000_0000_0000_0000
  {
    hide FromLittleEndian, Placed, BitOr, Low, Scale, Shl;
    Pow2Values();
    FirstByte(bs);
    PlacedStep(bs, 1, 64);
    PlacedStep(bs, 2, 64);
    PlacedStep(bs, 3, 64);
    PlacedStep(bs, 4, 64);
    PlacedStep(bs, 5, 64);
    PlacedStep(bs, 6, 64);
    PlacedStep(bs, 7, 64);
    FromLittleEndianAppend(bs[..8], 0);
  }

  lemma {:induction false} LittleEndianRoundTrip(v: nat, n: nat)
    requires v < Pow2(8 * n)
    ensures FromLittleEndian(LittleEndian(v, n)) == v
  {
    if n > 0 {
      ScaleMore(0, 8 * (n - 1));
      LittleEndianRoundTrip(v / 256, n - 1);
      assert LittleEndian(v, n)[1..] == LittleEndian(v / 256, n - 1);
    }
  }

  lemma {:induction false} FromLittleEndianRoundTrip(bs: Bytes)
    ensures LittleEndian(FromLittleEndian(bs), |bs|) == bs
  {
    if bs != [] {
      FromLittleEndianRoundTrip(bs[1..]);
      SplitByte(bs[0], FromLittleEndian(bs[1..]));
    }
  }

  lemma SplitByte(b: byte, rest: nat)
    ensures (b + 256 * rest) % 256 == b && (b + 256 * rest) / 256 == rest
  {
  }

  /** Decoding inverts encoding, and encoding inverts decoding. */
  lemma Fixed64RoundTrip(v: uint64, bs: Bytes)
    ensures DecodeFixed64(LittleEndian(v, 8)) == v
    ensures |bs| == 8 ==> LittleEndian(DecodeFixed64(bs), 8) == bs
  {
    hide DecodeFixed64;
    Pow2Values();
    var enc := LittleEndian(v, 8);
    assert enc[..8] == enc;
    DecodeFixed64Value(enc);
    LittleEndianRoundTrip(v, 8);
    if |bs| == 8 {
      assert bs[..8] == bs;
      DecodeFixed64Value(bs);
      FromLittleEndianRoundTrip(bs);
    }
  }

  lemma Fixed32RoundTrip(v: uint32, bs: Bytes)
    ensures DecodeFixed32(LittleEndian(v, 4)) == v
    ensures |bs| == 4 ==> LittleEndian(DecodeFixed32(bs), 4) == bs
  {
    hide DecodeFixed32;
    Pow2Values();
    var enc := LittleEndian(v, 4);
    assert enc[..4] == enc;
    DecodeFixed32Value(enc);
    LittleEndianRoundTrip(v, 4);
    if |bs| == 4 {
      assert bs[..4] == bs;
      DecodeFixed32Value(bs);
      FromLittleEndianRoundTrip(bs);
    }
  }
}
