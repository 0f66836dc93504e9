/**
  Decimal numbers in text: written without leading zeros, and read back with an overflow
  check that needs no wider arithmetic.
 */
module Logging {
  import opened Wrappers
  import opened Bits
  import opened Slices

  const MAX_UINT64: nat := 0xffff_ffff_ffff_ffff

  predicate IsDigit(b: byte) {
    0x30 <= b <= 0x39
  }

  function Digit(b: byte): nat
    requires IsDigit(b)
  {
    b - 0x30
  }

  /** The length of the longest prefix of digits. */
  function DigitCount(bs: Bytes): (n: nat)
    ensures n <= |bs|
    ensures forall i :: 0 <= i < n ==> IsDigit(bs[i])
    ensures n < |bs| ==> !IsDigit(bs[n])
  {
    if bs == [] || !IsDigit(bs[0]) then 0 else 1 + DigitCount(bs[1..])
  }

  /** The number a string of digits denotes. */
  function DecimalValue(ds: Bytes): nat
    requires forall i :: 0 <= i < |ds| ==> IsDigit(ds[i])
  {
    if ds == [] then 0 else 10 * DecimalValue(ds[..|ds| - 1]) + Digit(ds[|ds| - 1])
  }

  /** `std::to_string` of an unsigned number. */
  function Decimal(n: nat): (ds: Bytes)
    ensures |ds| >= 1 && forall i :: 0 <= i < |ds| ==> IsDigit(ds[i])
  {
    if n < 10 then [0x30 + n] else Decimal(n / 10) + [0x30 + n % 10]
  }

  method AppendNumberTo(str: Str, num: uint64)
    modifies str
    ensures str.bytes == old(str.bytes) + Decimal(num)
  {
    str.Append(Decimal(num));
  }

  method NumberToString(num: uint64) returns (r: Bytes)
    ensures r == Decimal(num)
  {
    var s := new Str([]);
    AppendNumberTo(s, num);
    r := s.bytes;
  }

  /** What a reader makes of the front of `bs`: the number of the longest prefix of digits and
      what follows it, if there is a digit and the number fits 64 bits. */
  function ReadDecimal(bs: Bytes): Option<(nat, Bytes)> {
    var n := DigitCount(bs);
    if n > 0 && DecimalValue(bs[..n]) <= MAX_UINT64 then Some((DecimalValue(bs[..n]), bs[n..])) else None
  }

  /** `*val` comes in as `before`. It is overwritten unless the number overflows; the input
      moves on only when a number was read. */
  method ConsumeDecimalNumber(input: Slice, before: uint64) returns (ok: bool, val: uint64)
    modifies input
    ensures ReadDecimal(old(input.data)) == if ok then Some((val, input.data)) else None
    ensures !ok ==> input.data == old(input.data)
    ensures !ok ==> val == if DigitCount(input.data) == 0 then 0 else before
  {
    var bs := input.data;
    var value: nat := 0;
    var current := 0;
    while current < |bs|
      invariant current <= |bs| && forall i :: 0 <= i < current ==> IsDigit(bs[i])
      invariant value == DecimalValue(bs[..current]) <= MAX_UINT64
    {
      var ch := bs[current];
      if ch < 0x30 || ch > 0x39 {
        break;
      }
      assert bs[..current + 1][..current] == bs[..current];
      if value > MAX_UINT64 / 10 || (value == MAX_UINT64 / 10 && ch > 0x30 + (MAX_UINT64 % 10)) {
        Overflows(bs, current + 1);
        return false, before;
      }
      value := value * 10 + (ch - 0x30);
      current := current + 1;
    }
    DigitCountIs(bs, current);
    val := value;
    input.RemovePrefix(current);
    ok := current != 0;
  }

  lemma DigitCountIs(bs: Bytes, n: nat)
    requires n <= |bs| && forall i :: 0 <= i < n ==> IsDigit(bs[i])
    requires n < |bs| ==> !IsDigit(bs[n])
    ensures DigitCount(bs) == n
  {
    var m := DigitCount(bs);
  }

  lemma {:induction false} DecimalGrows(ds: Bytes, n: nat)
    requires n <= |ds| && forall i :: 0 <= i < |ds| ==> IsDigit(ds[i])
    ensures DecimalValue(ds[..n]) <= DecimalValue(ds)
    decreases |ds|
  {
    if n < |ds| {
      var front := ds[..|ds| - 1];
      DecimalGrows(front, n);
      assert front[..n] == ds[..n];
    } else {
      assert ds[..n] == ds;
    }
  }

  /** Once a prefix of the digits is too large, all of them are. */
  lemma Overflows(bs: Bytes, n: nat)
    requires n <= |bs| && (forall i :: 0 <= i < n ==> IsDigit(bs[i])) && DecimalValue(bs[..n]) > MAX_UINT64
    ensures ReadDecimal(bs) == None && (n > 0 ==> DigitCount(bs) > 0)
  {
    var m := DigitCount(bs);
    assert n <= m;
    assert bs[..m][..n] == bs[..n];
    DecimalGrows(bs[..m], n);
  }

  lemma {:induction false} DecimalRoundTrip(n: nat)
    ensures DecimalValue(Decimal(n)) == n
  {
    if n >= 10 {
      DecimalRoundTrip(n / 10);
      var ds := Decimal(n);
      assert ds[..|ds| - 1] == Decimal(n / 10);
    } else {
      assert DecimalValue([0x30 + n][..0]) == 0;
    }
  }

  /** Text written by `NumberToString` is read back with what follows untouched, exactly when
      what follows does not begin with a digit. */
  lemma ReadsWhatWasWritten(n: uint64, rest: Bytes)
    ensures ReadDecimal(Decimal(n) + rest) == Some((n as nat, rest)) <==> rest == [] || !IsDigit(rest[0])
  {
    var ds := Decimal(n);
    var bs := ds + rest;
    DecimalRoundTrip(n);
    var m := DigitCount(bs);
    assert |ds| <= m;
    if rest == [] || !IsDigit(rest[0]) {
      DigitCountIs(bs, |ds|);
      assert bs[..|ds|] == ds && bs[|ds|..] == rest;
    } else {
      assert bs[|ds|] == rest[0];
      assert m > |ds|;
    }
  }

  // ----- leading zeros

  function Zeros(k: nat): (zs: Bytes)
    ensures |zs| == k && forall i :: 0 <= i < k ==> zs[i] == 0x30
  {
    if k == 0 then [] else Zeros(k - 1) + [0x30]
  }

  /** Numbers are written without leading zeros. */
  lemma {:induction false} NoLeadingZero(n: nat)
    ensures Decimal(n)[0] == 0x30 <==> n == 0
    ensures n == 0 ==> Decimal(n) == [0x30]
  {
    if n >= 10 { NoLeadingZero(n / 10); }
  }

  /** Every string of digits is a number as it is written, behind some zeros. */
  lemma {:induction false} DigitsAre(ds: Bytes) returns (k: nat)
    requires ds != [] && forall i :: 0 <= i < |ds| ==> IsDigit(ds[i])
    ensures ds == Zeros(k) + Decimal(DecimalValue(ds))
  {
    var front, d := ds[..|ds| - 1], ds[|ds| - 1];
    assert ds == front + [d];
    if front == [] {
      k := 0;
    } else {
      k := DigitsAre(front);
      var v := DecimalValue(front);
      if v == 0 {
        assert front == Zeros(k) + [0x30];
        k := k + 1;
      } else {
        assert (10 * v + Digit(d)) / 10 == v;
        assert ds == Zeros(k) + (Decimal(v) + [d]);
      }
    }
  }

  lemma {:induction false} ZerosAddNothing(k: nat, ds: Bytes)
    requires forall i :: 0 <= i < |ds| ==> IsDigit(ds[i])
    ensures DecimalValue(Zeros(k) + ds) == DecimalValue(ds)
    decreases k + |ds|
  {
    var bs := Zeros(k) + ds;
    if ds != [] {
      ZerosAddNothing(k, ds[..|ds| - 1]);
      assert bs[..|bs| - 1] == Zeros(k) + ds[..|ds| - 1];
    } else if k > 0 {
      ZerosAddNothing(k - 1, []);
      assert bs[..|bs| - 1] == Zeros(k - 1) + [];
      assert bs[|bs| - 1] == 0x30;
    }
  }

  /** The bytes are zeros, a number below 2^64 as it is written, and a rest that does not go on
      with a digit. */
  ghost predicate NumberInFront(bs: Bytes, k: nat, v: nat, rest: Bytes) {
    bs == Zeros(k) + Decimal(v) + rest && v < 0x1_0000_0000_0000_0000 && (rest == [] || !IsDigit(rest[0]))
  }

  /** On arbitrary bytes: what is read, and exactly when. */
  lemma ReadDecimalOnAnyBytes(bs: Bytes, v: nat, rest: Bytes)
    ensures ReadDecimal(bs) == Some((v, rest)) <==> exists k: nat :: NumberInFront(bs, k, v, rest)
  {
    var n := DigitCount(bs);
    if ReadDecimal(bs) == Some((v, rest)) {
      var k := DigitsAre(bs[..n]);
      assert bs == bs[..n] + bs[n..];
      assert NumberInFront(bs, k, v, rest);
    }
    forall k: nat | NumberInFront(bs, k, v, rest)
      ensures ReadDecimal(bs) == Some((v, rest))
    {
      var ds := Zeros(k) + Decimal(v);
      DigitCountIs(bs, |ds|);
      ZerosAddNothing(k, Decimal(v));
      DecimalRoundTrip(v);
      assert bs[..|ds|] == ds && bs[|ds|..] == rest;
    }
  }
}
