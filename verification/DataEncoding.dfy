/**
 * Writing encoded values into a buffer (src/common/bit_operations.cpp:18-148).
 */
module DataEncoding {
  import opened Bits
  import opened FloatEncoding
  import opened KeyEncoding

  /** A buffer that got some bytes at a place and is otherwise as it was. */
  ghost predicate Written(before: seq<Byte>, after: seq<Byte>, at: nat, bytes: seq<Byte>) {
    at + |bytes| <= |before| && after == before[..at] + bytes + before[at + |bytes|..]
  }

  lemma WrittenTwice(s0: seq<Byte>, s1: seq<Byte>, s2: seq<Byte>, at: nat, a: seq<Byte>, b: seq<Byte>)
    requires Written(s0, s1, at, a) && Written(s1, s2, at + |a|, b)
    ensures Written(s0, s2, at, a + b)
  {
    assert s1[..at + |a|] == s0[..at] + a;
    assert s1[at + |a| + |b|..] == s0[at + |a| + |b|..];
  }

  /** Stores the bytes of a number so that its highest byte comes first, on machines of either kind. */
  method Store(buffer: array<Byte>, at: nat, v: nat, n: nat, isLittleEndian: bool)
    requires at + n <= buffer.Length
    modifies buffer
    ensures Written(old(buffer[..]), buffer[..], at, BigEndian(v, n))
  {
    StoredIsBigEndian(v, n, isLittleEndian);
    var bytes := if isLittleEndian then LittleEndian(ByteSwap(v, n), n) else BigEndian(v, n);
    hide BigEndian, LittleEndian, ByteSwap;
    for i := 0 to n
      invariant forall k | 0 <= k < i :: buffer[at + k] == bytes[k]
      invariant forall k | 0 <= k < buffer.Length && !(at <= k < at + i) :: buffer[k] == old(buffer[k])
    {
      buffer[at + i] := bytes[i];
    }
    assert buffer[..] == old(buffer[..])[..at] + bytes + old(buffer[..])[at + n..];
  }

  method EncodeBool(buffer: array<Byte>, at: nat, v: bool)
    requires at < buffer.Length
    modifies buffer
    ensures Written(old(buffer[..]), buffer[..], at, [if v then 1 else 0])
  {
    buffer[at] := if v then 1 else 0;
  }

  /** An unsigned number of `n` bytes. */
  method EncodeUnsigned(buffer: array<Byte>, at: nat, v: nat, n: nat, isLittleEndian: bool)
    requires at + n <= buffer.Length && v < Pow256(n)
    modifies buffer
    ensures Written(old(buffer[..]), buffer[..], at, BigEndian(v, n))
  {
    Store(buffer, at, v, n, isLittleEndian);
  }

  /** A signed number of `n` bytes: its pattern, with the sign bit flipped in place. */
  method EncodeSigned(buffer: array<Byte>, at: nat, v: int, n: nat, isLittleEndian: bool)
    requires at + n <= buffer.Length && InRange(v, n)
    modifies buffer
    ensures Written(old(buffer[..]), buffer[..], at, EncodedSigned(v, n))
  {
    hide BigEndian, Written, FlipFirst;
    ghost var before := buffer[..];
    Store(buffer, at, Pattern(v, n), n, isLittleEndian);
    ghost var stored := buffer[..];
    buffer[at] := FlipSign(buffer[at]);
    assert buffer[..] == stored[at := FlipSign(stored[at])];
    FlipWritten(before, stored, at, BigEndian(Pattern(v, n), n));
  }

  lemma FlipWritten(before: seq<Byte>, stored: seq<Byte>, at: nat, bytes: seq<Byte>)
    requires Written(before, stored, at, bytes) && bytes != []
    ensures at < |stored| && Written(before, stored[at := FlipSign(stored[at])], at, FlipFirst(bytes))
  {
    assert FlipFirst(bytes) == bytes[0 := FlipSign(bytes[0])];
  }

  method EncodeHuge(buffer: array<Byte>, at: nat, h: HugeInt, isLittleEndian: bool)
    requires at + 16 <= buffer.Length && HugeInRange(h)
    modifies buffer
    ensures Written(old(buffer[..]), buffer[..], at, EncodedHuge(h))
  {
    hide BigEndian, EncodedSigned, Written;
    SignedLength(h.upper, 8);
    ghost var s0 := buffer[..];
    EncodeSigned(buffer, at, h.upper, 8, isLittleEndian);
    ghost var s1 := buffer[..];
    EncodeUnsigned(buffer, at + 8, h.lower, 8, isLittleEndian);
    WrittenTwice(s0, s1, buffer[..], at, EncodedSigned(h.upper, 8), BigEndian(h.lower, 8));
  }

  datatype Interval = Interval(months: int, days: int, micros: int)

  predicate IntervalInRange(v: Interval) {
    InRange(v.months, 4) && InRange(v.days, 4) && InRange(v.micros, 8)
  }

  function EncodedInterval(v: Interval): seq<Byte>
    requires IntervalInRange(v)
  {
    EncodedSigned(v.months, 4) + EncodedSigned(v.days, 4) + EncodedSigned(v.micros, 8)
  }

  method EncodeInterval(buffer: array<Byte>, at: nat, v: Interval, isLittleEndian: bool)
    requires at + 16 <= buffer.Length && IntervalInRange(v)
    modifies buffer
    ensures Written(old(buffer[..]), buffer[..], at, EncodedInterval(v))
  {
    hide EncodedSigned, Written;
    SignedLength(v.months, 4);
    SignedLength(v.days, 4);
    SignedLength(v.micros, 8);
    ghost var s0 := buffer[..];
    EncodeSigned(buffer, at, v.months, 4, isLittleEndian);
    ghost var s1 := buffer[..];
    EncodeSigned(buffer, at + 4, v.days, 4, isLittleEndian);
    ghost var s2 := buffer[..];
    EncodeSigned(buffer, at + 8, v.micros, 8, isLittleEndian);
    WrittenTwice(s0, s1, s2, at, EncodedSigned(v.months, 4), EncodedSigned(v.days, 4));
    WrittenTwice(s0, s2, buffer[..], at, EncodedSigned(v.months, 4) + EncodedSigned(v.days, 4),
                 EncodedSigned(v.micros, 8));
  }

  /** By months, then days, then microseconds, each as stored. */
  predicate EntriesBefore(v: Interval, w: Interval) {
    || v.months < w.months
    || (v.months == w.months && (v.days < w.days || (v.days == w.days && v.micros < w.micros)))
  }

  /** Encoded intervals are ordered by their entries as stored; Intervals says when that is the order of intervals. */
  lemma IntervalOrder(v: Interval, w: Interval)
    requires IntervalInRange(v) && IntervalInRange(w)
    ensures Before(EncodedInterval(v), EncodedInterval(w)) <==> EntriesBefore(v, w)
  {
    SignedLength(v.months, 4);
    SignedLength(v.days, 4);
    SignedLength(w.months, 4);
    SignedLength(w.days, 4);
    hide EncodedSigned, Before;
    SignedOrder(v.months, w.months, 4);
    SignedOrder(v.days, w.days, 4);
    SignedOrder(v.micros, w.micros, 8);
    var a := EncodedSigned(v.months, 4) + EncodedSigned(v.days, 4);
    var b := EncodedSigned(w.months, 4) + EncodedSigned(w.days, 4);
    BeforeAppended(a, b, EncodedSigned(v.micros, 8), EncodedSigned(w.micros, 8));
    BeforeAppended(EncodedSigned(v.months, 4), EncodedSigned(w.months, 4), EncodedSigned(v.days, 4),
                   EncodedSigned(w.days, 4));
    assert a == b <==>
           && EncodedSigned(v.months, 4) == EncodedSigned(w.months, 4)
           && EncodedSigned(v.days, 4) == EncodedSigned(w.days, 4)
    by {
      assert a[..4] == EncodedSigned(v.months, 4) && a[4..] == EncodedSigned(v.days, 4);
      assert b[..4] == EncodedSigned(w.months, 4) && b[4..] == EncodedSigned(w.days, 4);
    }
  }

  lemma BitsInRange(f: Format, x: Number)
    requires NumberOk(f, x) && x.Finite?
    ensures FloatBits(f, x) < Pow2(f.exponentBits + f.fractionBits + 1)
  {
    FieldBound(f, x);
  }

  /** A number of 32 bits, examined and changed by masks. */
  method EncodeFloat(x: Number) returns (e: nat)
    requires NumberOk(FLOAT, x)
    ensures e == EncodeNumber(FLOAT, x)
  {
    hide Pow2, Magnitude, Field;
    var sign := SignBit(FLOAT);
    if IsZero(FLOAT, x) {
      return sign;
    }
    if x.Infinite? {
      SignPositive(FLOAT);
      return if x.negative then 0 else 2 * sign - 1;
    }
    var buff := FloatBits(FLOAT, x);
    BitsInRange(FLOAT, x);
    SignBitTest(buff, 31);
    TwiceSign(FLOAT);
    if And(buff, sign) == 0 {
      e := Or(buff, sign);
    } else {
      e := 2 * sign - 1 - buff;
    }
  }

  lemma SignPositive(f: Format)
    ensures SignBit(f) > 0
  {
  }

  lemma TwiceSign(f: Format)
    ensures Pow2(f.exponentBits + f.fractionBits + 1) == 2 * SignBit(f)
  {
  }

  /** A number of 64 bits, examined and changed by arithmetic. */
  method EncodeDouble(x: Number) returns (e: nat)
    requires NumberOk(DOUBLE, x)
    ensures e == EncodeNumber(DOUBLE, x)
  {
    hide Pow2, Magnitude, Field;
    var sign := SignBit(DOUBLE);
    if IsZero(DOUBLE, x) {
      return sign;
    }
    if x.Infinite? {
      SignPositive(DOUBLE);
      return if x.negative then 0 else 2 * sign - 1;
    }
    var buff := FloatBits(DOUBLE, x);
    BitsInRange(DOUBLE, x);
    TwiceSign(DOUBLE);
    if buff < sign {
      e := buff + sign;
    } else {
      e := 2 * sign - 1 - buff;
    }
  }

  method EncodeFloatData(buffer: array<Byte>, at: nat, x: Number, isLittleEndian: bool)
    requires at + 4 <= buffer.Length && NumberOk(FLOAT, x)
    modifies buffer
    ensures EncodeNumber(FLOAT, x) >= 0
    ensures Written(old(buffer[..]), buffer[..], at, BigEndian(EncodeNumber(FLOAT, x), 4))
  {
    var e := EncodeFloat(x);
    Store(buffer, at, e, 4, isLittleEndian);
  }

  method EncodeDoubleData(buffer: array<Byte>, at: nat, x: Number, isLittleEndian: bool)
    requires at + 8 <= buffer.Length && NumberOk(DOUBLE, x)
    modifies buffer
    ensures EncodeNumber(DOUBLE, x) >= 0
    ensures Written(old(buffer[..]), buffer[..], at, BigEndian(EncodeNumber(DOUBLE, x), 8))
  {
    var e := EncodeDouble(x);
    Store(buffer, at, e, 8, isLittleEndian);
  }

  lemma {:induction false} BytesAreBits(n: nat)
    ensures Pow256(n) == Pow2(8 * n)
  {
    if n > 0 {
      BytesAreBits(n - 1);
      var k := 8 * (n - 1);
      Pow2Eight(k);
      assert 8 * n == k + 8;
    }
  }

  lemma Pow2Eight(k: nat)
    ensures Pow2(k + 8) == 256 * Pow2(k)
  {
    assert Pow2(k + 8) == 2 * Pow2(k + 7) && Pow2(k + 7) == 2 * Pow2(k + 6);
    assert Pow2(k + 6) == 2 * Pow2(k + 5) && Pow2(k + 5) == 2 * Pow2(k + 4);
    assert Pow2(k + 4) == 2 * Pow2(k + 3) && Pow2(k + 3) == 2 * Pow2(k + 2);
    assert Pow2(k + 2) == 2 * Pow2(k + 1) && Pow2(k + 1) == 2 * Pow2(k);
  }

  /** The bytes of floating-point numbers, NaN aside, are ordered as the numbers are. */
  lemma FloatBytesOrder(f: Format, n: nat, x: Number, y: Number)
    requires NumberOk(f, x) && NumberOk(f, y) && f.exponentBits + f.fractionBits + 1 == 8 * n
    ensures EncodeNumber(f, x) >= 0 && EncodeNumber(f, y) >= 0
    ensures Before(BigEndian(EncodeNumber(f, x), n), BigEndian(EncodeNumber(f, y), n)) <==> Less(f, x, y)
  {
    EncodedInRange(f, x);
    EncodedInRange(f, y);
    TwiceSign(f);
    BytesAreBits(n);
    hide BigEndian, Before, EncodeNumber, Less;
    EncodeOrder(f, x, y);
    BigEndianOrder(EncodeNumber(f, x), EncodeNumber(f, y), n);
  }

  lemma EncodedInRange(f: Format, x: Number)
    requires NumberOk(f, x)
    ensures 0 <= EncodeNumber(f, x) < 2 * SignBit(f)
  {
    if x.Finite? {
      FiniteEncoding(f, x);
    } else {
      SignPositive(f);
    }
  }
}
