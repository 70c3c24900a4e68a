/**
 * Encoding of floating-point numbers into unsigned ones of the same order. Numbers are given by the fields of section
 * 3.4 of IEEE 754-2019 (src/common/bit_operations.cpp:22-72, 129-139).
 */
module FloatEncoding {
  import opened Bits

  datatype Format = Format(exponentBits: nat, fractionBits: nat)

  const FLOAT: Format := Format(8, 23)
  const DOUBLE: Format := Format(11, 52)

  /** A number that is not NaN. */
  datatype Number = Finite(negative: bool, exponent: nat, fraction: nat) | Infinite(negative: bool)

  /** A finite number has an exponent below the one reserved for infinities. */
  ghost predicate NumberOk(f: Format, x: Number) {
    0 < f.exponentBits && (x.Finite? ==> x.fraction < Pow2(f.fractionBits) && x.exponent + 1 < Pow2(f.exponentBits))
  }

  /** The value of a number without its sign, in units of the smallest positive number; exponent 0 is subnormal. */
  function Magnitude(f: Format, exponent: nat, fraction: nat): nat {
    if exponent == 0 then fraction else ShiftLeft(Pow2(f.fractionBits) + fraction, exponent - 1)
  }

  function Value(f: Format, x: Number): int
    requires x.Finite?
  {
    if x.negative then -(Magnitude(f, x.exponent, x.fraction) as int) else Magnitude(f, x.exponent, x.fraction)
  }

  /** The order of numbers; both zeros are the same. */
  ghost predicate Less(f: Format, x: Number, y: Number) {
    if x.Infinite? then x.negative && !(y.Infinite? && y.negative)
    else if y.Infinite? then !y.negative
    else Value(f, x) < Value(f, y)
  }

  /** The exponent and fraction fields as one number. */
  function Field(f: Format, exponent: nat, fraction: nat): nat {
    ShiftLeft(exponent, f.fractionBits) + fraction
  }

  /** The number that has only the sign bit. */
  function SignBit(f: Format): nat {
    Pow2(f.exponentBits + f.fractionBits)
  }

  /** The bit pattern of a finite number. */
  function FloatBits(f: Format, x: Number): nat
    requires x.Finite?
  {
    (if x.negative then SignBit(f) else 0) + Field(f, x.exponent, x.fraction)
  }

  predicate IsZero(f: Format, x: Number) {
    x.Finite? && Magnitude(f, x.exponent, x.fraction) == 0
  }

  /** A bit pattern whose sign bit decides what becomes of it. */
  function FlipBits(buff: nat, sign: nat): int {
    if buff < sign then buff + sign else 2 * sign - 1 - buff
  }

  /** Testing and setting the sign bit. */
  lemma {:induction false} SignBitTest(buff: nat, k: nat)
    requires buff < Pow2(k + 1)
    ensures And(buff, Pow2(k)) == 0 <==> buff < Pow2(k)
    ensures buff < Pow2(k) ==> Or(buff, Pow2(k)) == buff + Pow2(k)
  {
    if k == 0 {
      assert And(0, 0) == 0 && Or(0, 1) == 1;
      assert buff == 0 || buff == 1;
    } else {
      SignBitTest(buff / 2, k - 1);
      assert Pow2(k) / 2 == Pow2(k - 1) && Pow2(k) % 2 == 0;
    }
  }

  /** Numbers in increasing order: negative ones by complementing all bits, the others by setting the sign bit. */
  function EncodeNumber(f: Format, x: Number): int {
    if IsZero(f, x) then SignBit(f)
    else if x.Infinite? then if x.negative then 0 else 2 * SignBit(f) - 1
    else FlipBits(FloatBits(f, x), SignBit(f))
  }

  lemma {:induction false} ShiftLeftMonotone(a: nat, b: nat, t: nat)
    ensures a < b <==> ShiftLeft(a, t) < ShiftLeft(b, t)
  {
    if t > 0 {
      ShiftLeftMonotone(a, b, t - 1);
    }
  }

  lemma {:induction false} ShiftMore(a: nat, s: nat, t: nat)
    requires s <= t
    ensures ShiftLeft(a, s) <= ShiftLeft(a, t)
    decreases t
  {
    if s < t {
      ShiftMore(a, s, t - 1);
    }
  }

  lemma {:induction false} ShiftOne(t: nat)
    ensures ShiftLeft(1, t) == Pow2(t)
  {
    if t > 0 {
      ShiftOne(t - 1);
    }
  }

  /** The exponent decides before the fraction. */
  lemma FieldOrder(f: Format, e: nat, x: nat, e': nat, x': nat)
    requires x < Pow2(f.fractionBits) && x' < Pow2(f.fractionBits)
    ensures Field(f, e, x) < Field(f, e', x') <==> e < e' || (e == e' && x < x')
  {
    if e < e' {
      FieldBelow(f, e, x, e', x');
    } else if e' < e {
      FieldBelow(f, e', x', e, x);
    }
  }

  lemma FieldBelow(f: Format, e: nat, x: nat, e': nat, x': nat)
    requires x < Pow2(f.fractionBits) && e < e'
    ensures Field(f, e, x) < Field(f, e', x')
  {
    ShiftOne(f.fractionBits);
    ShiftLeftAdd(e, 1, f.fractionBits);
    if e + 1 < e' {
      ShiftLeftMonotone(e + 1, e', f.fractionBits);
    }
  }

  lemma MagnitudeBelow(f: Format, e: nat, x: nat, e': nat, x': nat)
    requires x < Pow2(f.fractionBits) && e < e'
    ensures Magnitude(f, e, x) < Magnitude(f, e', x')
  {
    var p := Pow2(f.fractionBits);
    assert Magnitude(f, e, x) < ShiftLeft(p, e) by {
      if e > 0 {
        ShiftLeftMonotone(p + x, 2 * p, e - 1);
        ShiftLeftAdd(p, p, e - 1);
      }
    }
    ShiftMore(p, e, e' - 1);
    if x' > 0 {
      ShiftLeftMonotone(p, p + x', e' - 1);
    }
  }

  /** Magnitudes have the order of the fields. */
  lemma MagnitudeOrder(f: Format, e: nat, x: nat, e': nat, x': nat)
    requires x < Pow2(f.fractionBits) && x' < Pow2(f.fractionBits)
    ensures Magnitude(f, e, x) < Magnitude(f, e', x') <==> Field(f, e, x) < Field(f, e', x')
  {
    FieldOrder(f, e, x, e', x');
    if e < e' {
      MagnitudeBelow(f, e, x, e', x');
    } else if e' < e {
      MagnitudeBelow(f, e', x', e, x);
    } else if e > 0 {
      ShiftLeftMonotone(Pow2(f.fractionBits) + x, Pow2(f.fractionBits) + x', e - 1);
    }
  }

  lemma ZeroField(f: Format, e: nat, x: nat)
    requires x < Pow2(f.fractionBits)
    ensures Magnitude(f, e, x) == 0 <==> Field(f, e, x) == 0
    ensures Field(f, 0, 0) == 0
  {
    MagnitudeOrder(f, 0, 0, e, x);
    ShiftLeftNothing(f.fractionBits);
  }

  /** The field of a finite number is below that of the infinities. */
  lemma FieldBound(f: Format, x: Number)
    requires NumberOk(f, x) && x.Finite?
    ensures Field(f, x.exponent, x.fraction) + 1 < SignBit(f)
  {
    var top := Pow2(f.exponentBits) - 1;
    FieldBelow(f, x.exponent, x.fraction, top, 0);
    ShiftLeftBound(top, f.exponentBits, f.fractionBits);
  }

  /** Encoded finite numbers are around the encoding of zero, by the order of their fields. */
  lemma FiniteEncoding(f: Format, x: Number)
    requires NumberOk(f, x) && x.Finite?
    ensures var field := Field(f, x.exponent, x.fraction);
      && 0 < EncodeNumber(f, x) < 2 * SignBit(f) - 1
      && (IsZero(f, x) <==> field == 0)
      && EncodeNumber(f, x) ==
         if field == 0 then SignBit(f) else if x.negative then SignBit(f) - 1 - field else SignBit(f) + field
  {
    FieldBound(f, x);
    ZeroField(f, x.exponent, x.fraction);
  }

  /** Encoding keeps the order of all numbers but NaN, and identifies exactly the two zeros. */
  lemma EncodeOrder(f: Format, x: Number, y: Number)
    requires NumberOk(f, x) && NumberOk(f, y)
    ensures EncodeNumber(f, x) < EncodeNumber(f, y) <==> Less(f, x, y)
  {
    if x.Finite? {
      FiniteEncoding(f, x);
    }
    if y.Finite? {
      FiniteEncoding(f, y);
    }
    if x.Finite? && y.Finite? {
      FiniteOrder(f, x, y);
    }
    hide Field, Magnitude, SignBit, Pow2;
  }

  lemma FiniteOrder(f: Format, x: Number, y: Number)
    requires NumberOk(f, x) && NumberOk(f, y) && x.Finite? && y.Finite?
    ensures EncodeNumber(f, x) < EncodeNumber(f, y) <==> Value(f, x) < Value(f, y)
  {
    FiniteEncoding(f, x);
    FiniteEncoding(f, y);
    ZeroField(f, x.exponent, x.fraction);
    ZeroField(f, y.exponent, y.fraction);
    MagnitudeOrder(f, x.exponent, x.fraction, y.exponent, y.fraction);
    MagnitudeOrder(f, y.exponent, y.fraction, x.exponent, x.fraction);
    hide Field, Magnitude, SignBit, Pow2, EncodeNumber;
  }
}
