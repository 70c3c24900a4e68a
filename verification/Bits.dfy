/**
 * Bit operations on natural numbers, and the power-of-two helper of src/common/constants.cpp.
 */
module Bits {
  import opened Common

  function Pow2(k: nat): (p: nat)
    ensures p > 0
  {
    if k == 0 then 1 else 2 * Pow2(k - 1)
  }

  ghost predicate IsPowerOfTwo(n: nat) {
    exists k: nat :: n == Pow2(k)
  }

  lemma {:induction false} Pow2Add(a: nat, b: nat)
    ensures Pow2(a + b) == Pow2(a) * Pow2(b)
  {
    if b > 0 {
      Pow2Add(a, b - 1);
    }
  }

  lemma {:induction false} Pow2Monotone(a: nat, b: nat)
    requires a <= b
    ensures Pow2(a) <= Pow2(b)
    ensures a < b ==> 2 * Pow2(a) <= Pow2(b)
    decreases b
  {
    if a < b {
      Pow2Monotone(a, b - 1);
    }
  }

  function And(a: nat, b: nat): nat {
    if a == 0 || b == 0 then 0
    else (if a % 2 == 1 && b % 2 == 1 then 1 else 0) + 2 * And(a / 2, b / 2)
  }

  function Or(a: nat, b: nat): nat {
    if a == 0 then b
    else if b == 0 then a
    else (if a % 2 + b % 2 > 0 then 1 else 0) + 2 * Or(a / 2, b / 2)
  }

  function ShiftLeft(a: nat, t: nat): nat {
    if t == 0 then a else 2 * ShiftLeft(a, t - 1)
  }

  function ShiftRight(a: nat, t: nat): nat {
    if t == 0 then a else ShiftRight(a / 2, t - 1)
  }

  /** Masking with a power of two minus one is taking the remainder. */
  lemma {:induction false} MaskIsRemainder(h: nat, k: nat)
    ensures And(h, Pow2(k) - 1) == h % Pow2(k)
  {
    if k > 0 {
      var m := Pow2(k - 1);
      MaskIsRemainder(h / 2, k - 1);
      MaskHalved(h, m);
      HalvedRemainder(h, m);
    }
  }

  lemma MaskHalved(h: nat, m: nat)
    requires m > 0
    ensures And(h, 2 * m - 1) == h % 2 + 2 * And(h / 2, m - 1)
  {
    assert (2 * m - 1) / 2 == m - 1 && (2 * m - 1) % 2 == 1;
  }

  lemma HalvedRemainder(h: nat, m: nat)
    requires m > 0
    ensures h % (2 * m) == h % 2 + 2 * (h / 2 % m)
  {
    var q, r := h / 2 / m, h / 2 % m;
    assert h / 2 == m * q + r;
    assert h == 2 * m * q + (2 * r + h % 2);
    RemainderUnique(h, 2 * m, q, 2 * r + h % 2);
  }

  lemma SmallMultiple(d: nat, x: int)
    requires 0 - d < d * x < d
    ensures x == 0
  {
  }

  lemma RemainderUnique(h: nat, d: nat, q: nat, r: nat)
    requires d > 0 && h == d * q + r && r < d
    ensures h / d == q && h % d == r
  {
    var q', r' := h / d, h % d;
    assert h == d * q' + r';
    assert d * (q' - q) == d * q' - d * q;
    SmallMultiple(d, q' - q);
  }

  lemma {:induction false} OrBounds(a: nat, b: nat, k: nat)
    requires a < Pow2(k) && b < Pow2(k)
    ensures a <= Or(a, b) && b <= Or(a, b) < Pow2(k)
  {
    if a != 0 && b != 0 {
      OrBounds(a / 2, b / 2, k - 1);
    }
  }

  /** Bits above position `m` are left alone by a value that fits below it. */
  lemma {:induction false} OrSplit(hi: nat, w: nat, u: nat, m: nat)
    requires w < Pow2(m) && u < Pow2(m)
    ensures Or(hi * Pow2(m) + w, u) == hi * Pow2(m) + Or(w, u)
  {
    if m > 0 {
      var p := Pow2(m - 1);
      var v := hi * Pow2(m) + w;
      assert v == 2 * (hi * p) + w;
      assert v / 2 == hi * p + w / 2 && v % 2 == w % 2;
      OrSplit(hi, w / 2, u / 2, m - 1);
    }
  }

  /** `v` has `k` bits and the topmost `t` of them are set. */
  ghost predicate TopBitsSet(v: nat, k: nat, t: nat) {
    t <= k && Pow2(k) - Pow2(k - t) <= v < Pow2(k)
  }

  /** One smearing step: or-ing with itself shifted by the number of set top bits doubles that number. */
  lemma Smear(v: nat, k: nat, t: nat)
    requires TopBitsSet(v, k, Min(t, k))
    ensures TopBitsSet(Or(v, ShiftRight(v, t)), k, Min(2 * t, k))
  {
    if t <= k {
      SmearInside(v, k, t);
    } else {
      SmearOutside(v, k, t);
    }
  }

  lemma {:induction false} SmearOutside(v: nat, k: nat, t: nat)
    requires k < t && v < Pow2(k)
    ensures ShiftRight(v, t) == 0
  {
    if k == 0 {
      ShiftZero(t);
    } else {
      SmearOutside(v / 2, k - 1, t - 1);
    }
  }

  lemma {:induction false} ShiftZero(t: nat)
    ensures ShiftRight(0, t) == 0
  {
    if t > 0 {
      ShiftZero(t - 1);
    }
  }

  lemma SmearInside(v: nat, k: nat, t: nat)
    requires TopBitsSet(v, k, t)
    ensures TopBitsSet(Or(v, ShiftRight(v, t)), k, Min(2 * t, k))
  {
    ShiftedUpper(v, k, t);
    ShiftedLower(v, k, k - t, t);
    SmearWith(v, ShiftRight(v, t), k, t);
  }

  lemma SmearWith(v: nat, u: nat, k: nat, t: nat)
    requires TopBitsSet(v, k, t) && u < Pow2(k - t) <= Pow2(k)
    requires if 2 * t <= k then Pow2(k - t) - Pow2(k - 2 * t) <= u else Pow2(k - t) - 1 <= u
    ensures TopBitsSet(Or(v, u), k, Min(2 * t, k))
  {
    OrBounds(v, u, k);
    OrOfHighBits(v, u, k, t);
  }

  lemma {:induction false} ShiftedUpper(v: nat, k: nat, t: nat)
    requires t <= k && v < Pow2(k)
    ensures ShiftRight(v, t) < Pow2(k - t) <= Pow2(k)
  {
    if t > 0 {
      ShiftedUpper(v / 2, k - 1, t - 1);
    }
  }

  lemma {:induction false} ShiftedLower(v: nat, k: nat, j: nat, t: nat)
    requires t <= k && j <= k && Pow2(k) - Pow2(j) <= v < Pow2(k)
    ensures Pow2(k - t) - Pow2(if t <= j then j - t else 0) <= ShiftRight(v, t)
  {
    if t > 0 {
      ShiftedLower(v / 2, k - 1, if j > 0 then j - 1 else 0, t - 1);
    }
  }

  lemma OrOfHighBits(v: nat, u: nat, k: nat, t: nat)
    requires TopBitsSet(v, k, t) && u < Pow2(k - t)
    ensures Pow2(k) - Pow2(k - t) + u <= Or(v, u)
  {
    var p, hi := Pow2(k - t), Pow2(t) - 1;
    var w := v - (Pow2(k) - p);
    Pow2Add(t, k - t);
    assert hi * p == Pow2(k) - p;
    OrSplit(hi, w, u, k - t);
    OrBounds(w, u, k - t);
  }

  lemma {:induction false} BitLength(v: nat) returns (k: nat)
    ensures TopBitsSet(v, k, Min(1, k))
  {
    if v == 0 {
      k := 0;
    } else {
      var j := BitLength(v / 2);
      k := j + 1;
    }
  }

  const TWO_TO_63 := 0x8000_0000_0000_0000
  const TWO_TO_64 := 0x1_0000_0000_0000_0000

  lemma BitLengthFits(v: nat, k: nat)
    requires TopBitsSet(v, k, Min(1, k)) && v < TWO_TO_64
    ensures k <= 64 && (v < TWO_TO_63 ==> k <= 63)
  {
    Pow2Of64();
    if k >= 64 {
      Pow2Monotone(63, k - 1);
    }
  }

  lemma Pow2Of16()
    ensures Pow2(16) == 0x1_0000
  {
    assert Pow2(8) == 0x100;
    Pow2Add(8, 8);
  }

  lemma Pow2Of32()
    ensures Pow2(32) == 0x1_0000_0000
  {
    Pow2Of16();
    Pow2Add(16, 16);
  }

  lemma Pow2Of64()
    ensures Pow2(63) == TWO_TO_63 && Pow2(64) == TWO_TO_64
  {
    Pow2Of32();
    Pow2Add(32, 32);
    assert Pow2(64) == 2 * Pow2(63);
  }

  /** `v |= v >> t` */
  method OrShifted(v: nat, t: nat, ghost k: nat) returns (r: nat)
    requires TopBitsSet(v, k, Min(t, k))
    ensures TopBitsSet(r, k, Min(2 * t, k))
  {
    r := Or(v, ShiftRight(v, t));
    Smear(v, k, t);
  }

  /** Sets every bit below the topmost one. */
  method SmearAll(v0: nat, ghost k: nat) returns (v: nat)
    requires TopBitsSet(v0, k, Min(1, k)) && k <= 64
    ensures v == Pow2(k) - 1
  {
    v := OrShifted(v0, 1, k);
    v := OrShifted(v, 2, k);
    v := OrShifted(v, 4, k);
    v := OrShifted(v, 8, k);
    v := OrShifted(v, 16, k);
    v := OrShifted(v, 32, k);
  }

  lemma PowerAbove(v0: nat, v: nat, k: nat)
    requires v0 < TWO_TO_64 && TopBitsSet(v, k, Min(1, k)) && k <= 64
    requires v == if v0 == 0 then TWO_TO_64 - 1 else v0 - 1
    ensures Pow2(k) <= TWO_TO_64 && (Pow2(k) == TWO_TO_64 <==> v0 == 0 || v0 > TWO_TO_63)
    ensures v0 > 0 ==> v0 <= Pow2(k) < 2 * v0
  {
    Pow2Of64();
    Pow2Monotone(k, 64);
    if k < 64 {
      Pow2Monotone(k, 63);
    }
  }

  /**
   * The least power of two that is not below `v0`, in 64-bit arithmetic. Zero and anything above 2^63 have no
   * such 64-bit number; both wrap round to zero.
   */
  method NextPowerOfTwo(v0: nat) returns (v: nat)
    requires v0 < TWO_TO_64
    ensures 0 < v0 <= TWO_TO_63 <==> v != 0
    ensures v != 0 ==> IsPowerOfTwo(v) && v0 <= v < 2 * v0
  {
    v := (v0 + TWO_TO_64 - 1) % TWO_TO_64;
    ghost var k := BitLength(v);
    BitLengthFits(v, k);
    PowerAbove(v0, v, k);
    v := SmearAll(v, k);
    v := (v + 1) % TWO_TO_64;
  }

  lemma {:induction false} ShiftLeftAdd(a: nat, b: nat, t: nat)
    ensures ShiftLeft(a + b, t) == ShiftLeft(a, t) + ShiftLeft(b, t)
  {
    if t > 0 {
      ShiftLeftAdd(a, b, t - 1);
    }
  }

  lemma {:induction false} ShiftLeftTwice(a: nat, s: nat, t: nat)
    ensures ShiftLeft(ShiftLeft(a, s), t) == ShiftLeft(a, s + t)
  {
    if t > 0 {
      ShiftLeftTwice(a, s, t - 1);
    }
  }

  lemma {:induction false} ShiftRightTwice(a: nat, s: nat, t: nat)
    ensures ShiftRight(ShiftRight(a, s), t) == ShiftRight(a, s + t)
  {
    if s > 0 {
      ShiftRightTwice(a / 2, s - 1, t);
    }
  }

  /** A high part and a low part make a number below the power of two of all bits. */
  lemma {:induction false} PackedBound(a: nat, b: nat, k: nat, t: nat)
    requires a < Pow2(k) && b < Pow2(t)
    ensures ShiftLeft(a, t) + b < Pow2(k + t)
  {
    ShiftLeftBound(a, k, t);
  }

  lemma {:induction false} ShiftLeftBound(a: nat, k: nat, t: nat)
    requires a < Pow2(k)
    ensures ShiftLeft(a, t) + Pow2(t) <= Pow2(k + t)
  {
    if t > 0 {
      ShiftLeftBound(a, k, t - 1);
      assert Pow2(k + t) == 2 * Pow2(k + t - 1);
    }
  }

  lemma {:induction false} HighPart(a: nat, b: nat, t: nat)
    requires b < Pow2(t)
    ensures ShiftRight(ShiftLeft(a, t) + b, t) == a
  {
    if t > 0 {
      HighPart(a, b / 2, t - 1);
      assert (2 * ShiftLeft(a, t - 1) + b) / 2 == ShiftLeft(a, t - 1) + b / 2;
    }
  }

  lemma {:induction false} LowPart(a: nat, b: nat, t: nat)
    requires b < Pow2(t)
    ensures And(ShiftLeft(a, t) + b, Pow2(t) - 1) == b
  {
    if t > 0 {
      var v := ShiftLeft(a, t) + b;
      LowPart(a, b / 2, t - 1);
      MaskHalved(v, Pow2(t - 1));
      hide And;
      assert v == 2 * ShiftLeft(a, t - 1) + b && v / 2 == ShiftLeft(a, t - 1) + b / 2 && v % 2 == b % 2;
    }
  }

  /** A number is made of its high part and its low part. */
  lemma {:induction false} Unpacked(x: nat, t: nat)
    ensures And(x, Pow2(t) - 1) < Pow2(t) && x == ShiftLeft(ShiftRight(x, t), t) + And(x, Pow2(t) - 1)
  {
    if t > 0 {
      Unpacked(x / 2, t - 1);
      MaskHalved(x, Pow2(t - 1));
    }
  }

  lemma {:induction false} ShiftedOut(x: nat, t: nat)
    requires x < Pow2(t)
    ensures ShiftRight(x, t) == 0
  {
    if t > 0 {
      ShiftedOut(x / 2, t - 1);
    }
  }

  lemma {:induction false} ShiftLeftNothing(t: nat)
    ensures ShiftLeft(0, t) == 0
  {
    if t > 0 {
      ShiftLeftNothing(t - 1);
    }
  }
}
