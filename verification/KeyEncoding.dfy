/**
 * Encoding of numbers into bytes whose lexicographic order is the order of the numbers
 * (src/common/bit_operations.cpp:9-148; src/include/guinsoodb/common/bit_operations.hpp:18-30).
 */
module KeyEncoding {
  import opened Bits

  type Byte = b: nat | b < 256

  function Pow256(n: nat): (p: nat)
    ensures p > 0
  {
    if n == 0 then 1 else 256 * Pow256(n - 1)
  }

  /** The `n` low bytes of a number, the highest first. */
  function BigEndian(v: nat, n: nat): (bytes: seq<Byte>)
    ensures |bytes| == n
  {
    if n == 0 then [] else BigEndian(v / 256, n - 1) + [v % 256]
  }

  function LittleEndian(v: nat, n: nat): (bytes: seq<Byte>)
    ensures |bytes| == n
  {
    if n == 0 then [] else [v % 256] + LittleEndian(v / 256, n - 1)
  }

  /** The number with its `n` bytes in the opposite order. */
  function ByteSwap(v: nat, n: nat): nat {
    if n == 0 then 0 else ByteSwap(v / 256, n - 1) + v % 256 * Pow256(n - 1)
  }

  lemma DigitBound(d: Byte, p: nat)
    ensures d * p + p <= 256 * p
  {
    assert d * p + p == (d + 1) * p;
    assert (d + 1) * p <= 256 * p;
  }

  lemma {:induction false} ByteSwapBound(v: nat, n: nat)
    ensures ByteSwap(v, n) < Pow256(n)
  {
    if n > 0 {
      ByteSwapBound(v / 256, n - 1);
      DigitBound(v % 256, Pow256(n - 1));
    }
  }

  /** A byte above the others is stored after them on a little-endian machine. */
  lemma {:induction false} LittleEndianTop(x: nat, d: Byte, n: nat)
    requires x < Pow256(n)
    ensures LittleEndian(x + d * Pow256(n), n + 1) == LittleEndian(x, n) + [d]
  {
    if n == 0 {
      assert (x + d * Pow256(n)) % 256 == d;
      assert LittleEndian((x + d) / 256, 0) == [];
    } else {
      var p := Pow256(n - 1);
      LittleEndianTop(x / 256, d, n - 1);
      TopByte(x, d, p);
    }
  }

  lemma TopByte(x: nat, d: Byte, p: nat)
    ensures (x + d * (256 * p)) % 256 == x % 256 && (x + d * (256 * p)) / 256 == x / 256 + d * p
  {
    assert d * (256 * p) == 256 * (d * p);
  }

  /** Storing the swapped number on a little-endian machine writes the highest byte first. */
  lemma {:induction false} SwappedIsBigEndian(v: nat, n: nat)
    ensures LittleEndian(ByteSwap(v, n), n) == BigEndian(v, n)
  {
    if n > 0 {
      SwappedIsBigEndian(v / 256, n - 1);
      ByteSwapBound(v / 256, n - 1);
      LittleEndianTop(ByteSwap(v / 256, n - 1), v % 256, n - 1);
    }
  }

  function Stored(v: nat, n: nat, isLittleEndian: bool): seq<Byte> {
    if isLittleEndian then LittleEndian(ByteSwap(v, n), n) else BigEndian(v, n)
  }

  /** The same bytes on machines of either kind. */
  lemma StoredIsBigEndian(v: nat, n: nat, isLittleEndian: bool)
    ensures Stored(v, n, isLittleEndian) == BigEndian(v, n)
  {
    SwappedIsBigEndian(v, n);
  }

  /** Lexicographic order of byte strings. */
  ghost predicate Before(a: seq<Byte>, b: seq<Byte>) {
    if a == [] || b == [] then a == [] && b != []
    else a[0] < b[0] || (a[0] == b[0] && Before(a[1..], b[1..]))
  }

  lemma {:induction false} BeforeAppended(a: seq<Byte>, b: seq<Byte>, a': seq<Byte>, b': seq<Byte>)
    requires |a| == |b|
    ensures Before(a + a', b + b') <==> Before(a, b) || (a == b && Before(a', b'))
  {
    if a == [] {
      assert a + a' == a' && b + b' == b';
    } else {
      BeforeAppended(a[1..], b[1..], a', b');
      assert (a + a')[1..] == a[1..] + a' && (b + b')[1..] == b[1..] + b';
      assert a == b <==> a[0] == b[0] && a[1..] == b[1..];
    }
  }

  lemma BeforeByte(x: Byte, y: Byte)
    ensures Before([x], [y]) <==> x < y
  {
    assert [x][1..] == [] && [y][1..] == [];
  }

  lemma {:induction false} BigEndianInjective(x: nat, y: nat, n: nat)
    requires x < Pow256(n) && y < Pow256(n)
    ensures BigEndian(x, n) == BigEndian(y, n) <==> x == y
  {
    if n > 0 && BigEndian(x, n) == BigEndian(y, n) {
      var a, b := BigEndian(x / 256, n - 1), BigEndian(y / 256, n - 1);
      assert BigEndian(x, n)[..n - 1] == a && BigEndian(y, n)[..n - 1] == b;
      assert BigEndian(x, n)[n - 1] == x % 256 && BigEndian(y, n)[n - 1] == y % 256;
      BigEndianInjective(x / 256, y / 256, n - 1);
    }
  }

  /** The byte order of numbers stored highest byte first is their numeric order. */
  lemma {:induction false} BigEndianOrder(x: nat, y: nat, n: nat)
    requires x < Pow256(n) && y < Pow256(n)
    ensures Before(BigEndian(x, n), BigEndian(y, n)) <==> x < y
  {
    if n > 0 {
      BigEndianOrder(x / 256, y / 256, n - 1);
      BigEndianInjective(x / 256, y / 256, n - 1);
      BeforeAppended(BigEndian(x / 256, n - 1), BigEndian(y / 256, n - 1), [x % 256], [y % 256]);
      BeforeByte(x % 256, y % 256);
    }
  }

  function FlipSign(b: Byte): Byte {
    if b < 128 then b + 128 else b - 128
  }

  function FlipFirst(bytes: seq<Byte>): seq<Byte> {
    if bytes == [] then [] else [FlipSign(bytes[0])] + bytes[1..]
  }

  /** The bit pattern of a signed number of `n` bytes. */
  function Pattern(v: int, n: nat): nat
    requires InRange(v, n)
  {
    if v < 0 then v + Pow256(n) else v
  }

  /** Half the numbers of `n` bytes. */
  function Half(n: nat): nat
    requires n > 0
  {
    128 * Pow256(n - 1)
  }

  predicate InRange(v: int, n: nat) {
    n > 0 && 0 - Half(n) <= v < Half(n)
  }

  /** The highest byte of a number, and the others. */
  lemma {:induction false} FirstByte(v: nat, n: nat)
    requires v < Pow256(n + 1)
    ensures v / Pow256(n) < 256 && BigEndian(v, n + 1) == [v / Pow256(n)] + BigEndian(v % Pow256(n), n)
    ensures v % Pow256(n) < Pow256(n) && v == v / Pow256(n) * Pow256(n) + v % Pow256(n)
  {
    if n == 0 {
      assert BigEndian(v / 256, 0) == [] && BigEndian(v % 1, 0) == [];
    } else {
      var p := Pow256(n - 1);
      FirstByte(v / 256, n - 1);
      SplitByte(v, p);
      var q := v / 256 / p;
      assert BigEndian(v % (256 * p), n) == BigEndian(v % (256 * p) / 256, n - 1) + [v % (256 * p) % 256];
      assert BigEndian(v, n + 1) == [q] + (BigEndian(v / 256 % p, n - 1) + [v % 256]);
    }
  }

  lemma SplitByte(v: nat, p: nat)
    requires p > 0
    ensures v / (256 * p) == v / 256 / p && v % (256 * p) / 256 == v / 256 % p && v % (256 * p) % 256 == v % 256
    ensures v == v / (256 * p) * (256 * p) + v % (256 * p)
  {
    var q, r, d := v / 256 / p, v / 256 % p, v % 256;
    assert v == 256 * (p * q + r) + d;
    assert v == (256 * p) * q + (256 * r + d);
    assert 256 * r + d < 256 * p;
    RemainderUnique(v, 256 * p, q, 256 * r + d);
  }

  lemma HighDigit(q: nat, r: nat, p: nat, k: nat)
    requires p > 0 && r < p && k == 128
    ensures q * p + r < k * p <==> q < k
  {
    if q < k {
      assert q * p + p == (q + 1) * p;
      assert (q + 1) * p <= k * p;
    } else {
      assert k * p <= q * p;
    }
  }

  lemma Digit(q: nat, r: nat, p: nat)
    requires p > 0 && r < p
    ensures (q * p + r) / p == q && (q * p + r) % p == r
  {
    assert q * p + r == p * q + r;
    RemainderUnique(q * p + r, p, q, r);
  }

  lemma AddDigits(q: nat, k: nat, r: nat, p: nat)
    ensures (q + k) * p + r == q * p + r + k * p
  {
    assert (q + k) * p == q * p + k * p;
  }

  /** Flipping the sign bit is adding half the range. */
  lemma FlipIsOffset(v: int, n: nat)
    requires InRange(v, n)
    ensures 0 <= v + Half(n) < Pow256(n)
    ensures FlipFirst(BigEndian(Pattern(v, n), n)) == BigEndian(v + Half(n), n)
  {
    var p, u, w := Pow256(n - 1), Pattern(v, n), v + Half(n);
    FirstByte(u, n - 1);
    var q, r := u / p, u % p;
    HighDigit(q, r, p, 128);
    FlippedNumber(u, w, q, r, p);
    FirstByte(w, n - 1);
    var low := BigEndian(r, n - 1);
    assert FlipFirst([q] + low) == [FlipSign(q)] + low by {
      assert ([q] + low)[1..] == low;
    }
  }

  lemma FlippedNumber(u: nat, w: nat, q: Byte, r: nat, p: nat)
    requires p > 0 && r < p && u == q * p + r && w == (if q < 128 then u + 128 * p else u - 128 * p)
    ensures w / p == FlipSign(q) && w % p == r
  {
    if q < 128 {
      AddDigits(q, 128, r, p);
      Digit(q + 128, r, p);
    } else {
      AddDigits(q - 128, 128, r, p);
      Digit(q - 128, r, p);
    }
  }

  /** The bytes of a signed number. */
  function EncodedSigned(v: int, n: nat): seq<Byte>
    requires InRange(v, n)
  {
    FlipFirst(BigEndian(Pattern(v, n), n))
  }

  /** Signed numbers are encoded in order. */
  lemma SignedOrder(v: int, w: int, n: nat)
    requires InRange(v, n) && InRange(w, n)
    ensures Before(EncodedSigned(v, n), EncodedSigned(w, n)) <==> v < w
    ensures EncodedSigned(v, n) == EncodedSigned(w, n) <==> v == w
  {
    hide BigEndian, Before, FlipFirst;
    FlipIsOffset(v, n);
    FlipIsOffset(w, n);
    BigEndianOrder(v + Half(n), w + Half(n), n);
    BigEndianInjective(v + Half(n), w + Half(n), n);
  }

  /** A 128-bit number: the upper 64 bits signed, the lower ones not. */
  datatype HugeInt = HugeInt(upper: int, lower: nat)

  predicate HugeInRange(h: HugeInt) {
    InRange(h.upper, 8) && h.lower < Pow256(8)
  }

  function HugeValue(h: HugeInt): int {
    h.upper * Pow256(8) + h.lower
  }

  function EncodedHuge(h: HugeInt): seq<Byte>
    requires HugeInRange(h)
  {
    EncodedSigned(h.upper, 8) + BigEndian(h.lower, 8)
  }

  lemma UpperDecides(a: int, b: int, x: nat, y: nat, p: nat)
    requires x < p && y < p
    ensures a * p + x < b * p + y <==> a < b || (a == b && x < y)
  {
    if a < b {
      assert (a + 1) * p <= b * p;
      assert (a + 1) * p == a * p + p;
    } else if b < a {
      assert (b + 1) * p <= a * p;
      assert (b + 1) * p == b * p + p;
    }
  }

  /** 128-bit numbers are encoded in order. */
  lemma HugeOrder(g: HugeInt, h: HugeInt)
    requires HugeInRange(g) && HugeInRange(h)
    ensures Before(EncodedHuge(g), EncodedHuge(h)) <==> HugeValue(g) < HugeValue(h)
  {
    hide BigEndian, Before, EncodedSigned, Pow256;
    assert |EncodedSigned(g.upper, 8)| == |EncodedSigned(h.upper, 8)| by {
      SignedLength(g.upper, 8);
      SignedLength(h.upper, 8);
    }
    BeforeAppended(EncodedSigned(g.upper, 8), EncodedSigned(h.upper, 8), BigEndian(g.lower, 8), BigEndian(h.lower, 8));
    SignedOrder(g.upper, h.upper, 8);
    BigEndianOrder(g.lower, h.lower, 8);
    UpperDecides(g.upper, h.upper, g.lower, h.lower, Pow256(8));
  }

  lemma SignedLength(v: int, n: nat)
    requires InRange(v, n)
    ensures |EncodedSigned(v, n)| == n
  {
  }
}
