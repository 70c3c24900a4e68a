/**
 * Addresses of the perfect aggregate hash table: the group values, each reduced by its column's minimum and with 0 for
 * NULL, packed into one number (src/execution/perfect_aggregate_hashtable.cpp:42-111, 183-251).
 */
module PerfectHashing {
  import opened Bits
  import opened Common

  type Key = seq<Option<int>>

  /** The bits of the columns from `n` on. */
  function BitsFrom(bits: seq<nat>, n: nat): nat
    requires n <= |bits|
    decreases |bits| - n
  {
    if n == |bits| then 0 else bits[n] + BitsFrom(bits, n + 1)
  }

  function BitsUpTo(bits: seq<nat>, n: nat): nat
    requires n <= |bits|
  {
    if n == 0 then 0 else BitsUpTo(bits, n - 1) + bits[n - 1]
  }

  lemma {:induction false} AllBits(bits: seq<nat>, n: nat)
    requires n <= |bits|
    ensures BitsUpTo(bits, n) + BitsFrom(bits, n) == BitsFrom(bits, 0)
  {
    if n > 0 {
      AllBits(bits, n - 1);
    }
  }

  /** A column's value fits into its bits, with room for NULL. */
  predicate ValueFits(v: Option<int>, min: int, bits: nat) {
    v.Some? ==> min <= v.value && v.value - min + 1 < Pow2(bits)
  }

  predicate KeyFits(key: Key, minima: seq<int>, bits: seq<nat>) {
    |key| == |minima| == |bits| && forall i | 0 <= i < |key| :: ValueFits(key[i], minima[i], bits[i])
  }

  function Adjusted(v: Option<int>, min: int): nat
    requires v.Some? ==> min <= v.value
  {
    if v.None? then 0 else v.value - min + 1
  }

  /** The first `n` columns packed into one number. */
  function Packed(key: Key, minima: seq<int>, bits: seq<nat>, n: nat): nat
    requires KeyFits(key, minima, bits) && n <= |key|
  {
    if n == 0 then 0 else ShiftLeft(Packed(key, minima, bits, n - 1), bits[n - 1]) + Adjusted(key[n - 1], minima[n - 1])
  }

  function Address(key: Key, minima: seq<int>, bits: seq<nat>): nat
    requires KeyFits(key, minima, bits)
  {
    Packed(key, minima, bits, |key|)
  }

  lemma {:induction false} PackedFits(key: Key, minima: seq<int>, bits: seq<nat>, n: nat)
    requires KeyFits(key, minima, bits) && n <= |key|
    ensures Packed(key, minima, bits, n) < Pow2(BitsUpTo(bits, n))
  {
    if n > 0 {
      PackedFits(key, minima, bits, n - 1);
      assert ValueFits(key[n - 1], minima[n - 1], bits[n - 1]);
      assert Adjusted(key[n - 1], minima[n - 1]) < Pow2(bits[n - 1]);
      PackedBound(Packed(key, minima, bits, n - 1), Adjusted(key[n - 1], minima[n - 1]), BitsUpTo(bits, n - 1),
                  bits[n - 1]);
    }
  }

  /** Every address is inside the table. */
  lemma AddressInTable(key: Key, minima: seq<int>, bits: seq<nat>)
    requires KeyFits(key, minima, bits)
    ensures Address(key, minima, bits) < Pow2(BitsFrom(bits, 0))
  {
    PackedFits(key, minima, bits, |key|);
    AllBits(bits, |key|);
  }

  /** Shifting out the later columns leaves the earlier ones. */
  lemma {:induction false} EarlierColumns(key: Key, minima: seq<int>, bits: seq<nat>, n: nat)
    requires KeyFits(key, minima, bits) && n <= |key|
    ensures ShiftRight(Address(key, minima, bits), BitsFrom(bits, n)) == Packed(key, minima, bits, n)
    decreases |key| - n
  {
    if n < |key| {
      EarlierColumns(key, minima, bits, n + 1);
      ShiftRightTwice(Address(key, minima, bits), BitsFrom(bits, n + 1), bits[n]);
      assert ValueFits(key[n], minima[n], bits[n]);
      HighPart(Packed(key, minima, bits, n), Adjusted(key[n], minima[n]), bits[n]);
    }
  }

  /** The value of a column, taken back out of an address. */
  function Reconstructed(address: nat, minima: seq<int>, bits: seq<nat>, n: nat): (v: Option<int>)
    requires n < |minima| == |bits|
  {
    var group := And(ShiftRight(address, BitsFrom(bits, n + 1)), Pow2(bits[n]) - 1);
    if group == 0 then None else Some(minima[n] + group - 1)
  }

  function ReconstructedKey(address: nat, minima: seq<int>, bits: seq<nat>): (key: Key)
    requires |minima| == |bits|
  {
    seq(|bits|, n requires 0 <= n < |bits| => Reconstructed(address, minima, bits, n))
  }

  lemma ColumnRoundTrip(key: Key, minima: seq<int>, bits: seq<nat>, n: nat)
    requires KeyFits(key, minima, bits) && n < |key|
    ensures Reconstructed(Address(key, minima, bits), minima, bits, n) == key[n]
  {
    EarlierColumns(key, minima, bits, n + 1);
    assert ValueFits(key[n], minima[n], bits[n]);
    LowPart(Packed(key, minima, bits, n), Adjusted(key[n], minima[n]), bits[n]);
  }

  /** A group is reconstructed from its address. */
  lemma KeyRoundTrip(key: Key, minima: seq<int>, bits: seq<nat>)
    requires KeyFits(key, minima, bits)
    ensures ReconstructedKey(Address(key, minima, bits), minima, bits) == key
  {
    forall n | 0 <= n < |key| ensures Reconstructed(Address(key, minima, bits), minima, bits, n) == key[n] {
      ColumnRoundTrip(key, minima, bits, n);
    }
  }

  /** Different groups, NULL included, have different addresses. */
  lemma AddressesDiffer(key: Key, key': Key, minima: seq<int>, bits: seq<nat>)
    requires KeyFits(key, minima, bits) && KeyFits(key', minima, bits) && key != key'
    ensures Address(key, minima, bits) != Address(key', minima, bits)
  {
    KeyRoundTrip(key, minima, bits);
    KeyRoundTrip(key', minima, bits);
  }

  lemma ReconstructedFits(address: nat, minima: seq<int>, bits: seq<nat>)
    requires |minima| == |bits|
    ensures KeyFits(ReconstructedKey(address, minima, bits), minima, bits)
  {
    var key := ReconstructedKey(address, minima, bits);
    forall n | 0 <= n < |key| ensures ValueFits(key[n], minima[n], bits[n]) {
      Unpacked(ShiftRight(address, BitsFrom(bits, n + 1)), bits[n]);
    }
  }

  lemma AdjustedReconstructed(address: nat, minima: seq<int>, bits: seq<nat>, n: nat)
    requires n < |minima| == |bits|
    ensures var v := Reconstructed(address, minima, bits, n);
      && (v.Some? ==> minima[n] <= v.value)
      && Adjusted(v, minima[n]) == And(ShiftRight(address, BitsFrom(bits, n + 1)), Pow2(bits[n]) - 1)
  {
  }

  lemma PackedStep(high: nat, low: nat, x: nat, t: nat)
    requires high == ShiftRight(x, t) && low == And(x, Pow2(t) - 1)
    ensures ShiftLeft(high, t) + low == x
  {
    Unpacked(x, t);
  }

  lemma BitsStep(bits: seq<nat>, n: nat)
    requires n < |bits|
    ensures BitsFrom(bits, n) == BitsFrom(bits, n + 1) + bits[n]
  {
  }

  lemma PackedNext(key: Key, minima: seq<int>, bits: seq<nat>, n: nat, low: nat)
    requires KeyFits(key, minima, bits) && n < |key| && (key[n].Some? ==> minima[n] <= key[n].value)
    requires low == Adjusted(key[n], minima[n])
    ensures Packed(key, minima, bits, n + 1) == ShiftLeft(Packed(key, minima, bits, n), bits[n]) + low
  {
  }

  lemma PackedNone(key: Key, minima: seq<int>, bits: seq<nat>)
    requires KeyFits(key, minima, bits)
    ensures Packed(key, minima, bits, 0) == 0
  {
  }

  ghost predicate IsReconstructed(key: Key, address: nat, minima: seq<int>, bits: seq<nat>) {
    |key| == |minima| == |bits| && forall i | 0 <= i < |key| :: key[i] == Reconstructed(address, minima, bits, i)
  }

  lemma {:induction false} PackedReconstructed(key: Key, address: nat, minima: seq<int>, bits: seq<nat>, n: nat)
    requires KeyFits(key, minima, bits) && n <= |bits| && address < Pow2(BitsFrom(bits, 0))
    requires IsReconstructed(key, address, minima, bits)
    ensures Packed(key, minima, bits, n) == ShiftRight(address, BitsFrom(bits, n))
  {
    hide And, ShiftLeft, ShiftRight, Pow2, Reconstructed, ValueFits, BitsFrom, Packed, Adjusted;
    if n == 0 {
      ShiftedOut(address, BitsFrom(bits, 0));
      PackedNone(key, minima, bits);
    } else {
      var k, rest := n - 1, BitsFrom(bits, n);
      PackedReconstructed(key, address, minima, bits, k);
      BitsStep(bits, k);
      ShiftRightTwice(address, rest, bits[k]);
      AdjustedReconstructed(address, minima, bits, k);
      PackedNext(key, minima, bits, k, Adjusted(key[k], minima[k]));
      PackedStep(Packed(key, minima, bits, k), Adjusted(key[k], minima[k]), ShiftRight(address, rest), bits[k]);
    }
  }

  /** And every address in the table is that of a group. */
  lemma AddressRoundTrip(address: nat, minima: seq<int>, bits: seq<nat>)
    requires |minima| == |bits| && address < Pow2(BitsFrom(bits, 0))
    ensures KeyFits(ReconstructedKey(address, minima, bits), minima, bits)
    ensures Address(ReconstructedKey(address, minima, bits), minima, bits) == address
  {
    ReconstructedFits(address, minima, bits);
    PackedReconstructed(ReconstructedKey(address, minima, bits), address, minima, bits, |bits|);
  }
}
