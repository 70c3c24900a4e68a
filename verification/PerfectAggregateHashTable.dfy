/**
 * The perfect aggregate hash table: one state for every possible group
 * (src/execution/perfect_aggregate_hashtable.cpp:42-251).
 */
module PerfectAggregateHashTable {
  import opened Bits
  import opened Common
  import opened GroupAggregates
  import opened PerfectHashing

  /** The state of one address after some rows went to their addresses. */
  ghost function FoldAt<P, S>(agg: AggregateFunction<P, S>, s: S, addresses: seq<nat>, payload: seq<P>, a: nat): S
    requires |addresses| == |payload|
  {
    if addresses == [] then s
    else
      var n := |addresses| - 1;
      var rest := FoldAt(agg, s, addresses[..n], payload[..n], a);
      if addresses[n] == a then agg.update(rest, payload[n]) else rest
  }

  lemma {:induction false} FoldUntouched<P, S>(agg: AggregateFunction<P, S>, s: S, addresses: seq<nat>, payload: seq<P>,
                                               a: nat)
    requires |addresses| == |payload| && a !in addresses
    ensures FoldAt(agg, s, addresses, payload, a) == s
  {
    if addresses != [] {
      var n := |addresses| - 1;
      FoldUntouched(agg, s, addresses[..n], payload[..n], a);
    }
  }

  /** The addresses of the rows of a chunk. */
  ghost predicate AddressesOf(addresses: seq<nat>, keys: seq<Key>, minima: seq<int>, bits: seq<nat>) {
    && |addresses| == |keys|
    && forall i | 0 <= i < |keys| :: KeyFits(keys[i], minima, bits) && addresses[i] == Address(keys[i], minima, bits)
  }

  /** Folding rows at a key's address is grouping them by the key. */
  lemma {:induction false} FoldIsExtend<P, S>(agg: AggregateFunction<P, S>, before: Option<S>, addresses: seq<nat>,
                                              keys: seq<Key>, payload: seq<P>, minima: seq<int>, bits: seq<nat>, k: Key)
    requires AddressesOf(addresses, keys, minima, bits) && |payload| == |keys| && KeyFits(k, minima, bits)
    ensures var a := Address(k, minima, bits);
      Extend(agg.update, agg.initial, before, keys, payload, k) ==
      if before.Some? || a in addresses
      then Some(FoldAt(agg, if before.Some? then before.value else agg.initial, addresses, payload, a)) else None
  {
    if keys != [] {
      var n := |keys| - 1;
      FoldIsExtend(agg, before, addresses[..n], keys[..n], payload[..n], minima, bits, k);
      assert addresses == addresses[..n] + [addresses[n]];
      var a := Address(k, minima, bits);
      if keys[n] != k {
        AddressesDiffer(keys[n], k, minima, bits);
      } else if a !in addresses[..n] {
        FoldUntouched(agg, agg.initial, addresses[..n], payload[..n], a);
      }
    }
  }

  /** Adds one column's values to the addresses of all rows. */
  method ComputeGroupLocation(keys: seq<Key>, c: nat, min: int, shift: nat, addresses: seq<nat>, ghost minima: seq<int>,
                              ghost bits: seq<nat>)
    returns (addresses': seq<nat>)
    requires |addresses| == |keys| && c < |bits| == |minima| && min == minima[c] && shift == BitsFrom(bits, c + 1)
    requires forall i | 0 <= i < |keys| :: KeyFits(keys[i], minima, bits)
    requires forall i | 0 <= i < |keys| ::
      addresses[i] == ShiftLeft(Packed(keys[i], minima, bits, c), BitsFrom(bits, c))
    ensures |addresses'| == |keys|
    ensures forall i | 0 <= i < |keys| :: addresses'[i] == ShiftLeft(Packed(keys[i], minima, bits, c + 1), shift)
  {
    addresses' := [];
    for i := 0 to |keys|
      invariant |addresses'| == i
      invariant forall k | 0 <= k < i :: addresses'[k] == ShiftLeft(Packed(keys[k], minima, bits, c + 1), shift)
    {
      assert KeyFits(keys[i], minima, bits) && ValueFits(keys[i][c], minima[c], bits[c]);
      var value := keys[i][c];
      NextColumn(keys[i], minima, bits, c);
      hide ShiftLeft, Packed, Pow2, ValueFits, BitsFrom;
      if value.Some? {
        addresses' := addresses' + [addresses[i] + ShiftLeft(value.value - min + 1, shift)];
      } else {
        addresses' := addresses' + [addresses[i]];
      }
    }
  }

  lemma NextColumn(key: Key, minima: seq<int>, bits: seq<nat>, c: nat)
    requires KeyFits(key, minima, bits) && c < |key|
    ensures key[c].Some? ==> key[c].value - minima[c] + 1 >= 0
    ensures ShiftLeft(Packed(key, minima, bits, c), BitsFrom(bits, c)) +
            (if key[c].Some? then ShiftLeft(key[c].value - minima[c] + 1, BitsFrom(bits, c + 1)) else 0) ==
            ShiftLeft(Packed(key, minima, bits, c + 1), BitsFrom(bits, c + 1))
  {
    assert ValueFits(key[c], minima[c], bits[c]);
    var high, low, rest := Packed(key, minima, bits, c), Adjusted(key[c], minima[c]), BitsFrom(bits, c + 1);
    ShiftLeftTwice(high, bits[c], rest);
    ShiftLeftAdd(ShiftLeft(high, bits[c]), low, rest);
    ShiftLeftNothing(rest);
    assert BitsFrom(bits, c) == bits[c] + rest;
  }

  /** The addresses of all rows, column by column. */
  method ComputeAddresses(keys: seq<Key>, minima: seq<int>, bits: seq<nat>) returns (addresses: seq<nat>)
    requires |minima| == |bits| && forall i | 0 <= i < |keys| :: KeyFits(keys[i], minima, bits)
    ensures AddressesOf(addresses, keys, minima, bits)
  {
    addresses := seq(|keys|, _ => 0);
    var shift := BitsFrom(bits, 0);
    ShiftLeftNothing(shift);
    for c := 0 to |bits|
      invariant shift == BitsFrom(bits, c) && |addresses| == |keys|
      invariant forall i | 0 <= i < |keys| :: addresses[i] == ShiftLeft(Packed(keys[i], minima, bits, c), shift)
    {
      shift := shift - bits[c];
      addresses := ComputeGroupLocation(keys, c, minima[c], shift, addresses, minima, bits);
    }
  }

  /** The values of all columns of a group. */
  method ReconstructGroup(address: nat, minima: seq<int>, bits: seq<nat>) returns (key: Key)
    requires |minima| == |bits|
    ensures key == ReconstructedKey(address, minima, bits)
  {
    key := [];
    var shift := BitsFrom(bits, 0);
    for c := 0 to |bits|
      invariant shift == BitsFrom(bits, c) && |key| == c
      invariant forall i | 0 <= i < c :: key[i] == Reconstructed(address, minima, bits, i)
    {
      shift := shift - bits[c];
      var group := And(ShiftRight(address, shift), Pow2(bits[c]) - 1);
      key := key + [if group == 0 then None else Some(minima[c] + group - 1)];
    }
  }

  datatype Groups<+S> = Groups(isSet: seq<bool>, data: seq<S>, minima: seq<int>, bits: seq<nat>)

  /** What a table holds for an address. */
  function At<S>(isSet: seq<bool>, data: seq<S>, a: nat): Option<S> {
    if a < |isSet| && a < |data| && isSet[a] then Some(data[a]) else None
  }

  /** The state of a group, if the table has it. */
  ghost function StateOf<S>(g: Groups<S>, k: Key): Option<S> {
    if KeyFits(k, g.minima, g.bits) then At(g.isSet, g.data, Address(k, g.minima, g.bits)) else None
  }

  ghost predicate GrownAt<P, S>(agg: AggregateFunction<P, S>, before: Groups<S>, after: Groups<S>, keys: seq<Key>,
                                payload: seq<P>, k: Key)
    requires |keys| == |payload|
  {
    StateOf(after, k) == Extend(agg.update, agg.initial, StateOf(before, k), keys, payload, k)
  }

  /** Every group was extended by its rows. */
  ghost predicate Grown<P, S>(agg: AggregateFunction<P, S>, before: Groups<S>, after: Groups<S>, keys: seq<Key>,
                              payload: seq<P>)
    requires |keys| == |payload|
  {
    forall k | KeyFits(k, after.minima, after.bits) :: GrownAt(agg, before, after, keys, payload, k)
  }

  /** The groups set from address `from` up to `end`, with their states. */
  ghost function SetGroups<S>(isSet: seq<bool>, data: seq<S>, minima: seq<int>, bits: seq<nat>, from: nat,
                              end: nat): (rows: seq<(Key, S)>)
    requires from <= end <= |isSet| == |data| && |minima| == |bits|
    decreases end
  {
    if from == end then []
    else
      var rest := SetGroups(isSet, data, minima, bits, from, end - 1);
      if isSet[end - 1] then rest + [(ReconstructedKey(end - 1, minima, bits), data[end - 1])] else rest
  }

  lemma {:induction false} SetGroupsSplit<S>(isSet: seq<bool>, data: seq<S>, minima: seq<int>, bits: seq<nat>,
                                             from: nat, mid: nat, end: nat)
    requires from <= mid <= end <= |isSet| == |data| && |minima| == |bits|
    ensures SetGroups(isSet, data, minima, bits, from, end) ==
            SetGroups(isSet, data, minima, bits, from, mid) + SetGroups(isSet, data, minima, bits, mid, end)
    decreases end
  {
    if mid < end {
      SetGroupsSplit(isSet, data, minima, bits, from, mid, end - 1);
    }
  }

  class PerfectAggregateHashTable<P(!new), S(!new)> {
    const agg: AggregateFunction<P, S>
    const minima: seq<int>
    const bits: seq<nat>
    const totalGroups: nat
    const data: array<S>
    const groupIsSet: array<bool>

    ghost predicate Shape() {
      && |minima| == |bits| && totalGroups == Pow2(BitsFrom(bits, 0)) && data.Length == totalGroups == groupIsSet.Length
      && (data as object) != (groupIsSet as object)
    }

    /** Groups that are not set have the initial state. */
    ghost predicate Valid()
      reads data, groupIsSet
    {
      Shape() && forall a | 0 <= a < totalGroups :: !groupIsSet[a] ==> data[a] == agg.initial
    }

    /** The states of all groups, as a value. */
    ghost function Contents(): Groups<S>
      reads data, groupIsSet
    {
      Groups(groupIsSet[..], data[..], minima, bits)
    }

    constructor (agg: AggregateFunction<P, S>, minima: seq<int>, bits: seq<nat>)
      requires |minima| == |bits|
      ensures this.agg == agg && this.minima == minima && this.bits == bits && Valid() && fresh(data)
      ensures fresh(groupIsSet)
      ensures forall k :: StateOf(Contents(), k) == None
    {
      this.agg, this.minima, this.bits := agg, minima, bits;
      var total := Pow2(BitsFrom(bits, 0));
      totalGroups := total;
      data := new S[total](_ => agg.initial);
      groupIsSet := new bool[total](_ => false);
    }

    /** Adds a chunk of rows to their groups. */
    method AddChunk(keys: seq<Key>, payload: seq<P>)
      requires Valid() && |keys| == |payload| && forall i | 0 <= i < |keys| :: KeyFits(keys[i], minima, bits)
      modifies data, groupIsSet
      ensures Valid()
      ensures Grown(agg, old(Contents()), Contents(), keys, payload)
    {
      var addresses := ComputeAddresses(keys, minima, bits);
      forall i | 0 <= i < |keys| ensures addresses[i] < totalGroups {
        AddressInTable(keys[i], minima, bits);
      }
      MarkGroups(addresses);
      UpdateGroups(addresses, payload);
      ghost var before, after := old(Contents()), Contents();
      forall k | KeyFits(k, minima, bits) ensures GrownAt(agg, before, after, keys, payload, k) {
        AddressInTable(k, minima, bits);
        FoldIsExtend(agg, StateOf(before, k), addresses, keys, payload, minima, bits, k);
      }
      forall a | 0 <= a < totalGroups && !groupIsSet[a] ensures data[a] == agg.initial {
        FoldUntouched(agg, before.data[a], addresses, payload, a);
      }
    }

    method MarkGroups(addresses: seq<nat>)
      requires Shape() && forall i | 0 <= i < |addresses| :: addresses[i] < totalGroups
      modifies groupIsSet
      ensures forall a | 0 <= a < totalGroups :: groupIsSet[a] <==> old(groupIsSet[a]) || a in addresses
    {
      for i := 0 to |addresses|
        invariant forall a | 0 <= a < totalGroups :: groupIsSet[a] <==> old(groupIsSet[a]) || a in addresses[..i]
      {
        groupIsSet[addresses[i]] := true;
        assert addresses[..i + 1] == addresses[..i] + [addresses[i]];
      }
      assert addresses[..|addresses|] == addresses;
    }

    method UpdateGroups(addresses: seq<nat>, payload: seq<P>)
      requires Shape() && |addresses| == |payload| && forall i | 0 <= i < |addresses| :: addresses[i] < totalGroups
      modifies data
      ensures forall a | 0 <= a < totalGroups :: data[a] == FoldAt(agg, old(data[a]), addresses, payload, a)
    {
      for i := 0 to |addresses|
        invariant forall a | 0 <= a < totalGroups ::
          data[a] == FoldAt(agg, old(data[a]), addresses[..i], payload[..i], a)
      {
        assert addresses[..i + 1][..i] == addresses[..i] && payload[..i + 1][..i] == payload[..i];
        data[addresses[i]] := agg.update(data[addresses[i]], payload[i]);
      }
      assert addresses[..|addresses|] == addresses && payload[..|payload|] == payload;
    }

    /** Combines the states at some addresses into this table. */
    method CombineStates(other: PerfectAggregateHashTable<P, S>, addresses: seq<nat>)
      requires Shape() && other.Shape() && other.totalGroups == totalGroups && data != other.data
      requires forall i | 0 <= i < |addresses| :: addresses[i] < totalGroups
      requires forall i, j | 0 <= i < j < |addresses| :: addresses[i] != addresses[j]
      modifies data
      ensures forall a | 0 <= a < totalGroups ::
        data[a] == if a in addresses then agg.combine(old(data[a]), other.data[a]) else old(data[a])
    {
      for i := 0 to |addresses|
        invariant forall a | 0 <= a < totalGroups ::
          data[a] == if a in addresses[..i] then agg.combine(old(data[a]), other.data[a]) else old(data[a])
      {
        var a := addresses[i];
        assert a !in addresses[..i] && addresses[..i + 1] == addresses[..i] + [a];
        data[a] := agg.combine(data[a], other.data[a]);
      }
      assert addresses[..|addresses|] == addresses;
    }

    ghost predicate Apart(other: PerfectAggregateHashTable<P, S>) {
      && other.Shape() && other.minima == minima && other.bits == bits && other.agg == agg && data != other.data
      && groupIsSet != other.groupIsSet && (data as object) != (other.groupIsSet as object)
      && (other.data as object) != (groupIsSet as object)
    }

    /** Combining has reached address `i`. */
    ghost predicate Combining(other: PerfectAggregateHashTable<P, S>, b: Groups<S>, o: Groups<S>, pending: seq<nat>,
                              i: nat)
      requires Shape() && Apart(other)
      reads data, groupIsSet, other.data, other.groupIsSet
    {
      && Pending(b, o, pending, i) && |b.isSet| == totalGroups
      && (forall a | 0 <= a < totalGroups :: other.data[a] == o.data[a])
      && (forall a | 0 <= a < totalGroups :: CombinedUpTo(agg, b, o, pending, i, groupIsSet[a], data[a], a))
      && (forall a | i <= a < totalGroups :: other.groupIsSet[a] == o.isSet[a])
    }

    /** Combines the states that wait to be. */
    method CombinePending(other: PerfectAggregateHashTable<P, S>, pending: seq<nat>, i: nat, ghost b: Groups<S>,
                          ghost o: Groups<S>)
      requires Shape() && Apart(other) && Combining(other, b, o, pending, i)
      modifies data
      ensures Combining(other, b, o, [], i)
    {
      CombineStates(other, pending);
      forall a | 0 <= a < totalGroups ensures CombinedUpTo(agg, b, o, [], i, groupIsSet[a], data[a], a) {
        assert CombinedUpTo(agg, b, o, pending, i, groupIsSet[a], old(data[a]), a);
      }
    }

    method CombineAddress(other: PerfectAggregateHashTable<P, S>, pending: seq<nat>, i: nat, ghost b: Groups<S>,
                          ghost o: Groups<S>)
      returns (pending': seq<nat>)
      requires Shape() && Apart(other) && i < totalGroups && Combining(other, b, o, pending, i)
      modifies data, groupIsSet, other.groupIsSet
      ensures Combining(other, b, o, pending', i + 1)
    {
      pending' := pending;
      assert CombinedUpTo(agg, b, o, pending, i, groupIsSet[i], data[i], i);
      if other.groupIsSet[i] {
        if groupIsSet[i] {
          pending' := pending + [i];
        } else {
          groupIsSet[i] := true;
          data[i] := other.data[i];
          other.groupIsSet[i] := false;
        }
      }
      forall a | 0 <= a < totalGroups ensures CombinedUpTo(agg, b, o, pending', i + 1, groupIsSet[a], data[a], a) {
        assert CombinedUpTo(agg, b, o, pending, i, old(groupIsSet[a]), old(data[a]), a);
      }
    }

    /** Merges another table into this one and uses it up. */
    method Combine(other: PerfectAggregateHashTable<P, S>)
      requires Valid() && other.Valid() && Apart(other)
      modifies data, groupIsSet, other.groupIsSet
      ensures Valid() && MergedGroups(agg, old(Contents()), old(other.Contents()), Contents())
    {
      ghost var b, o := Contents(), other.Contents();
      var pending: seq<nat> := [];
      for i := 0 to totalGroups
        invariant Combining(other, b, o, pending, i)
      {
        pending := CombineAddress(other, pending, i, b, o);
        if |pending| == STANDARD_VECTOR_SIZE {
          CombinePending(other, pending, i + 1, b, o);
          pending := [];
        }
      }
      CombinePending(other, pending, totalGroups, b, o);
      ghost var after := Contents();
      forall a | 0 <= a < totalGroups ensures CombinedAt(agg, b, o, after.isSet[a], after.data[a], a) {
        assert CombinedUpTo(agg, b, o, [], totalGroups, groupIsSet[a], data[a], a);
      }
      CombinedIsMerged(agg, b, o, after);
    }

    /** The next groups that are set, up to a vector of them, with the keys their addresses stand for. */
    method Scan(position: nat) returns (rows: seq<(Key, S)>, position': nat)
      requires Shape() && position <= totalGroups
      ensures position <= position' <= totalGroups && |rows| <= STANDARD_VECTOR_SIZE
      ensures rows == SetGroups(groupIsSet[..], data[..], minima, bits, position, position')
      ensures |rows| < STANDARD_VECTOR_SIZE ==> position' == totalGroups
    {
      rows, position' := [], position;
      while position' < totalGroups
        invariant position <= position' <= totalGroups && |rows| < STANDARD_VECTOR_SIZE
        invariant rows == SetGroups(groupIsSet[..], data[..], minima, bits, position, position')
      {
        if groupIsSet[position'] {
          var key := ReconstructGroup(position', minima, bits);
          rows := rows + [(key, data[position'])];
        }
        position' := position' + 1;
        if |rows| == STANDARD_VECTOR_SIZE {
          return;
        }
      }
    }
  }

  /** Scans a table from its first address to its last. */
  method ScanAll<P(!new), S(!new)>(table: PerfectAggregateHashTable<P, S>) returns (rows: seq<(Key, S)>)
    requires table.Shape()
    ensures rows == SetGroups(table.groupIsSet[..], table.data[..], table.minima, table.bits, 0, table.totalGroups)
  {
    var position := 0;
    rows := [];
    while position < table.totalGroups
      invariant position <= table.totalGroups
      invariant rows == SetGroups(table.groupIsSet[..], table.data[..], table.minima, table.bits, 0, position)
    {
      var more, next := table.Scan(position);
      ScanAdvances(table.groupIsSet[..], table.data[..], table.minima, table.bits, position, next, more);
      SetGroupsSplit(table.groupIsSet[..], table.data[..], table.minima, table.bits, 0, position, next);
      rows, position := rows + more, next;
    }
  }

  /** A scan that has not reached the end returned something, so it moved on. */
  lemma ScanAdvances<S>(isSet: seq<bool>, data: seq<S>, minima: seq<int>, bits: seq<nat>, from: nat, end: nat,
                        rows: seq<(Key, S)>)
    requires from <= end <= |isSet| == |data| && |minima| == |bits| && from < |isSet|
    requires rows == SetGroups(isSet, data, minima, bits, from, end)
    requires |rows| < STANDARD_VECTOR_SIZE ==> end == |isSet|
    ensures from < end
  {
  }

  /** Scanning the whole table returns every group it has, once, with its state. */
  lemma {:induction false} ScanReturnsGroups<S>(g: Groups<S>, end: nat, k: Key, s: S)
    requires |g.isSet| == |g.data| == Pow2(BitsFrom(g.bits, 0)) && |g.minima| == |g.bits| && end <= |g.isSet|
    ensures var rows := SetGroups(g.isSet, g.data, g.minima, g.bits, 0, end);
      (k, s) in rows <==> KeyFits(k, g.minima, g.bits) && Address(k, g.minima, g.bits) < end && StateOf(g, k) == Some(s)
    decreases end
  {
    hide Address, KeyFits, ReconstructedKey, Pow2, BitsFrom;
    if end > 0 {
      ScanReturnsGroups(g, end - 1, k, s);
      AddressRoundTrip(end - 1, g.minima, g.bits);
      if KeyFits(k, g.minima, g.bits) {
        KeyRoundTrip(k, g.minima, g.bits);
      }
      var rest := SetGroups(g.isSet, g.data, g.minima, g.bits, 0, end - 1);
      var last := ReconstructedKey(end - 1, g.minima, g.bits);
      if g.isSet[end - 1] {
        assert (k, s) in rest + [(last, g.data[end - 1])] <==> (k, s) in rest || (k == last && s == g.data[end - 1]);
      }
    }
  }

  lemma {:induction false} ScanKeysDiffer<S>(g: Groups<S>, end: nat, x: nat, y: nat)
    requires |g.isSet| == |g.data| == Pow2(BitsFrom(g.bits, 0)) && |g.minima| == |g.bits| && end <= |g.isSet|
    requires x < y < |SetGroups(g.isSet, g.data, g.minima, g.bits, 0, end)|
    ensures var rows := SetGroups(g.isSet, g.data, g.minima, g.bits, 0, end); rows[x].0 != rows[y].0
    decreases end
  {
    hide Address, KeyFits, ReconstructedKey, Pow2, BitsFrom;
    if end > 0 {
      var rest := SetGroups(g.isSet, g.data, g.minima, g.bits, 0, end - 1);
      if y < |rest| {
        ScanKeysDiffer(g, end - 1, x, y);
      } else {
        assert rest[x] == (rest[x].0, rest[x].1) && rest[x] in rest;
        ScanReturnsGroups(g, end - 1, rest[x].0, rest[x].1);
        AddressRoundTrip(end - 1, g.minima, g.bits);
      }
    }
  }

  ghost predicate SameSize<S>(b: Groups<S>, o: Groups<S>) {
    |b.isSet| == |b.data| == |o.isSet| == |o.data| && b.minima == o.minima && b.bits == o.bits
  }

  /** An address after combining: both states if both tables had one, otherwise the one there is. */
  ghost predicate CombinedAt<P, S>(agg: AggregateFunction<P, S>, b: Groups<S>, o: Groups<S>, isSet: bool, data: S,
                                   a: nat)
    requires SameSize(b, o) && a < |b.isSet|
  {
    && (isSet <==> b.isSet[a] || o.isSet[a])
    && data ==
       if b.isSet[a] && o.isSet[a] then agg.combine(b.data[a], o.data[a])
       else if o.isSet[a] then o.data[a]
       else b.data[a]
  }

  /** The addresses below `i` are combined, except those whose states wait to be. */
  ghost predicate CombinedUpTo<P, S>(agg: AggregateFunction<P, S>, b: Groups<S>, o: Groups<S>, pending: seq<nat>,
                                     i: nat, isSet: bool, data: S, a: nat)
    requires SameSize(b, o) && a < |b.isSet|
  {
    if a < i && a !in pending then CombinedAt(agg, b, o, isSet, data, a) else isSet == b.isSet[a] && data == b.data[a]
  }

  ghost predicate Pending<S>(b: Groups<S>, o: Groups<S>, pending: seq<nat>, i: nat)
  {
    && SameSize(b, o) && i <= |b.isSet|
    && (forall x | 0 <= x < |pending| :: pending[x] < i && b.isSet[pending[x]] && o.isSet[pending[x]])
    && (forall x, y | 0 <= x < y < |pending| :: pending[x] != pending[y])
  }

  ghost predicate MergedGroups<P, S>(agg: AggregateFunction<P, S>, b: Groups<S>, o: Groups<S>, after: Groups<S>) {
    forall k :: StateOf(after, k) == Merge(agg, StateOf(b, k), StateOf(o, k))
  }

  lemma CombinedIsMerged<P, S>(agg: AggregateFunction<P, S>, b: Groups<S>, o: Groups<S>, after: Groups<S>)
    requires SameSize(b, o) && SameSize(b, after) && |b.isSet| == Pow2(BitsFrom(b.bits, 0))
    requires forall a | 0 <= a < |b.isSet| :: CombinedAt(agg, b, o, after.isSet[a], after.data[a], a)
    ensures MergedGroups(agg, b, o, after)
  {
    forall k ensures StateOf(after, k) == Merge(agg, StateOf(b, k), StateOf(o, k)) {
      if KeyFits(k, b.minima, b.bits) {
        AddressInTable(k, b.minima, b.bits);
        var a := Address(k, b.minima, b.bits);
        assert CombinedAt(agg, b, o, after.isSet[a], after.data[a], a);
      }
    }
  }
}
