/**
 * What a grouped aggregation computes, and how states of the same group merge.
 *
 * The rows of a group are folded into one state. `Extend` is that fold for one key; `Find` reads the state of a
 * key out of a table. Both yield None for a key that has not occurred.
 */
module GroupAggregates {
  import opened Common
  import opened GroupProbing
  import Bits

  /** The callbacks of an aggregate function. */
  datatype AggregateFunction<!P, !S> = AggregateFunction(
    initial: S,
    update: (S, P) -> S,
    combine: (S, S) -> S)

  /** Combining is a commutative monoid, and updating with a row combines with that row's own state. */
  ghost predicate Lawful<P(!new), S(!new)>(agg: AggregateFunction<P, S>) {
    && (forall a, b :: Commutes(agg, a, b))
    && (forall a, b, c :: Associates(agg, a, b, c))
    && (forall a :: InitialIsUnit(agg, a))
    && (forall a, p :: UpdateCombines(agg, a, p))
  }

  ghost predicate Commutes<P, S>(agg: AggregateFunction<P, S>, a: S, b: S) {
    agg.combine(a, b) == agg.combine(b, a)
  }

  ghost predicate Associates<P, S>(agg: AggregateFunction<P, S>, a: S, b: S, c: S) {
    agg.combine(agg.combine(a, b), c) == agg.combine(a, agg.combine(b, c))
  }

  ghost predicate InitialIsUnit<P, S>(agg: AggregateFunction<P, S>, a: S) {
    agg.combine(a, agg.initial) == a
  }

  ghost predicate UpdateCombines<P, S>(agg: AggregateFunction<P, S>, a: S, p: P) {
    agg.update(a, p) == agg.combine(a, agg.update(agg.initial, p))
  }

  // ---------- the state of one key ----------

  /** Folds the values of the rows with one key into that key's state. */
  function Extend<X, S>(op: (S, X) -> S, initial: S, before: Option<S>, keys: seq<Key>, xs: seq<X>, k: Key): Option<S>
    requires |keys| == |xs|
  {
    if keys == [] then before
    else
      var n := |keys| - 1;
      var rest := Extend(op, initial, before, keys[..n], xs[..n], k);
      if keys[n] != k then rest
      else Some(op(if rest.Some? then rest.value else initial, xs[n]))
  }

  /** The state a table holds for a key. */
  function Find<S>(tuples: seq<Tuple<S>>, k: Key): Option<S> {
    if tuples == [] then None
    else if tuples[|tuples| - 1].key == k then Some(tuples[|tuples| - 1].state)
    else Find(tuples[..|tuples| - 1], k)
  }

  ghost predicate Distinct<S>(tuples: seq<Tuple<S>>) {
    forall i, j | 0 <= i < j < |tuples| :: tuples[i].key != tuples[j].key
  }

  lemma {:induction false} FindAt<S>(tuples: seq<Tuple<S>>, i: nat)
    requires Distinct(tuples) && i < |tuples|
    ensures Find(tuples, tuples[i].key) == Some(tuples[i].state)
  {
    if i < |tuples| - 1 {
      FindAt(tuples[..|tuples| - 1], i);
    }
  }

  lemma {:induction false} FindNone<S>(tuples: seq<Tuple<S>>, k: Key)
    requires forall i | 0 <= i < |tuples| :: tuples[i].key != k
    ensures Find(tuples, k) == None
  {
    if tuples != [] {
      FindNone(tuples[..|tuples| - 1], k);
    }
  }

  lemma {:induction false} FindSome<S>(tuples: seq<Tuple<S>>, k: Key) returns (i: nat)
    requires Find(tuples, k).Some?
    ensures i < |tuples| && tuples[i].key == k && tuples[i].state == Find(tuples, k).value
  {
    if tuples[|tuples| - 1].key == k {
      i := |tuples| - 1;
    } else {
      i := FindSome(tuples[..|tuples| - 1], k);
    }
  }

  // ---------- applying a chunk to the tuples its rows were given ----------

  function ApplyRow<X, S>(op: (S, X) -> S, tuples: seq<Tuple<S>>, address: nat, x: X): (r: seq<Tuple<S>>)
    requires address < |tuples|
    ensures |r| == |tuples|
  {
    tuples[address := tuples[address].(state := op(tuples[address].state, x))]
  }

  ghost function Apply<X, S>(op: (S, X) -> S, tuples: seq<Tuple<S>>, addresses: seq<nat>,
                             xs: seq<X>): (r: seq<Tuple<S>>)
    requires |addresses| == |xs| && forall i | 0 <= i < |addresses| :: addresses[i] < |tuples|
    ensures |r| == |tuples|
  {
    if addresses == [] then tuples
    else
      var n := |addresses| - 1;
      ApplyRow(op, Apply(op, tuples, addresses[..n], xs[..n]), addresses[n], xs[n])
  }

  ghost predicate SameGroups<S>(tuples: seq<Tuple<S>>, tuples': seq<Tuple<S>>) {
    && |tuples| == |tuples'|
    && forall i | 0 <= i < |tuples| :: tuples[i].key == tuples'[i].key && tuples[i].hash == tuples'[i].hash
  }

  lemma {:induction false} ApplyKeepsGroups<X, S>(op: (S, X) -> S, tuples: seq<Tuple<S>>, addresses: seq<nat>,
                                                  xs: seq<X>)
    requires |addresses| == |xs| && forall i | 0 <= i < |addresses| :: addresses[i] < |tuples|
    ensures SameGroups(tuples, Apply(op, tuples, addresses, xs))
  {
    if addresses != [] {
      ApplyKeepsGroups(op, tuples, addresses[..|addresses| - 1], xs[..|addresses| - 1]);
    }
  }

  lemma FindApplyRow<X, S>(op: (S, X) -> S, tuples: seq<Tuple<S>>, address: nat, x: X, k: Key)
    requires Distinct(tuples) && address < |tuples|
    ensures Find(ApplyRow(op, tuples, address, x), k) ==
            if tuples[address].key == k then Some(op(tuples[address].state, x)) else Find(tuples, k)
  {
    var tuples' := ApplyRow(op, tuples, address, x);
    if tuples[address].key == k {
      FindAt(tuples', address);
    } else if i :| 0 <= i < |tuples| && tuples[i].key == k {
      FindAt(tuples, i);
      FindAt(tuples', i);
    } else {
      FindNone(tuples, k);
      FindNone(tuples', k);
    }
  }

  /** Applying a chunk row by row extends the state of every key by the rows with that key. */
  lemma {:induction false} FindApply<X, S>(op: (S, X) -> S, initial: S, tuples: seq<Tuple<S>>, addresses: seq<nat>,
                                           keys: seq<Key>, xs: seq<X>, k: Key)
    requires Distinct(tuples) && |addresses| == |xs| == |keys|
    requires forall i | 0 <= i < |addresses| :: addresses[i] < |tuples| && tuples[addresses[i]].key == keys[i]
    ensures Find(Apply(op, tuples, addresses, xs), k) == Extend(op, initial, Find(tuples, k), keys, xs, k)
  {
    if addresses != [] {
      var n := |addresses| - 1;
      FindApply(op, initial, tuples, addresses[..n], keys[..n], xs[..n], k);
      ApplyKeepsGroups(op, tuples, addresses[..n], xs[..n]);
      var before := Apply(op, tuples, addresses[..n], xs[..n]);
      FindApplyRow(op, before, addresses[n], xs[n], k);
      FindAt(before, addresses[n]);
    }
  }

  /** Starting a group with the initial state changes nothing once a row of the group follows. */
  lemma {:induction false} ExtendFromInitial<X, S>(op: (S, X) -> S, initial: S, keys: seq<Key>, xs: seq<X>, k: Key)
    requires |keys| == |xs|
    ensures k in keys ==> Extend(op, initial, Some(initial), keys, xs, k) == Extend(op, initial, None, keys, xs, k)
    ensures k !in keys ==> Extend(op, initial, None, keys, xs, k) == None
    ensures k !in keys ==> Extend(op, initial, Some(initial), keys, xs, k) == Some(initial)
  {
    if keys != [] {
      ExtendFromInitial(op, initial, keys[..|keys| - 1], xs[..|keys| - 1], k);
    }
  }

  // ---------- a chunk as a whole ----------

  /** Creating groups leaves every old state alone and gives every new key the initial state. */
  lemma FindCreated<S>(before: seq<Tuple<S>>, tuples: seq<Tuple<S>>, newGroups: seq<nat>, b: Batch<S>,
                       addresses: seq<nat>, k: Key)
    requires Created(before, tuples, newGroups, b) && Distinct(tuples) && AllResolved(tuples, b, addresses)
    ensures Find(before, k).Some? ==> Find(tuples, k) == Find(before, k)
    ensures Find(before, k).None? && k in b.keys ==> Find(tuples, k) == Some(b.initial)
    ensures Find(before, k).None? && k !in b.keys ==> Find(tuples, k) == None
  {
    if Find(before, k).Some? {
      var i := FindSome(before, k);
      assert tuples[i] == before[i];
      FindAt(tuples, i);
    } else {
      forall i | 0 <= i < |before| ensures tuples[i].key != k {
        FindAt(before, i);
      }
      if k in b.keys {
        var x :| 0 <= x < |b.keys| && b.keys[x] == k;
        assert Resolved(tuples, b, addresses, x);
        FindAt(tuples, addresses[x]);
        var j := addresses[x] - |before|;
        assert newGroups[j] < |b.keys| && tuples[|before| + j].state == b.initial;
      } else {
        forall i | |before| <= i < |tuples| ensures tuples[i].key != k {
          assert tuples[|before| + (i - |before|)].key == b.keys[newGroups[i - |before|]];
        }
        FindNone(tuples, k);
      }
    }
  }

  /** Looking a chunk up and applying it extends every key's state by the chunk. */
  lemma FindChunk<X, S>(op: (S, X) -> S, before: seq<Tuple<S>>, tuples: seq<Tuple<S>>, newGroups: seq<nat>, b: Batch<S>,
                        addresses: seq<nat>, xs: seq<X>, k: Key)
    requires Created(before, tuples, newGroups, b) && Distinct(tuples) && AllResolved(tuples, b, addresses)
    requires |xs| == |b.keys| && forall i | 0 <= i < |addresses| :: addresses[i] < |tuples|
    ensures Find(Apply(op, tuples, addresses, xs), k) == Extend(op, b.initial, Find(before, k), b.keys, xs, k)
  {
    forall i | 0 <= i < |addresses| ensures tuples[addresses[i]].key == b.keys[i] {
      assert Resolved(tuples, b, addresses, i);
    }
    FindApply(op, b.initial, tuples, addresses, b.keys, xs, k);
    FindCreated(before, tuples, newGroups, b, addresses, k);
    ExtendFromInitial(op, b.initial, b.keys, xs, k);
  }

  /** Two rows have the same tuple exactly when they have the same key. */
  lemma SameTupleIffSameKey<S>(tuples: seq<Tuple<S>>, b: Batch<S>, addresses: seq<nat>, x: nat, y: nat)
    requires Distinct(tuples) && AllResolved(tuples, b, addresses) && x < |b.keys| && y < |b.keys|
    ensures addresses[x] == addresses[y] <==> b.keys[x] == b.keys[y]
  {
    assert Resolved(tuples, b, addresses, x) && Resolved(tuples, b, addresses, y);
  }

  /** The rows reported as new have distinct keys, and stand for exactly the keys the table did not hold. */
  lemma NewGroupsAreAbsentKeys<S>(before: seq<Tuple<S>>, tuples: seq<Tuple<S>>, newGroups: seq<nat>, b: Batch<S>,
                                  addresses: seq<nat>, x: nat)
    requires Created(before, tuples, newGroups, b) && Distinct(tuples) && AllResolved(tuples, b, addresses)
    requires x < |b.keys|
    ensures forall i, j | 0 <= i < j < |newGroups| :: b.keys[newGroups[i]] != b.keys[newGroups[j]]
    ensures Find(before, b.keys[x]).None? <==> exists j | 0 <= j < |newGroups| :: b.keys[newGroups[j]] == b.keys[x]
  {
    forall i, j | 0 <= i < j < |newGroups| ensures b.keys[newGroups[i]] != b.keys[newGroups[j]] {
      assert tuples[|before| + i].key != tuples[|before| + j].key;
    }
    assert Resolved(tuples, b, addresses, x);
    if Find(before, b.keys[x]).None? {
      forall i | 0 <= i < |before| ensures tuples[i].key != b.keys[x] {
        FindAt(before, i);
      }
      var j := addresses[x] - |before|;
      assert tuples[|before| + j].key == b.keys[newGroups[j]];
    } else {
      var i := FindSome(before, b.keys[x]);
      forall j | 0 <= j < |newGroups| ensures b.keys[newGroups[j]] != b.keys[x] {
        assert tuples[i].key != tuples[|before| + j].key;
      }
    }
  }

  // ---------- merging ----------

  /** Merges the states two tables hold for a key. */
  function Merge<P, S>(agg: AggregateFunction<P, S>, a: Option<S>, b: Option<S>): Option<S> {
    if a.None? then b else if b.None? then a else Some(agg.combine(a.value, b.value))
  }

  lemma MergeLaws<P(!new), S(!new)>(agg: AggregateFunction<P, S>, a: Option<S>, b: Option<S>, c: Option<S>)
    requires Lawful(agg)
    ensures Merge(agg, a, b) == Merge(agg, b, a)
    ensures Merge(agg, Merge(agg, a, b), c) == Merge(agg, a, Merge(agg, b, c))
  {
    if a.Some? && b.Some? {
      assert Commutes(agg, a.value, b.value);
      if c.Some? {
        assert Associates(agg, a.value, b.value, c.value);
      }
    }
  }

  lemma UnitOnTheLeft<P(!new), S(!new)>(agg: AggregateFunction<P, S>, s: S)
    requires Lawful(agg)
    ensures agg.combine(agg.initial, s) == s
  {
    assert InitialIsUnit(agg, s) && Commutes(agg, agg.initial, s);
  }

  /** The fold of a key's rows alone, as a fresh table would hold it. */
  function GroupState<P, S>(agg: AggregateFunction<P, S>, keys: seq<Key>, payload: seq<P>, k: Key): Option<S>
    requires |keys| == |payload|
  {
    Extend(agg.update, agg.initial, None, keys, payload, k)
  }

  /** Extending a state by rows merges it with the state of those rows alone. */
  lemma {:induction false} ExtendIsMerge<P(!new), S(!new)>(
    agg: AggregateFunction<P, S>, before: Option<S>, keys: seq<Key>, payload: seq<P>, k: Key)
    requires Lawful(agg) && |keys| == |payload|
    ensures Extend(agg.update, agg.initial, before, keys, payload, k) ==
            Merge(agg, before, GroupState(agg, keys, payload, k))
  {
    if keys != [] {
      var n := |keys| - 1;
      ExtendIsMerge(agg, before, keys[..n], payload[..n], k);
      if keys[n] == k {
        var rest := GroupState(agg, keys[..n], payload[..n], k);
        var own := Some(agg.update(agg.initial, payload[n]));
        MergeLaws(agg, before, rest, own);
        UpdateMerges(agg, rest, payload[n]);
        UpdateMerges(agg, Merge(agg, before, rest), payload[n]);
      }
    }
  }

  lemma UpdateMerges<P(!new), S(!new)>(agg: AggregateFunction<P, S>, o: Option<S>, p: P)
    requires Lawful(agg)
    ensures Some(agg.update(if o.Some? then o.value else agg.initial, p)) ==
            Merge(agg, o, Some(agg.update(agg.initial, p)))
  {
    assert o.Some? ==> UpdateCombines(agg, o.value, p);
  }

  lemma {:induction false} ExtendSplit<X, S>(op: (S, X) -> S, initial: S, before: Option<S>, keys: seq<Key>, xs: seq<X>,
                                             keys': seq<Key>, xs': seq<X>, k: Key)
    requires |keys| == |xs| && |keys'| == |xs'|
    ensures Extend(op, initial, before, keys + keys', xs + xs', k) ==
            Extend(op, initial, Extend(op, initial, before, keys, xs, k), keys', xs', k)
  {
    if keys' == [] {
      assert keys + keys' == keys && xs + xs' == xs;
    } else {
      var n := |keys'| - 1;
      ExtendSplit(op, initial, before, keys, xs, keys'[..n], xs'[..n], k);
      assert (keys + keys')[..|keys| + n] == keys + keys'[..n] && (xs + xs')[..|keys| + n] == xs + xs'[..n];
    }
  }

  // ---------- moving the tuples of a table ----------

  function KeysOf<S>(tuples: seq<Tuple<S>>): (keys: seq<Key>)
    ensures |keys| == |tuples|
  {
    seq(|tuples|, i requires 0 <= i < |tuples| => tuples[i].key)
  }

  function HashesOf<S>(tuples: seq<Tuple<S>>): (hashes: seq<nat>)
    ensures |hashes| == |tuples|
  {
    seq(|tuples|, i requires 0 <= i < |tuples| => tuples[i].hash)
  }

  function StatesOf<S>(tuples: seq<Tuple<S>>): (states: seq<S>)
    ensures |states| == |tuples|
  {
    seq(|tuples|, i requires 0 <= i < |tuples| => tuples[i].state)
  }

  /** Combining the tuples of a table into another merges the states of every key. */
  lemma {:induction false} ExtendByTable<P(!new), S(!new)>(
    agg: AggregateFunction<P, S>, before: Option<S>, tuples: seq<Tuple<S>>, k: Key)
    requires Lawful(agg) && Distinct(tuples)
    ensures Extend(agg.combine, agg.initial, before, KeysOf(tuples), StatesOf(tuples), k) ==
            Merge(agg, before, Find(tuples, k))
  {
    if tuples != [] {
      var n := |tuples| - 1;
      ExtendByTable(agg, before, tuples[..n], k);
      assert KeysOf(tuples)[..n] == KeysOf(tuples[..n]) && StatesOf(tuples)[..n] == StatesOf(tuples[..n]);
      if tuples[n].key == k {
        FindNone(tuples[..n], k);
        UnitOnTheLeft(agg, tuples[n].state);
      }
    }
  }

  // ---------- what an operation does to a whole table ----------

  ghost predicate ExtendedAt<X, S>(op: (S, X) -> S, initial: S, before: seq<Tuple<S>>, tuples: seq<Tuple<S>>,
                                   keys: seq<Key>, xs: seq<X>, k: Key)
    requires |keys| == |xs|
  {
    Find(tuples, k) == Extend(op, initial, Find(before, k), keys, xs, k)
  }

  /** Every key's state has been extended by the rows with that key. */
  ghost predicate Extended<X, S>(op: (S, X) -> S, initial: S, before: seq<Tuple<S>>, tuples: seq<Tuple<S>>,
                                 keys: seq<Key>, xs: seq<X>)
    requires |keys| == |xs|
  {
    forall k :: ExtendedAt(op, initial, before, tuples, keys, xs, k)
  }

  lemma ResolvedInRange<S>(tuples: seq<Tuple<S>>, b: Batch<S>, addresses: seq<nat>)
    requires AllResolved(tuples, b, addresses)
    ensures forall i | 0 <= i < |addresses| :: addresses[i] < |tuples|
  {
    forall i | 0 <= i < |addresses| ensures addresses[i] < |tuples| {
      assert Resolved(tuples, b, addresses, i);
    }
  }

  // ---------- moving tuples between tables ----------

  ghost predicate Within(ptrs: seq<nat>, count: nat) {
    forall i | 0 <= i < |ptrs| :: ptrs[i] < count
  }

  /** The tuples at the given positions. */
  function Gather<S>(source: seq<Tuple<S>>, ptrs: seq<nat>): (moved: seq<Tuple<S>>)
    requires Within(ptrs, |source|)
    ensures |moved| == |ptrs|
  {
    seq(|ptrs|, i requires 0 <= i < |ptrs| => source[ptrs[i]])
  }

  /** Every key's state has been combined with the states of the moved tuples of that key. */
  ghost predicate Received<P, S>(agg: AggregateFunction<P, S>, before: seq<Tuple<S>>, tuples: seq<Tuple<S>>,
                                 moved: seq<Tuple<S>>) {
    Extended(agg.combine, agg.initial, before, tuples, KeysOf(moved), StatesOf(moved))
  }

  ghost predicate MergedAt<P, S>(agg: AggregateFunction<P, S>, before: seq<Tuple<S>>, tuples: seq<Tuple<S>>,
                                 other: seq<Tuple<S>>, k: Key) {
    Find(tuples, k) == Merge(agg, Find(before, k), Find(other, k))
  }

  /** Every key's state has been merged with the state the other table holds for it. */
  ghost predicate Merged<P, S>(agg: AggregateFunction<P, S>, before: seq<Tuple<S>>, tuples: seq<Tuple<S>>,
                               other: seq<Tuple<S>>) {
    forall k :: MergedAt(agg, before, tuples, other, k)
  }

  lemma ReceivedNothing<P, S>(agg: AggregateFunction<P, S>, tuples: seq<Tuple<S>>)
    ensures Received(agg, tuples, tuples, [])
  {
    forall k ensures ExtendedAt(agg.combine, agg.initial, tuples, tuples, KeysOf<S>([]), StatesOf<S>([]), k) {
    }
  }

  lemma ReceivedMore<P, S>(agg: AggregateFunction<P, S>, before: seq<Tuple<S>>, mid: seq<Tuple<S>>,
                           tuples: seq<Tuple<S>>, source: seq<Tuple<S>>, sent: seq<nat>, ptrs: seq<nat>)
    requires Within(sent, |source|) && Within(ptrs, |source|)
    requires Received(agg, before, mid, Gather(source, sent)) && Received(agg, mid, tuples, Gather(source, ptrs))
    ensures Within(sent + ptrs, |source|) && Received(agg, before, tuples, Gather(source, sent + ptrs))
  {
    var a, b, ab := Gather(source, sent), Gather(source, ptrs), Gather(source, sent + ptrs);
    assert KeysOf(ab) == KeysOf(a) + KeysOf(b) && StatesOf(ab) == StatesOf(a) + StatesOf(b);
    forall k ensures ExtendedAt(agg.combine, agg.initial, before, tuples, KeysOf(ab), StatesOf(ab), k) {
      assert ExtendedAt(agg.combine, agg.initial, before, mid, KeysOf(a), StatesOf(a), k);
      assert ExtendedAt(agg.combine, agg.initial, mid, tuples, KeysOf(b), StatesOf(b), k);
      ExtendSplit(agg.combine, agg.initial, Find(before, k), KeysOf(a), StatesOf(a), KeysOf(b), StatesOf(b), k);
    }
  }

  /** The positions 0, 1, ..., n - 1. */
  ghost predicate Consecutive(ptrs: seq<nat>, n: nat) {
    |ptrs| == n && forall i | 0 <= i < n :: ptrs[i] == i
  }

  lemma ConsecutiveNext(sent: seq<nat>, ptrs: seq<nat>, n: nat)
    requires Consecutive(sent + ptrs, n)
    ensures Consecutive(sent + (ptrs + [n]), n + 1)
    ensures forall i | 0 <= i < |sent| :: sent[i] < n
    ensures forall i | 0 <= i < |ptrs| :: ptrs[i] < n
  {
    assert sent + (ptrs + [n]) == (sent + ptrs) + [n];
    forall i | 0 <= i < |sent| ensures sent[i] < n {
      assert (sent + ptrs)[i] == sent[i];
    }
    forall i | 0 <= i < |ptrs| ensures ptrs[i] < n {
      assert (sent + ptrs)[|sent| + i] == ptrs[i];
    }
  }

  lemma ReceivedAll<P(!new), S(!new)>(agg: AggregateFunction<P, S>, before: seq<Tuple<S>>, tuples: seq<Tuple<S>>,
                                      source: seq<Tuple<S>>, ptrs: seq<nat>)
    requires Lawful(agg) && Distinct(source) && Within(ptrs, |source|) && Consecutive(ptrs, |source|)
    requires Received(agg, before, tuples, Gather(source, ptrs))
    ensures Merged(agg, before, tuples, source)
  {
    assert Gather(source, ptrs) == source;
    forall k ensures MergedAt(agg, before, tuples, source, k) {
      assert ExtendedAt(agg.combine, agg.initial, before, tuples, KeysOf(source), StatesOf(source), k);
      ExtendByTable(agg, Find(before, k), source, k);
    }
  }

  // ---------- partitioning ----------

  /** The partition of a hash: the bits under the mask. */
  function RadixOf(hash: nat, mask: nat, shift: nat): nat {
    Bits.ShiftRight(Bits.And(hash, mask), shift)
  }

  /** The positions, among the first `n`, of the tuples of one partition. */
  ghost function PartitionPtrs<S>(tuples: seq<Tuple<S>>, n: nat, r: nat, mask: nat, shift: nat): (ptrs: seq<nat>)
    requires n <= |tuples|
    ensures Within(ptrs, n) && |ptrs| <= n
  {
    if n == 0 then []
    else
      PartitionPtrs(tuples, n - 1, r, mask, shift) +
      (if RadixOf(tuples[n - 1].hash, mask, shift) == r then [n - 1] else [])
  }

  lemma {:induction false} PartitionPtrsGrow<S>(tuples: seq<Tuple<S>>, n: nat, m: nat, r: nat, mask: nat, shift: nat)
    requires n <= m <= |tuples|
    ensures PartitionPtrs(tuples, n, r, mask, shift) <= PartitionPtrs(tuples, m, r, mask, shift)
  {
    if n < m {
      PartitionPtrsGrow(tuples, n, m - 1, r, mask, shift);
    }
  }

  /** How many tuples of a table belong to a partition. */
  ghost function PartitionCount<S>(tuples: seq<Tuple<S>>, r: nat, mask: nat, shift: nat): nat {
    |PartitionPtrs(tuples, |tuples|, r, mask, shift)|
  }

  /** The buffers hold, after what has been sent, the tuples of each partition among the first `n`. */
  ghost predicate Buffered<S>(source: seq<Tuple<S>>, infos: seq<seq<nat>>, sents: seq<seq<nat>>, n: nat, mask: nat,
                              shift: nat) {
    && |infos| == |sents| && n <= |source|
    && forall q | 0 <= q < |infos| :: BufferedIn(source, infos[q], sents[q], n, q, mask, shift)
  }

  ghost predicate BufferedIn<S>(source: seq<Tuple<S>>, info: seq<nat>, sent: seq<nat>, n: nat, q: nat, mask: nat,
                                shift: nat)
    requires n <= |source|
  {
    && |sent| % STANDARD_VECTOR_SIZE == 0 && |info| < STANDARD_VECTOR_SIZE && Within(info, |source|)
    && sent + info == PartitionPtrs(source, n, q, mask, shift)
  }

  ghost predicate RadixBelow<S>(tuples: seq<Tuple<S>>, mask: nat, shift: nat, n: nat) {
    forall i | 0 <= i < |tuples| :: RadixOf(tuples[i].hash, mask, shift) < n
  }

  ghost predicate MergedPartitionAt<P, S>(agg: AggregateFunction<P, S>, hashOf: Key -> nat, before: seq<Tuple<S>>,
                                          tuples: seq<Tuple<S>>, source: seq<Tuple<S>>, r: nat, mask: nat, shift: nat,
                                          k: Key)
  {
    Find(tuples, k) ==
    Merge(agg, Find(before, k), if RadixOf(hashOf(k), mask, shift) == r then Find(source, k) else None)
  }

  /** A table has been merged with the groups of one partition of the source, and with nothing else. */
  ghost predicate MergedPartition<P, S>(agg: AggregateFunction<P, S>, hashOf: Key -> nat, before: seq<Tuple<S>>,
                                        tuples: seq<Tuple<S>>, source: seq<Tuple<S>>, r: nat, mask: nat, shift: nat)
  {
    forall k :: MergedPartitionAt(agg, hashOf, before, tuples, source, r, mask, shift, k)
  }

  lemma {:induction false} PartitionPtrsDistinct<S>(tuples: seq<Tuple<S>>, n: nat, r: nat, mask: nat, shift: nat)
    requires n <= |tuples| && Distinct(tuples)
    ensures Distinct(Gather(tuples, PartitionPtrs(tuples, n, r, mask, shift)))
  {
    if n > 0 {
      PartitionPtrsDistinct(tuples, n - 1, r, mask, shift);
      var before, ptrs := PartitionPtrs(tuples, n - 1, r, mask, shift), PartitionPtrs(tuples, n, r, mask, shift);
      var moved := Gather(tuples, ptrs);
      forall i, j | 0 <= i < j < |moved| ensures moved[i].key != moved[j].key {
        if j < |before| {
          assert moved[i] == Gather(tuples, before)[i] && moved[j] == Gather(tuples, before)[j];
        } else {
          assert ptrs[i] == before[i] < n - 1 == ptrs[j];
        }
      }
    }
  }

  /** The tuples of a partition hold a key exactly when the source does and the key belongs to the partition. */
  lemma {:induction false} FindPartition<S>(tuples: seq<Tuple<S>>, hashOf: Key -> nat, columns: nat, n: nat, r: nat,
                                            mask: nat, shift: nat, k: Key)
    requires n <= |tuples| && Keyed(tuples, hashOf, columns)
    ensures Find(Gather(tuples, PartitionPtrs(tuples, n, r, mask, shift)), k) ==
            if RadixOf(hashOf(k), mask, shift) == r then Find(tuples[..n], k) else None
  {
    if n > 0 {
      FindPartition(tuples, hashOf, columns, n - 1, r, mask, shift, k);
      FindLast(tuples[..n - 1], tuples[n - 1], k);
      assert tuples[..n] == tuples[..n - 1] + [tuples[n - 1]];
      if RadixOf(tuples[n - 1].hash, mask, shift) == r {
        GatherPartition(tuples, n, r, mask, shift);
        FindLast(Gather(tuples, PartitionPtrs(tuples, n - 1, r, mask, shift)), tuples[n - 1], k);
      } else {
        assert PartitionPtrs(tuples, n, r, mask, shift) == PartitionPtrs(tuples, n - 1, r, mask, shift);
      }
    }
  }

  lemma FindLast<S>(tuples: seq<Tuple<S>>, t: Tuple<S>, k: Key)
    ensures Find(tuples + [t], k) == if t.key == k then Some(t.state) else Find(tuples, k)
  {
    assert (tuples + [t])[..|tuples|] == tuples;
  }

  lemma GatherPartition<S>(tuples: seq<Tuple<S>>, n: nat, r: nat, mask: nat, shift: nat)
    requires 0 < n <= |tuples| && RadixOf(tuples[n - 1].hash, mask, shift) == r
    ensures Gather(tuples, PartitionPtrs(tuples, n, r, mask, shift)) ==
            Gather(tuples, PartitionPtrs(tuples, n - 1, r, mask, shift)) + [tuples[n - 1]]
  {
  }

  lemma ReceivedPartition<P(!new), S(!new)>(
    agg: AggregateFunction<P, S>, hashOf: Key -> nat, columns: nat, before: seq<Tuple<S>>, tuples: seq<Tuple<S>>,
    source: seq<Tuple<S>>, r: nat, mask: nat, shift: nat)
    requires Lawful(agg) && Keyed(source, hashOf, columns)
    requires Received(agg, before, tuples, Gather(source, PartitionPtrs(source, |source|, r, mask, shift)))
    ensures MergedPartition(agg, hashOf, before, tuples, source, r, mask, shift)
  {
    var moved := Gather(source, PartitionPtrs(source, |source|, r, mask, shift));
    PartitionPtrsDistinct(source, |source|, r, mask, shift);
    assert source[..|source|] == source;
    forall k ensures MergedPartitionAt(agg, hashOf, before, tuples, source, r, mask, shift, k) {
      assert ExtendedAt(agg.combine, agg.initial, before, tuples, KeysOf(moved), StatesOf(moved), k);
      ExtendByTable(agg, Find(before, k), moved, k);
      FindPartition(source, hashOf, columns, |source|, r, mask, shift, k);
    }
  }

  // ---------- several tables ----------

  /** The state of a key over a list of tables. */
  function MergeAll<P, S>(agg: AggregateFunction<P, S>, tables: seq<seq<Tuple<S>>>, k: Key): Option<S> {
    if tables == [] then None
    else Merge(agg, MergeAll(agg, tables[..|tables| - 1], k), Find(tables[|tables| - 1], k))
  }

  lemma MergeAllNext<P, S>(agg: AggregateFunction<P, S>, tables: seq<seq<Tuple<S>>>, t: seq<Tuple<S>>, k: Key)
    ensures MergeAll(agg, tables + [t], k) == Merge(agg, MergeAll(agg, tables, k), Find(t, k))
  {
    assert (tables + [t])[..|tables|] == tables;
  }

  /** Merging something into one table of a list merges it into the whole. */
  lemma {:induction false} MergeAllUpdate<P(!new), S(!new)>(
    agg: AggregateFunction<P, S>, tables: seq<seq<Tuple<S>>>, i: nat, t: seq<Tuple<S>>, extra: Option<S>, k: Key)
    requires Lawful(agg) && i < |tables| && Find(t, k) == Merge(agg, Find(tables[i], k), extra)
    ensures MergeAll(agg, tables[i := t], k) == Merge(agg, MergeAll(agg, tables, k), extra)
  {
    var n := |tables| - 1;
    var front, last := MergeAll(agg, tables[..n], k), Find(tables[n], k);
    MergeLaws(agg, front, last, extra);
    if i == n {
      assert tables[i := t][..n] == tables[..n];
    } else {
      MergeAllUpdate(agg, tables[..n], i, t, extra, k);
      assert tables[i := t][..n] == tables[..n][i := t];
      MergeLaws(agg, front, extra, last);
      MergeLaws(agg, extra, last, front);
    }
  }

  // ---------- the rows of one partition ----------

  /** The positions, among the first `n`, of the rows of one partition. */
  ghost function PartitionRows(hashes: seq<nat>, n: nat, r: nat, mask: nat, shift: nat): (sel: seq<nat>)
    requires n <= |hashes|
    ensures Within(sel, n) && |sel| <= n
  {
    if n == 0 then []
    else
      PartitionRows(hashes, n - 1, r, mask, shift) +
      (if RadixOf(hashes[n - 1], mask, shift) == r then [n - 1] else [])
  }

  /** The selected entries of a vector. */
  function Slice<T>(xs: seq<T>, sel: seq<nat>): (r: seq<T>)
    requires Within(sel, |xs|)
    ensures |r| == |sel|
  {
    seq(|sel|, i requires 0 <= i < |sel| => xs[sel[i]])
  }

  /** The rows of a partition aggregate to the states of the keys of that partition, and to nothing else. */
  lemma {:induction false} PartitionState<P, S>(
    agg: AggregateFunction<P, S>, hashOf: Key -> nat, keys: seq<Key>, hashes: seq<nat>, payload: seq<P>, n: nat, r: nat,
    mask: nat, shift: nat, k: Key)
    requires n <= |keys| == |hashes| == |payload| && forall x | 0 <= x < |keys| :: hashes[x] == hashOf(keys[x])
    ensures var sel := PartitionRows(hashes, n, r, mask, shift);
      GroupState(agg, Slice(keys, sel), Slice(payload, sel), k) ==
      if RadixOf(hashOf(k), mask, shift) == r then GroupState(agg, keys[..n], payload[..n], k) else None
  {
    if n > 0 {
      PartitionState(agg, hashOf, keys, hashes, payload, n - 1, r, mask, shift, k);
      var before, sel := PartitionRows(hashes, n - 1, r, mask, shift), PartitionRows(hashes, n, r, mask, shift);
      assert keys[..n][..n - 1] == keys[..n - 1] && payload[..n][..n - 1] == payload[..n - 1];
      if RadixOf(hashes[n - 1], mask, shift) == r {
        SliceNext(keys, before, n - 1);
        SliceNext(payload, before, n - 1);
        assert Slice(keys, sel)[..|before|] == Slice(keys, before);
        assert Slice(payload, sel)[..|before|] == Slice(payload, before);
      } else {
        assert sel == before;
      }
    }
  }

  lemma SliceNext<T>(xs: seq<T>, sel: seq<nat>, x: nat)
    requires Within(sel, |xs|) && x < |xs|
    ensures Slice(xs, sel + [x]) == Slice(xs, sel) + [xs[x]]
  {
  }
}
