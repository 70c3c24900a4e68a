/**
 * Whether tables can be redistributed by partition. All groups of a partition are sent to one table, a full vector of
 * them at a time, and a vector is refused if the table could run out of capacity were all its groups new
 * (src/execution/aggregate_hashtable.cpp:760-874, src/execution/partitionable_hashtable.cpp:112-129).
 */
module PartitionCapacity {
  import opened Common
  import opened GroupAggregates
  import opened GroupProbing

  ghost function KeySet<S>(tuples: seq<Tuple<S>>): (keys: set<Key>)
    ensures |keys| <= |tuples|
  {
    if tuples == [] then {} else KeySet(tuples[..|tuples| - 1]) + {tuples[|tuples| - 1].key}
  }

  lemma {:induction false} InKeySet<S>(tuples: seq<Tuple<S>>, k: Key)
    ensures k in KeySet(tuples) <==> Find(tuples, k).Some?
    ensures k in KeySet(tuples) <==> k in KeysOf(tuples)
  {
    if tuples != [] {
      var front := tuples[..|tuples| - 1];
      InKeySet(front, k);
      assert KeysOf(tuples) == KeysOf(front) + [tuples[|tuples| - 1].key];
    }
  }

  lemma {:induction false} DistinctKeySet<S>(tuples: seq<Tuple<S>>)
    requires Distinct(tuples)
    ensures |KeySet(tuples)| == |tuples|
  {
    if tuples != [] {
      var front, k := tuples[..|tuples| - 1], tuples[|tuples| - 1].key;
      DistinctKeySet(front);
      InKeySet(front, k);
      assert k !in KeysOf(front);
    }
  }

  lemma {:induction false} SubsetSize(a: set<Key>, b: set<Key>)
    requires a <= b
    ensures |a| <= |b|
    decreases |a|
  {
    if a != {} {
      var x :| x in a;
      SubsetSize(a - {x}, b - {x});
    }
  }

  lemma UnionSize(a: set<Key>, b: set<Key>)
    ensures |a + b| <= |a| + |b|
  {
    assert a + b == a + (b - a);
    SubsetSize(b - a, b);
  }

  lemma {:induction false} ExtendSome<X, S>(op: (S, X) -> S, initial: S, before: Option<S>, keys: seq<Key>, xs: seq<X>,
                                            k: Key)
    requires |keys| == |xs|
    ensures Extend(op, initial, before, keys, xs, k).Some? <==> before.Some? || k in keys
  {
    if keys != [] {
      var n := |keys| - 1;
      ExtendSome(op, initial, before, keys[..n], xs[..n], k);
      assert keys == keys[..n] + [keys[n]];
    }
  }

  /** A table that received some tuples holds its own keys and theirs. */
  lemma ReceivedKeys<P, S>(agg: AggregateFunction<P, S>, before: seq<Tuple<S>>, tuples: seq<Tuple<S>>,
                           moved: seq<Tuple<S>>)
    requires Received(agg, before, tuples, moved)
    ensures KeySet(tuples) == KeySet(before) + KeySet(moved)
  {
    forall k ensures k in KeySet(tuples) <==> k in KeySet(before) || k in KeySet(moved) {
      InKeySet(tuples, k);
      InKeySet(before, k);
      InKeySet(moved, k);
      assert ExtendedAt(agg.combine, agg.initial, before, tuples, KeysOf(moved), StatesOf(moved), k);
      ExtendSome(agg.combine, agg.initial, Find(before, k), KeysOf(moved), StatesOf(moved), k);
    }
  }

  /** The keys a table holds, after those of `keys` and of the first tuples sent to it. */
  ghost function SentKeys<S>(keys: set<Key>, source: seq<Tuple<S>>, sent: seq<nat>): set<Key>
    requires Within(sent, |source|)
  {
    keys + KeySet(Gather(source, sent))
  }

  /** The vector that is sent after the first `m` of some tuples is accepted. */
  ghost predicate FlushFits<S>(keys: set<Key>, source: seq<Tuple<S>>, ptrs: seq<nat>, m: nat, capacity: nat)
    requires Within(ptrs, |source|) && m <= |ptrs|
  {
    |SentKeys(keys, source, ptrs[..m])| + Min(STANDARD_VECTOR_SIZE, |ptrs| - m) <= capacity
  }

  /** Every vector sent so far was accepted. */
  ghost predicate Flushed<S>(keys: set<Key>, source: seq<Tuple<S>>, sent: seq<nat>, capacity: nat)
    requires Within(sent, |source|)
  {
    forall m: nat | m < |sent| && m % STANDARD_VECTOR_SIZE == 0 :: FlushFits(keys, source, sent, m, capacity)
  }

  /** All vectors, and then the table itself, fit. */
  ghost predicate FlushesFit<S>(keys: set<Key>, source: seq<Tuple<S>>, ptrs: seq<nat>, capacity: nat)
    requires Within(ptrs, |source|)
  {
    Flushed(keys, source, ptrs, capacity) && |SentKeys(keys, source, ptrs)| <= capacity
  }

  /** All tuples of a table, in order. */
  ghost function AllPtrs(n: nat): (ptrs: seq<nat>)
    ensures |ptrs| == n && Within(ptrs, n)
  {
    seq(n, i => i)
  }

  /** One more vector is accepted; only the last may be shorter. */
  lemma FlushedMore<S>(keys: set<Key>, source: seq<Tuple<S>>, sent: seq<nat>, batch: seq<nat>, capacity: nat)
    requires Within(sent, |source|) && Within(batch, |source|) && |batch| <= STANDARD_VECTOR_SIZE
    requires |sent| % STANDARD_VECTOR_SIZE == 0 && Flushed(keys, source, sent, capacity)
    requires |SentKeys(keys, source, sent)| + |batch| <= capacity
    ensures Within(sent + batch, |source|) && Flushed(keys, source, sent + batch, capacity)
  {
    hide SentKeys;
    var all := sent + batch;
    forall m: nat | m < |all| && m % STANDARD_VECTOR_SIZE == 0 ensures FlushFits(keys, source, all, m, capacity) {
      if m < |sent| {
        assert FlushFits(keys, source, sent, m, capacity);
        assert all[..m] == sent[..m];
      } else {
        assert m == |sent| && all[..m] == sent;
      }
    }
  }

  /** A vector that is refused, for a table that is sent some tuples in all. */
  lemma FlushRefused<S>(keys: set<Key>, source: seq<Tuple<S>>, ptrs: seq<nat>, m: nat, count: nat, capacity: nat)
    requires Within(ptrs, |source|) && m % STANDARD_VECTOR_SIZE == 0
    requires m + count <= |ptrs| && count <= STANDARD_VECTOR_SIZE
    requires Within(ptrs[..m], |source|) && |SentKeys(keys, source, ptrs[..m])| + count > capacity
    ensures !FlushesFit(keys, source, ptrs, capacity)
  {
    hide SentKeys;
    if m < |ptrs| {
      assert !FlushFits(keys, source, ptrs, m, capacity);
    } else {
      assert ptrs[..m] == ptrs;
    }
  }

  /** Fewer tuples than the table has room for are accepted. */
  lemma FewFit<S>(keys: set<Key>, source: seq<Tuple<S>>, ptrs: seq<nat>, capacity: nat)
    requires Within(ptrs, |source|) && |keys| + |ptrs| <= capacity
    ensures FlushesFit(keys, source, ptrs, capacity)
  {
    forall m: nat | m <= |ptrs| ensures |SentKeys(keys, source, ptrs[..m])| + (|ptrs| - m) <= capacity {
      UnionSize(keys, KeySet(Gather(source, ptrs[..m])));
    }
    assert ptrs[..|ptrs|] == ptrs;
  }

  /** How many tuples of a partition a list of tables holds. */
  ghost function RadixCount<S>(contents: seq<seq<Tuple<S>>>, r: nat, mask: nat, shift: nat): nat {
    if contents == [] then 0
    else
      var last := |contents| - 1;
      RadixCount(contents[..last], r, mask, shift) + PartitionCount(contents[last], r, mask, shift)
  }

  lemma {:induction false} RadixCountGrows<S>(contents: seq<seq<Tuple<S>>>, j: nat, r: nat, mask: nat, shift: nat)
    requires j < |contents|
    ensures RadixCount(contents[..j], r, mask, shift) + PartitionCount(contents[j], r, mask, shift) ==
            RadixCount(contents[..j + 1], r, mask, shift) <= RadixCount(contents, r, mask, shift)
    decreases |contents|
  {
    assert contents[..j + 1][..j] == contents[..j];
    var rest := contents[..|contents| - 1];
    if j < |rest| {
      RadixCountGrows(rest, j, r, mask, shift);
      assert rest[..j] == contents[..j] && rest[..j + 1] == contents[..j + 1];
    } else {
      assert contents[..j + 1] == contents;
    }
  }

  /** The keys of a partition in a table. */
  ghost function KeysIn<S>(tuples: seq<Tuple<S>>, r: nat, mask: nat, shift: nat): set<Key> {
    KeySet(Gather(tuples, PartitionPtrs(tuples, |tuples|, r, mask, shift)))
  }

  /** The keys of a partition in a list of tables. */
  ghost function GroupKeys<S>(contents: seq<seq<Tuple<S>>>, r: nat, mask: nat, shift: nat): set<Key> {
    if contents == [] then {}
    else
      GroupKeys(contents[..|contents| - 1], r, mask, shift) + KeysIn(contents[|contents| - 1], r, mask, shift)
  }

  lemma GroupKeysNext<S>(contents: seq<seq<Tuple<S>>>, t: seq<Tuple<S>>, r: nat, mask: nat, shift: nat)
    ensures GroupKeys(contents + [t], r, mask, shift) ==
            GroupKeys(contents, r, mask, shift) + KeysIn(t, r, mask, shift)
  {
    assert (contents + [t])[..|contents|] == contents;
  }

  /** Which keys these are: those found in the table whose hash has the radix. */
  lemma InPartitionKeys<S>(tuples: seq<Tuple<S>>, hashOf: Key -> nat, columns: nat, r: nat, mask: nat, shift: nat,
                           k: Key)
    requires Keyed(tuples, hashOf, columns)
    ensures k in KeysIn(tuples, r, mask, shift) <==> RadixOf(hashOf(k), mask, shift) == r && Find(tuples, k).Some?
  {
    InKeySet(Gather(tuples, PartitionPtrs(tuples, |tuples|, r, mask, shift)), k);
    FindPartition(tuples, hashOf, columns, |tuples|, r, mask, shift, k);
    assert tuples[..|tuples|] == tuples;
  }

  lemma {:induction false} InGroupKeys<S>(contents: seq<seq<Tuple<S>>>, j: nat, r: nat, mask: nat, shift: nat, k: Key)
    requires j < |contents| && k in KeysIn(contents[j], r, mask, shift)
    ensures k in GroupKeys(contents, r, mask, shift)
  {
    if j < |contents| - 1 {
      InGroupKeys(contents[..|contents| - 1], j, r, mask, shift, k);
    }
  }

  lemma KeyOccurs<S>(tuples: seq<Tuple<S>>, r: nat, mask: nat, shift: nat, k: Key) returns (i: nat)
    requires k in KeysIn(tuples, r, mask, shift)
    ensures i < |tuples| && tuples[i].key == k
  {
    var ptrs := PartitionPtrs(tuples, |tuples|, r, mask, shift);
    InKeySet(Gather(tuples, ptrs), k);
    var x := FindSome(Gather(tuples, ptrs), k);
    i := ptrs[x];
  }

  lemma {:induction false} GroupOccurs<S>(contents: seq<seq<Tuple<S>>>, r: nat, mask: nat, shift: nat, k: Key)
    returns (j: nat, i: nat)
    requires k in GroupKeys(contents, r, mask, shift)
    ensures j < |contents| && i < |contents[j]| && contents[j][i].key == k
  {
    j := |contents| - 1;
    if k in KeysIn(contents[j], r, mask, shift) {
      i := KeyOccurs(contents[j], r, mask, shift, k);
    } else {
      j, i := GroupOccurs(contents[..j], r, mask, shift, k);
    }
  }

  ghost predicate KeysApart<S>(t: seq<Tuple<S>>, t': seq<Tuple<S>>) {
    forall i, j | 0 <= i < |t| && 0 <= j < |t'| :: t[i].key != t'[j].key
  }

  /** No key occurs twice in a list of tables. */
  ghost predicate DistinctKeys<S>(contents: seq<seq<Tuple<S>>>) {
    && (forall j | 0 <= j < |contents| :: Distinct(contents[j]))
    && (forall j, l | 0 <= j < l < |contents| :: KeysApart(contents[j], contents[l]))
  }

  /** A partition has at most as many keys as tuples; without repeated keys, as many. */
  lemma {:induction false} GroupsCount<S>(contents: seq<seq<Tuple<S>>>, r: nat, mask: nat, shift: nat)
    ensures |GroupKeys(contents, r, mask, shift)| <= RadixCount(contents, r, mask, shift)
    ensures DistinctKeys(contents) ==> |GroupKeys(contents, r, mask, shift)| == RadixCount(contents, r, mask, shift)
  {
    if contents != [] {
      var front, last := contents[..|contents| - 1], contents[|contents| - 1];
      GroupsCount(front, r, mask, shift);
      UnionSize(GroupKeys(front, r, mask, shift), KeysIn(last, r, mask, shift));
      if DistinctKeys(contents) {
        PartitionPtrsDistinct(last, |last|, r, mask, shift);
        DistinctKeySet(Gather(last, PartitionPtrs(last, |last|, r, mask, shift)));
        LastApart(contents, r, mask, shift);
      }
    }
  }

  lemma LastApart<S>(contents: seq<seq<Tuple<S>>>, r: nat, mask: nat, shift: nat)
    requires contents != [] && DistinctKeys(contents)
    ensures var front, last := contents[..|contents| - 1], contents[|contents| - 1];
            |GroupKeys(front, r, mask, shift) + KeysIn(last, r, mask, shift)| ==
            |GroupKeys(front, r, mask, shift)| + |KeysIn(last, r, mask, shift)|
  {
    var front, last := contents[..|contents| - 1], contents[|contents| - 1];
    var a, b := GroupKeys(front, r, mask, shift), KeysIn(last, r, mask, shift);
    forall k | k in a ensures k !in b {
      var j, i := GroupOccurs(front, r, mask, shift, k);
      assert KeysApart(contents[j], contents[|contents| - 1]);
      if k in b {
        var l := KeyOccurs(last, r, mask, shift, k);
      }
    }
    assert a !! b;
  }

  /** No partition has more tuples than a table can hold. */
  ghost predicate PartitionsFit<S>(contents: seq<seq<Tuple<S>>>, n: nat, mask: nat, shift: nat, capacity: nat) {
    forall r: nat | r < n :: RadixCount(contents, r, mask, shift) <= capacity
  }

  /** No partition has more keys than a table can hold. */
  ghost predicate GroupsFit<S>(contents: seq<seq<Tuple<S>>>, n: nat, mask: nat, shift: nat, capacity: nat) {
    forall r: nat | r < n :: |GroupKeys(contents, r, mask, shift)| <= capacity
  }

  /** What table `j` sends to partition `r` is accepted, when the tables before it have been redistributed. */
  ghost predicate SourceFits<S>(contents: seq<seq<Tuple<S>>>, j: nat, r: nat, mask: nat, shift: nat, capacity: nat)
    requires j < |contents|
  {
    FlushesFit(GroupKeys(contents[..j], r, mask, shift), contents[j],
               PartitionPtrs(contents[j], |contents[j]|, r, mask, shift), capacity)
  }

  /** Everything a redistribution sends is accepted. */
  ghost predicate AllFlushesFit<S>(contents: seq<seq<Tuple<S>>>, n: nat, mask: nat, shift: nat, capacity: nat) {
    forall j: nat, r: nat | j < |contents| && r < n :: SourceFits(contents, j, r, mask, shift, capacity)
  }

  /** It is if no partition has too many tuples. */
  lemma FitsIfFew<S>(contents: seq<seq<Tuple<S>>>, n: nat, mask: nat, shift: nat, capacity: nat)
    requires PartitionsFit(contents, n, mask, shift, capacity)
    ensures AllFlushesFit(contents, n, mask, shift, capacity)
  {
    forall j: nat, r: nat | j < |contents| && r < n ensures SourceFits(contents, j, r, mask, shift, capacity) {
      RadixCountGrows(contents, j, r, mask, shift);
      GroupsCount(contents[..j], r, mask, shift);
      assert RadixCount(contents, r, mask, shift) <= capacity;
      FewFit(GroupKeys(contents[..j], r, mask, shift), contents[j],
             PartitionPtrs(contents[j], |contents[j]|, r, mask, shift), capacity);
    }
  }

  /** It is not if one has too many keys. */
  lemma FitsOnlyIfFewKeys<S>(contents: seq<seq<Tuple<S>>>, n: nat, mask: nat, shift: nat, capacity: nat)
    requires AllFlushesFit(contents, n, mask, shift, capacity)
    ensures GroupsFit(contents, n, mask, shift, capacity)
  {
    forall r: nat | r < n ensures |GroupKeys(contents, r, mask, shift)| <= capacity {
      if contents != [] {
        assert SourceFits(contents, |contents| - 1, r, mask, shift, capacity);
      }
    }
  }

  /** Where no key is in two tables, exactly if no partition has too many tuples. */
  lemma FitsIff<S>(contents: seq<seq<Tuple<S>>>, n: nat, mask: nat, shift: nat, capacity: nat)
    requires DistinctKeys(contents)
    ensures AllFlushesFit(contents, n, mask, shift, capacity) <==> PartitionsFit(contents, n, mask, shift, capacity)
  {
    if AllFlushesFit(contents, n, mask, shift, capacity) {
      FitsOnlyIfFewKeys(contents, n, mask, shift, capacity);
      forall r: nat | r < n ensures RadixCount(contents, r, mask, shift) <= capacity {
        GroupsCount(contents, r, mask, shift);
      }
    }
    if PartitionsFit(contents, n, mask, shift, capacity) {
      FitsIfFew(contents, n, mask, shift, capacity);
    }
  }
}
