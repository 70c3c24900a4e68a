/**
 * Radix partitioning of grouped aggregates (src/execution/partitionable_hashtable.cpp).
 *
 * Rows go into a list of aggregate hash tables. On request the groups are redistributed into one list per radix
 * partition of their hash, and later rows are split the same way. The module proves that no aggregate is lost or
 * counted twice on the way: merging the tables always gives the group-by of the rows added.
 */
module PartitionableHashTable {
  import opened Common
  import opened GroupProbing
  import opened GroupAggregates
  import opened PartitionCapacity
  import opened AggregateHashTable
  import Bits

  // The fifth byte of the hash is the radix source
  const RADIX_SHIFT: nat := 40

  // ---------- the radix of a hash ----------

  lemma {:induction false} MaskAboveShift(h: nat, m: nat, s: nat)
    ensures Bits.ShiftRight(Bits.And(h, Bits.ShiftLeft(m, s)), s) == Bits.And(Bits.ShiftRight(h, s), m)
  {
    if s > 0 {
      AndEven(h, Bits.ShiftLeft(m, s - 1));
      MaskAboveShift(h / 2, m, s - 1);
    }
  }

  lemma AndEven(h: nat, half: nat)
    ensures Bits.And(h, 2 * half) / 2 == Bits.And(h / 2, half)
  {
  }

  /** The masked and shifted bits are those above the shift, modulo the number of partitions. */
  lemma RadixIsRemainder(h: nat, bits: nat, s: nat)
    ensures RadixOf(h, Bits.ShiftLeft(Bits.Pow2(bits) - 1, s), s) == Bits.ShiftRight(h, s) % Bits.Pow2(bits)
    ensures RadixOf(h, Bits.ShiftLeft(Bits.Pow2(bits) - 1, s), s) < Bits.Pow2(bits)
  {
    MaskAboveShift(h, Bits.Pow2(bits) - 1, s);
    Bits.MaskIsRemainder(Bits.ShiftRight(h, s), bits);
  }

  lemma BelowEightBits(b: nat)
    ensures b < 8 <==> Bits.Pow2(b) < 256
  {
    assert Bits.Pow2(8) == 256;
    if b < 8 {
      Bits.Pow2Monotone(b, 8);
    } else {
      Bits.Pow2Monotone(8, b);
    }
  }

  /** How many partitions there are, and which bits of a hash select one. */
  class RadixPartitionInfo {
    const nPartitions: nat
    const radixBits: nat
    const radixMask: nat

    ghost predicate Valid() {
      && nPartitions == Bits.Pow2(radixBits) && radixBits <= 8
      && radixMask == Bits.ShiftLeft(Bits.Pow2(radixBits) - 1, RADIX_SHIFT)
    }

    /** The largest power of two that is at most the bound and at most 256. */
    constructor (upperBound: nat)
      ensures Valid()
      ensures 1 <= upperBound ==> nPartitions <= upperBound
      ensures nPartitions == 256 || upperBound < 2 * nPartitions
    {
      var n := 1;
      ghost var b: nat := 0;
      while n <= upperBound / 2
        invariant n == Bits.Pow2(b) < 256 && (1 <= upperBound ==> n <= upperBound)
        decreases upperBound - n
      {
        BelowEightBits(b);
        n, b := n * 2, b + 1;
        if n >= 256 {
          break;
        }
      }
      BelowEightBits(b);
      var bits := CountBits(n, b);
      var mask := OnesMask(bits);
      nPartitions, radixBits, radixMask := n, bits, Bits.ShiftLeft(mask, RADIX_SHIFT);
    }

    lemma EveryHashHasAPartition()
      requires Valid()
      ensures RadixTotal(radixMask, nPartitions)
    {
      forall h: nat ensures RadixOf(h, radixMask, RADIX_SHIFT) < nPartitions {
        RadixIsRemainder(h, radixBits, RADIX_SHIFT);
      }
    }

    static method CountBits(n: nat, ghost b: nat) returns (bits: nat)
      requires n == Bits.Pow2(b)
      ensures bits == b
    {
      bits := 0;
      var copy := n;
      while copy - 1 != 0
        invariant bits <= b && copy == Bits.Pow2(b - bits)
        decreases b - bits
      {
        bits, copy := bits + 1, copy / 2;
      }
    }

    static method OnesMask(bits: nat) returns (mask: nat)
      ensures mask == Bits.Pow2(bits) - 1
    {
      mask := 0;
      for i := 0 to bits
        invariant mask == Bits.Pow2(i) - 1
      {
        OrOne(mask);
        mask := Bits.Or(mask * 2, 1);
      }
    }

    static lemma OrOne(m: nat)
      ensures Bits.Or(m * 2, 1) == m * 2 + 1
    {
    }
  }

  type Table<P(!new), S(!new)> = GroupedAggregateHashTable<P, S>

  /** What every table of one aggregation has in common. */
  datatype Setup<!P(!new), !S(!new)> = Setup(
    agg: AggregateFunction<P, S>, hashOf: Key -> nat, columns: nat, prefixShift: nat, tuplesPerBlock: nat,
    maxPages: nat)

  ghost predicate TableOk<P(!new), S(!new)>(setup: Setup<P, S>, t: Table<P, S>)
    reads t
  {
    && t.Valid() && t.agg == setup.agg && t.hashOf == setup.hashOf && t.columns == setup.columns
    && t.MaxCapacity() == MaxGroups(setup)
  }

  /** How many groups one table can hold. */
  function MaxGroups<P(!new), S(!new)>(setup: Setup<P, S>): nat {
    Capacity(setup.maxPages, setup.tuplesPerBlock)
  }

  /** A list of separate tables of one aggregation. */
  ghost predicate ListOk<P(!new), S(!new)>(setup: Setup<P, S>, list: seq<Table<P, S>>)
    reads list
  {
    && (forall i | 0 <= i < |list| :: TableOk(setup, list[i]))
    && (forall i, j | 0 <= i < j < |list| :: list[i] != list[j])
  }

  ghost function Contents<P(!new), S(!new)>(list: seq<Table<P, S>>): (contents: seq<seq<Tuple<S>>>)
    reads list
    ensures |contents| == |list|
  {
    seq(|list|, i requires 0 <= i < |list| reads list => list[i].tuples)
  }

  ghost predicate GainedAt<P, S>(agg: AggregateFunction<P, S>, before: seq<seq<Tuple<S>>>, after: seq<seq<Tuple<S>>>,
                                 keys: seq<Key>, payload: seq<P>, k: Key)
    requires |keys| == |payload|
  {
    MergeAll(agg, after, k) == Merge(agg, MergeAll(agg, before, k), GroupState(agg, keys, payload, k))
  }

  /** A list of tables has gained the aggregates of the given rows. */
  ghost predicate Gained<P, S>(agg: AggregateFunction<P, S>, before: seq<seq<Tuple<S>>>, after: seq<seq<Tuple<S>>>,
                               keys: seq<Key>, payload: seq<P>)
    requires |keys| == |payload|
  {
    forall k :: GainedAt(agg, before, after, keys, payload, k)
  }

  lemma LastTableGains<P(!new), S(!new)>(agg: AggregateFunction<P, S>, before: seq<seq<Tuple<S>>>, t: seq<Tuple<S>>,
                                         keys: seq<Key>, payload: seq<P>)
    requires Lawful(agg) && |keys| == |payload| && before != []
    requires Extended(agg.update, agg.initial, before[|before| - 1], t, keys, payload)
    ensures Gained(agg, before, before[|before| - 1 := t], keys, payload)
  {
    var after := before[|before| - 1 := t];
    forall k ensures GainedAt(agg, before, after, keys, payload, k) {
      assert ExtendedAt(agg.update, agg.initial, before[|before| - 1], t, keys, payload, k);
      ExtendIsMerge(agg, Find(before[|before| - 1], k), keys, payload, k);
      MergeAllUpdate(agg, before, |before| - 1, t, GroupState(agg, keys, payload, k), k);
    }
  }

  lemma EmptyTableAdds<P(!new), S(!new)>(agg: AggregateFunction<P, S>, before: seq<seq<Tuple<S>>>, k: Key)
    ensures MergeAll(agg, before + [[]], k) == MergeAll(agg, before, k)
  {
    MergeAllNext(agg, before, [], k);
  }

  ghost predicate ChunkOk<P(!new), S(!new)>(setup: Setup<P, S>, keys: seq<Key>, hashes: seq<nat>, payload: seq<P>) {
    && |keys| == |hashes| == |payload| <= STANDARD_VECTOR_SIZE
    && forall x | 0 <= x < |keys| :: |keys[x]| == setup.columns && hashes[x] == setup.hashOf(keys[x])
  }

  /** Appends an empty table to a list. */
  method PushTable<P(!new), S(!new)>(setup: Setup<P, S>, list: seq<Table<P, S>>) returns (list': seq<Table<P, S>>)
    requires ListOk(setup, list) && 0 < setup.tuplesPerBlock
    ensures ListOk(setup, list') && |list'| == |list| + 1 && list'[..|list|] == list && fresh(list'[|list|])
    ensures Contents(list') == Contents(list) + [[]]
  {
    var t := new GroupedAggregateHashTable(setup.agg, setup.hashOf, setup.columns, setup.prefixShift,
                                           setup.tuplesPerBlock, setup.maxPages);
    list' := list + [t];
    assert TableOk(setup, t);
    forall i | 0 <= i < |list| ensures TableOk(setup, list'[i]) {
      assert TableOk(setup, list[i]);
    }
  }

  /** Appends an empty table to a list whose last table may not have room for `count` more groups. */
  method PushIfFull<P(!new), S(!new)>(setup: Setup<P, S>, list: seq<Table<P, S>>, count: nat)
    returns (list': seq<Table<P, S>>)
    requires ListOk(setup, list) && 0 < setup.tuplesPerBlock
    ensures ListOk(setup, list') && list' != [] && list <= list' && forall t | t in list' :: t in list || fresh(t)
    ensures Contents(list') == Contents(list) || Contents(list') == Contents(list) + [[]]
    ensures |list'[|list'| - 1].tuples| + count <= MaxGroups(setup) <==> count <= MaxGroups(setup)
  {
    list' := list;
    if list == [] || list[|list| - 1].entries + count > list[|list| - 1].MaxCapacity() {
      list' := PushTable(setup, list);
      assert Contents(list')[|list|] == list'[|list|].tuples;
    }
    assert TableOk(setup, list'[|list'| - 1]);
  }

  /** Adds a chunk to the last table of a list, or to a new one when the last cannot take it. */
  method ListAddChunk<P(!new), S(!new)>(setup: Setup<P, S>, list: seq<Table<P, S>>, keys: seq<Key>, hashes: seq<nat>,
                                        payload: seq<P>)
    returns (ok: bool, list': seq<Table<P, S>>)
    requires ListOk(setup, list) && 0 < setup.tuplesPerBlock && Lawful(setup.agg)
    requires ChunkOk(setup, keys, hashes, payload)
    modifies list
    ensures ListOk(setup, list') && list <= list' && forall t | t in list' :: t in list || fresh(t)
    ensures ok ==> Gained(setup.agg, old(Contents(list)), Contents(list'), keys, payload)
    ensures ok <==> |keys| <= MaxGroups(setup)
  {
    list' := PushIfFull(setup, list, |keys|);
    assert list'[|list'| - 1] in list';
    ok := LastAddChunk(setup, list', keys, hashes, payload);
    if ok {
      GainedAfterPush(setup.agg, old(Contents(list)), old(Contents(list)) + [[]], Contents(list'), keys, payload);
    }
  }

  lemma GainedAfterPush<P(!new), S(!new)>(agg: AggregateFunction<P, S>, before: seq<seq<Tuple<S>>>,
                                          pushed: seq<seq<Tuple<S>>>, after: seq<seq<Tuple<S>>>, keys: seq<Key>,
                                          payload: seq<P>)
    requires |keys| == |payload| && pushed == before + [[]]
    requires Gained(agg, pushed, after, keys, payload) || Gained(agg, before, after, keys, payload)
    ensures Gained(agg, before, after, keys, payload)
  {
    if Gained(agg, pushed, after, keys, payload) {
      forall k ensures GainedAt(agg, before, after, keys, payload, k) {
        assert GainedAt(agg, pushed, after, keys, payload, k);
        EmptyTableAdds(agg, before, k);
      }
    }
  }

  method TableAddChunk<P(!new), S(!new)>(setup: Setup<P, S>, t: Table<P, S>, keys: seq<Key>, hashes: seq<nat>,
                                         payload: seq<P>)
    returns (ok: bool)
    requires TableOk(setup, t) && ChunkOk(setup, keys, hashes, payload)
    modifies t
    ensures TableOk(setup, t)
    ensures ok ==> Extended(setup.agg.update, setup.agg.initial, old(t.tuples), t.tuples, keys, payload)
    ensures ok <==> |keys| == 0 || old(|t.tuples|) + |keys| <= MaxGroups(setup)
  {
    var newGroupCount;
    ok, newGroupCount := t.AddChunk(keys, hashes, payload);
  }

  method LastAddChunk<P(!new), S(!new)>(setup: Setup<P, S>, list: seq<Table<P, S>>, keys: seq<Key>, hashes: seq<nat>,
                                        payload: seq<P>)
    returns (ok: bool)
    requires ListOk(setup, list) && list != [] && Lawful(setup.agg) && ChunkOk(setup, keys, hashes, payload)
    modifies list[|list| - 1]
    ensures ListOk(setup, list)
    ensures ok ==> Gained(setup.agg, old(Contents(list)), Contents(list), keys, payload)
    ensures ok <==> |keys| == 0 || old(|list[|list| - 1].tuples|) + |keys| <= MaxGroups(setup)
  {
    ghost var before := Contents(list);
    var last := list[|list| - 1];
    assert TableOk(setup, last);
    ok := TableAddChunk(setup, last, keys, hashes, payload);
    forall i | 0 <= i < |list| ensures TableOk(setup, list[i]) {
    }
    assert Contents(list) == before[|list| - 1 := last.tuples];
    if ok {
      LastTableGains(setup.agg, before, last.tuples, keys, payload);
    }
  }

  ghost function Tables<P(!new), S(!new)>(lists: seq<seq<Table<P, S>>>): set<Table<P, S>> {
    set r, i | 0 <= r < |lists| && 0 <= i < |lists[r]| :: lists[r][i]
  }

  /** Lists of tables that share no table. */
  ghost predicate ListsOk<P(!new), S(!new)>(setup: Setup<P, S>, lists: seq<seq<Table<P, S>>>)
    reads Tables(lists)
  {
    && (forall r | 0 <= r < |lists| :: ListOk(setup, lists[r]))
    && (forall q, r | 0 <= q < r < |lists| :: Apart(lists[q], lists[r]))
  }

  ghost predicate Apart<P(!new), S(!new)>(a: seq<Table<P, S>>, b: seq<Table<P, S>>) {
    forall i, j | 0 <= i < |a| && 0 <= j < |b| :: a[i] != b[j]
  }

  /** Adds the rows of one partition to its list; the other lists are left alone. */
  method PartitionAddChunk<P(!new), S(!new)>(setup: Setup<P, S>, lists: seq<seq<Table<P, S>>>, r: nat,
                                             keys: seq<Key>, hashes: seq<nat>, payload: seq<P>)
    returns (ok: bool, lists': seq<seq<Table<P, S>>>)
    requires ListsOk(setup, lists) && r < |lists| && 0 < setup.tuplesPerBlock && Lawful(setup.agg)
    requires ChunkOk(setup, keys, hashes, payload)
    modifies lists[r]
    ensures ListsOk(setup, lists') && |lists'| == |lists|
    ensures forall q | 0 <= q < |lists| && q != r ::
      lists'[q] == lists[q] && Contents(lists'[q]) == old(Contents(lists[q]))
    ensures forall t | t in lists'[r] :: t in lists[r] || fresh(t)
    ensures ok ==> Gained(setup.agg, old(Contents(lists[r])), Contents(lists'[r]), keys, payload)
    ensures ok <==> |keys| <= MaxGroups(setup)
  {
    assert ListOk(setup, lists[r]);
    var list;
    ok, list := ListAddChunk(setup, lists[r], keys, hashes, payload);
    lists' := lists[r := list];
    forall q | 0 <= q < |lists| && q != r
      ensures ListOk(setup, lists[q]) && Contents(lists[q]) == old(Contents(lists[q]))
      ensures Apart(lists[q], list) && Apart(list, lists[q])
    {
      assert old(ListOk(setup, lists[q]));
      assert if q < r then Apart(lists[q], lists[r]) else Apart(lists[r], lists[q]);
      assert forall i | 0 <= i < |lists[q]| :: lists[q][i] !in lists[r];
    }
  }

  /** One selection vector per partition. */
  method SplitRows(hashes: seq<nat>, n: nat, mask: nat) returns (sels: seq<seq<nat>>)
    requires forall x | 0 <= x < |hashes| :: RadixOf(hashes[x], mask, RADIX_SHIFT) < n
    ensures |sels| == n && forall r | 0 <= r < n :: sels[r] == PartitionRows(hashes, |hashes|, r, mask, RADIX_SHIFT)
  {
    sels := seq(n, _ => []);
    for i := 0 to |hashes|
      invariant |sels| == n && forall r | 0 <= r < n :: sels[r] == PartitionRows(hashes, i, r, mask, RADIX_SHIFT)
    {
      var partition := RadixOf(hashes[i], mask, RADIX_SHIFT);
      sels := sels[partition := sels[partition] + [i]];
    }
  }

  /** Every list has gained the rows selected for it. */
  ghost predicate AllGained<P(!new), S(!new)>(agg: AggregateFunction<P, S>, before: seq<seq<seq<Tuple<S>>>>,
                                              lists: seq<seq<Table<P, S>>>, n: nat, sels: seq<seq<nat>>,
                                              keys: seq<Key>, payload: seq<P>)
    reads Tables(lists)
  {
    && n <= |before| == |lists| == |sels| && |keys| == |payload|
    && forall r | 0 <= r < n :: Within(sels[r], |keys|) && GainedBy(agg, before[r], lists[r], sels[r], keys, payload)
  }

  ghost predicate GainedBy<P(!new), S(!new)>(agg: AggregateFunction<P, S>, before: seq<seq<Tuple<S>>>,
                                             list: seq<Table<P, S>>, sel: seq<nat>, keys: seq<Key>, payload: seq<P>)
    requires |keys| == |payload| && Within(sel, |keys|)
    reads list
  {
    Gained(agg, before, Contents(list), Slice(keys, sel), Slice(payload, sel))
  }

  /** The lists from `r` on hold what they held before. */
  ghost predicate Untouched<P(!new), S(!new)>(before: seq<seq<seq<Tuple<S>>>>, lists: seq<seq<Table<P, S>>>, r: nat)
    reads Tables(lists)
  {
    |before| == |lists| && forall q | r <= q < |lists| :: Contents(lists[q]) == before[q]
  }

  ghost predicate SelectionsOk(sels: seq<seq<nat>>, n: nat, count: nat) {
    |sels| == n && forall r | 0 <= r < n :: Within(sels[r], count) && |sels[r]| <= STANDARD_VECTOR_SIZE
  }

  method AddToNextPartition<P(!new), S(!new)>(setup: Setup<P, S>, lists: seq<seq<Table<P, S>>>, r: nat,
                                              sels: seq<seq<nat>>, keys: seq<Key>, hashes: seq<nat>, payload: seq<P>,
                                              ghost before: seq<seq<seq<Tuple<S>>>>)
    returns (ok: bool, lists': seq<seq<Table<P, S>>>)
    requires ListsOk(setup, lists) && r < |lists| && 0 < setup.tuplesPerBlock && Lawful(setup.agg)
    requires ChunkOk(setup, keys, hashes, payload) && SelectionsOk(sels, |lists|, |keys|)
    requires AllGained(setup.agg, before, lists, r, sels, keys, payload) && Untouched(before, lists, r)
    modifies lists[r]
    ensures ListsOk(setup, lists') && |lists'| == |lists|
    ensures forall t | t in Tables(lists') :: t in Tables(lists) || fresh(t)
    ensures ok ==> AllGained(setup.agg, before, lists', r + 1, sels, keys, payload) && Untouched(before, lists', r + 1)
    ensures ok <==> |sels[r]| <= MaxGroups(setup)
  {
    ok, lists' := PartitionAddChunk(setup, lists, r, Slice(keys, sels[r]), Slice(hashes, sels[r]),
                                    Slice(payload, sels[r]));
    forall t | t in Tables(lists') ensures t in Tables(lists) || fresh(t) {
      var q, i :| 0 <= q < |lists'| && 0 <= i < |lists'[q]| && lists'[q][i] == t;
      assert t in lists'[q];
    }
    if ok {
      forall q | 0 <= q < r + 1 ensures GainedBy(setup.agg, before[q], lists'[q], sels[q], keys, payload) {
        assert q < r ==> old(GainedBy(setup.agg, before[q], lists[q], sels[q], keys, payload));
      }
    }
  }

  lemma InTables<P(!new), S(!new)>(lists: seq<seq<Table<P, S>>>, r: nat)
    requires r < |lists|
    ensures forall t | t in lists[r] :: t in Tables(lists)
  {
  }

  lemma NothingGained<P(!new), S(!new)>(agg: AggregateFunction<P, S>, lists: seq<seq<Table<P, S>>>, sels: seq<seq<nat>>,
                                        keys: seq<Key>, payload: seq<P>)
    requires |sels| == |lists| && |keys| == |payload|
    ensures AllGained(agg, AllContents(lists), lists, 0, sels, keys, payload) && Untouched(AllContents(lists), lists, 0)
  {
  }

  /** Adds the rows selected for each partition to that partition's list. */
  method AddToPartitions<P(!new), S(!new)>(setup: Setup<P, S>, lists: seq<seq<Table<P, S>>>, sels: seq<seq<nat>>,
                                           keys: seq<Key>, hashes: seq<nat>, payload: seq<P>)
    returns (ok: bool, lists': seq<seq<Table<P, S>>>)
    requires ListsOk(setup, lists) && 0 < setup.tuplesPerBlock && Lawful(setup.agg)
    requires ChunkOk(setup, keys, hashes, payload) && SelectionsOk(sels, |lists|, |keys|)
    modifies Tables(lists)
    ensures ListsOk(setup, lists') && |lists'| == |lists|
    ensures forall t | t in Tables(lists') :: t in Tables(lists) || fresh(t)
    ensures ok ==> AllGained(setup.agg, old(AllContents(lists)), lists', |lists|, sels, keys, payload)
    ensures ok <==> forall r | 0 <= r < |sels| :: |sels[r]| <= MaxGroups(setup)
  {
    hide ListsOk, TableOk, AllGained, Untouched, Tables, AllContents, Lawful, MaxGroups;
    lists', ok := lists, true;
    ghost var before := AllContents(lists);
    NothingGained(setup.agg, lists, sels, keys, payload);
    var r := 0;
    while r < |lists|
      invariant r <= |lists| == |lists'| && ListsOk(setup, lists')
      invariant forall t | t in Tables(lists') :: t in Tables(lists) || fresh(t)
      invariant AllGained(setup.agg, before, lists', r, sels, keys, payload) && Untouched(before, lists', r)
      invariant ok && forall q | 0 <= q < r :: |sels[q]| <= MaxGroups(setup)
    {
      InTables(lists', r);
      ok, lists' := AddToNextPartition(setup, lists', r, sels, keys, hashes, payload, before);
      if !ok {
        return;
      }
      r := r + 1;
    }
  }

  ghost function AllContents<P(!new), S(!new)>(lists: seq<seq<Table<P, S>>>): (contents: seq<seq<seq<Tuple<S>>>>)
    reads Tables(lists)
    ensures |contents| == |lists| && forall r | 0 <= r < |lists| :: contents[r] == Contents(lists[r])
  {
    seq(|lists|, r requires 0 <= r < |lists| reads Tables(lists) => Contents(lists[r]))
  }

  // ---------- redistributing the tables built so far ----------

  /**
   * The tables created for partitioning, as the code keeps them: one list per partition, and one vector that
   * holds the `n` tables of the first source table, then those of the second, and so on.
   */
  ghost predicate Grid<P(!new), S(!new)>(lists: seq<seq<Table<P, S>>>, parts: seq<Table<P, S>>, n: nat, j: nat) {
    && |lists| == n && |parts| == PageBase(j, n) && (forall r | 0 <= r < n :: |lists[r]| == j)
    && (forall r, i | 0 <= r < n && 0 <= i < j :: GridAt(lists, parts, n, r, i))
  }

  ghost predicate GridAt<P(!new), S(!new)>(lists: seq<seq<Table<P, S>>>, parts: seq<Table<P, S>>, n: nat, r: nat,
                                           i: nat)
    requires r < |lists| && i < |lists[r]|
  {
    PageBase(i, n) + r < |parts| && parts[PageBase(i, n) + r] == lists[r][i]
  }

  lemma {:induction false} PageBaseOrder(i: nat, j: nat, n: nat)
    requires i < j
    ensures PageBase(i, n) + n <= PageBase(j, n)
    decreases j
  {
    if i + 1 < j {
      PageBaseOrder(i, j - 1, n);
    }
  }

  /** The tables of a list are those of its partition in every row of the grid, so lists share no table. */
  lemma GridLists<P(!new), S(!new)>(setup: Setup<P, S>, lists: seq<seq<Table<P, S>>>, parts: seq<Table<P, S>>, n: nat,
                                    j: nat)
    requires Grid(lists, parts, n, j) && ListOk(setup, parts)
    ensures ListsOk(setup, lists)
    ensures forall t | t in Tables(lists) :: t in parts
  {
    forall r, i | 0 <= r < n && 0 <= i < j ensures lists[r][i] in parts && TableOk(setup, lists[r][i]) {
      assert GridAt(lists, parts, n, r, i);
      assert TableOk(setup, parts[PageBase(i, n) + r]);
    }
    forall q, r, h, i | 0 <= q < n && 0 <= r < n && 0 <= h < j && 0 <= i < j && (q != r || h != i)
      ensures lists[q][h] != lists[r][i]
    {
      assert GridAt(lists, parts, n, q, h) && GridAt(lists, parts, n, r, i);
      if h < i {
        PageBaseOrder(h, i, n);
      } else if i < h {
        PageBaseOrder(i, h, n);
      }
    }
    forall q, r | 0 <= q < r < n ensures Apart(lists[q], lists[r]) {
    }
  }

  /** Adds an empty table to a list of new ones. */
  method PushFresh<P(!new), S(!new)>(setup: Setup<P, S>, row: seq<Table<P, S>>) returns (longer: seq<Table<P, S>>)
    requires 0 < setup.tuplesPerBlock && ListOk(setup, row)
    ensures ListOk(setup, longer) && |longer| == |row| + 1 && longer[..|row|] == row
    ensures fresh(longer[|row|]) && longer[|row|].tuples == []
  {
    longer := PushTable(setup, row);
    assert Contents(longer)[|row|] == longer[|row|].tuples;
  }

  /** Creates one empty table per partition. */
  method NewTables<P(!new), S(!new)>(setup: Setup<P, S>, n: nat) returns (row: seq<Table<P, S>>)
    requires 0 < setup.tuplesPerBlock
    ensures |row| == n && ListOk(setup, row)
    ensures forall i | 0 <= i < n :: fresh(row[i]) && row[i].tuples == []
  {
    hide TableOk;
    row := [];
    while |row| < n
      invariant |row| <= n && ListOk(setup, row)
      invariant forall i | 0 <= i < |row| :: fresh(row[i]) && row[i].tuples == []
    {
      row := PushFresh(setup, row);
    }
  }

  function InPartition<S>(hashOf: Key -> nat, k: Key, r: nat, mask: nat, state: Option<S>): Option<S> {
    if RadixOf(hashOf(k), mask, RADIX_SHIFT) == r then state else None
  }

  ghost predicate GainedPartitionAt<P, S>(agg: AggregateFunction<P, S>, hashOf: Key -> nat, before: seq<seq<Tuple<S>>>,
                                          after: seq<seq<Tuple<S>>>, source: seq<Tuple<S>>, r: nat, mask: nat, k: Key)
  {
    MergeAll(agg, after, k) == Merge(agg, MergeAll(agg, before, k), InPartition(hashOf, k, r, mask, Find(source, k)))
  }

  /** A list of tables has gained the groups of one partition of a source table. */
  ghost predicate GainedPartition<P, S>(agg: AggregateFunction<P, S>, hashOf: Key -> nat, before: seq<seq<Tuple<S>>>,
                                        after: seq<seq<Tuple<S>>>, source: seq<Tuple<S>>, r: nat, mask: nat)
  {
    forall k :: GainedPartitionAt(agg, hashOf, before, after, source, r, mask, k)
  }

  /** What one call of Partition did to a column of the grid: only the first table is ever addressed. */
  ghost predicate ColumnMerged<P, S>(agg: AggregateFunction<P, S>, hashOf: Key -> nat, before: seq<seq<Tuple<S>>>,
                                     after: seq<seq<Tuple<S>>>, source: seq<Tuple<S>>, r: nat, n: nat, mask: nat)
  {
    |before| == |after| && forall i | 0 <= i < |before| ::
      MergedPartition(agg, hashOf, before[i], after[i], source, PageBase(i, n) + r, mask, RADIX_SHIFT)
  }

  lemma {:induction false} ColumnGains<P(!new), S(!new)>(
    agg: AggregateFunction<P, S>, hashOf: Key -> nat, before: seq<seq<Tuple<S>>>, after: seq<seq<Tuple<S>>>,
    source: seq<Tuple<S>>, r: nat, n: nat, mask: nat, k: Key)
    requires Lawful(agg) && before != [] && r < n && RadixOf(hashOf(k), mask, RADIX_SHIFT) < n
    requires ColumnMerged(agg, hashOf, before, after, source, r, n, mask)
    ensures GainedPartitionAt(agg, hashOf, before, after, source, r, mask, k)
  {
    var m := |before| - 1;
    assert MergedPartition(agg, hashOf, before[m], after[m], source, PageBase(m, n) + r, mask, RADIX_SHIFT);
    assert MergedPartitionAt(agg, hashOf, before[m], after[m], source, PageBase(m, n) + r, mask, RADIX_SHIFT, k);
    if m > 0 {
      ColumnGains(agg, hashOf, before[..m], after[..m], source, r, n, mask, k);
      PageBaseOrder(0, m, n);
      var front, last := MergeAll(agg, before[..m], k), Find(before[m], k);
      var extra := InPartition(hashOf, k, r, mask, Find(source, k));
      MergeLaws(agg, front, extra, last);
      MergeLaws(agg, extra, last, front);
      MergeLaws(agg, front, last, extra);
    }
  }

  /** Adds one table to the list of every partition, and all of them to the vector of partition tables. */
  method PushRow<P(!new), S(!new)>(setup: Setup<P, S>, lists: seq<seq<Table<P, S>>>, parts: seq<Table<P, S>>, n: nat,
                                   ghost j: nat)
    returns (lists': seq<seq<Table<P, S>>>, parts': seq<Table<P, S>>)
    requires Grid(lists, parts, n, j) && ListOk(setup, parts) && 0 < setup.tuplesPerBlock
    ensures Grid(lists', parts', n, j + 1) && ListOk(setup, parts')
    ensures parts <= parts' && forall i | |parts| <= i < |parts'| :: fresh(parts'[i]) && parts'[i].tuples == []
    ensures forall r | 0 <= r < n :: Contents(lists'[r]) == Contents(lists[r]) + [[]]
  {
    hide TableOk;
    var row := NewTables(setup, n);
    parts' := parts + row;
    lists' := seq(n, r requires 0 <= r < n => lists[r] + [row[r]]);
    forall r, i | 0 <= r < n && 0 <= i < j + 1 ensures GridAt(lists', parts', n, r, i) {
      if i < j {
        assert GridAt(lists, parts, n, r, i);
      }
    }
    forall q | 0 <= q < |parts'| ensures TableOk(setup, parts'[q]) {
      assert if q < |parts| then TableOk(setup, parts[q]) else TableOk(setup, row[q - |parts|]);
    }
  }

  /** Column `r` of a grid with `n` columns and `j` rows. */
  ghost function Column<S>(all: seq<seq<Tuple<S>>>, n: nat, j: nat, r: nat): (column: seq<seq<Tuple<S>>>)
    requires r < n && PageBase(j, n) <= |all|
    ensures |column| == j
  {
    seq(j, i requires 0 <= i < j => PageBaseOrder(i, j, n); all[PageBase(i, n) + r])
  }

  lemma GridColumns<P(!new), S(!new)>(lists: seq<seq<Table<P, S>>>, parts: seq<Table<P, S>>, n: nat, j: nat)
    requires Grid(lists, parts, n, j)
    ensures forall r | 0 <= r < n :: Contents(lists[r]) == Column(Contents(parts), n, j, r)
  {
    forall r, i | 0 <= r < n && 0 <= i < j ensures Contents(lists[r])[i] == Column(Contents(parts), n, j, r)[i] {
      assert GridAt(lists, parts, n, r, i);
    }
  }

  /** Every table of a vector has been merged with the partition of its position. */
  ghost predicate AllMerged<P, S>(agg: AggregateFunction<P, S>, hashOf: Key -> nat, before: seq<seq<Tuple<S>>>,
                                  after: seq<seq<Tuple<S>>>, source: seq<Tuple<S>>, mask: nat)
  {
    |before| == |after| && forall q | 0 <= q < |before| ::
      MergedPartition(agg, hashOf, before[q], after[q], source, q, mask, RADIX_SHIFT)
  }

  lemma GridGains<P(!new), S(!new)>(
    agg: AggregateFunction<P, S>, hashOf: Key -> nat, before: seq<seq<Tuple<S>>>, after: seq<seq<Tuple<S>>>,
    source: seq<Tuple<S>>, n: nat, j: nat, r: nat, mask: nat)
    requires Lawful(agg) && 0 < j && r < n && |before| == PageBase(j, n) && RadixTotal(mask, n)
    requires AllMerged(agg, hashOf, before, after, source, mask)
    ensures GainedPartition(agg, hashOf, Column(before, n, j, r), Column(after, n, j, r), source, r, mask)
  {
    var cb, ca := Column(before, n, j, r), Column(after, n, j, r);
    forall i | 0 <= i < j
      ensures MergedPartition(agg, hashOf, cb[i], ca[i], source, PageBase(i, n) + r, mask, RADIX_SHIFT)
    {
      PageBaseOrder(i, j, n);
    }
    forall k ensures GainedPartitionAt(agg, hashOf, cb, ca, source, r, mask, k) {
      assert RadixOf(hashOf(k), mask, RADIX_SHIFT) < n;
      ColumnGains(agg, hashOf, cb, ca, source, r, n, mask, k);
    }
  }

  /** Every hash has a partition below `n`. */
  ghost predicate RadixTotal(mask: nat, n: nat) {
    forall h: nat :: RadixOf(h, mask, RADIX_SHIFT) < n
  }

  /** Every table of a vector holds the keys of its partition of some sources. */
  ghost predicate AllHold<P(!new), S(!new)>(parts: seq<Table<P, S>>, sources: seq<seq<Tuple<S>>>, mask: nat)
    reads parts
  {
    forall q | 0 <= q < |parts| :: KeySet(parts[q].tuples) == GroupKeys(sources, q, mask, RADIX_SHIFT)
  }

  /** What a table sends to the first `n` tables is accepted after some sources have been sent to them. */
  ghost predicate TableFits<S>(sources: seq<seq<Tuple<S>>>, source: seq<Tuple<S>>, n: nat, mask: nat, capacity: nat) {
    forall r: nat | r < n :: FitsAt(sources, source, r, mask, capacity)
  }

  ghost predicate FitsAt<S>(sources: seq<seq<Tuple<S>>>, source: seq<Tuple<S>>, r: nat, mask: nat, capacity: nat) {
    FlushesFit(GroupKeys(sources, r, mask, RADIX_SHIFT), source,
               PartitionPtrs(source, |source|, r, mask, RADIX_SHIFT), capacity)
  }

  lemma {:induction false} NoPtrsBeyond<S>(tuples: seq<Tuple<S>>, m: nat, n: nat, q: nat, mask: nat)
    requires m <= |tuples| && RadixTotal(mask, n) && n <= q
    ensures PartitionPtrs(tuples, m, q, mask, RADIX_SHIFT) == []
  {
    if m > 0 {
      NoPtrsBeyond(tuples, m - 1, n, q, mask);
      assert RadixOf(tuples[m - 1].hash, mask, RADIX_SHIFT) < n;
    }
  }

  lemma {:induction false} NoKeysBeyond<S>(sources: seq<seq<Tuple<S>>>, n: nat, q: nat, mask: nat)
    requires RadixTotal(mask, n) && n <= q
    ensures GroupKeys(sources, q, mask, RADIX_SHIFT) == {}
  {
    hide RadixTotal;
    if sources != [] {
      var last := sources[|sources| - 1];
      NoKeysBeyond(sources[..|sources| - 1], n, q, mask);
      NoPtrsBeyond(last, |last|, n, q, mask);
    }
  }

  /** Tables that no partition number reaches refuse nothing. */
  lemma FitsBeyond<S>(sources: seq<seq<Tuple<S>>>, source: seq<Tuple<S>>, n: nat, m: nat, mask: nat, capacity: nat)
    requires RadixTotal(mask, n) && n <= m
    ensures TableFits(sources, source, n, mask, capacity) <==> TableFits(sources, source, m, mask, capacity)
  {
    hide RadixTotal;
    forall q: nat | n <= q ensures FitsAt(sources, source, q, mask, capacity) {
      NoKeysBeyond(sources, n, q, mask);
      NoPtrsBeyond(source, |source|, n, q, mask);
    }
  }

  /** A table that was merged with its partition of another holds the keys of both. */
  lemma MergedKeys<P, S>(agg: AggregateFunction<P, S>, hashOf: Key -> nat, columns: nat, before: seq<Tuple<S>>,
                         after: seq<Tuple<S>>, source: seq<Tuple<S>>, q: nat, mask: nat)
    requires Keyed(source, hashOf, columns) && MergedPartition(agg, hashOf, before, after, source, q, mask, RADIX_SHIFT)
    ensures KeySet(after) == KeySet(before) + KeysIn(source, q, mask, RADIX_SHIFT)
  {
    hide KeysIn, KeySet, Keyed;
    forall k ensures k in KeySet(after) <==> k in KeySet(before) || k in KeysIn(source, q, mask, RADIX_SHIFT) {
      assert MergedPartitionAt(agg, hashOf, before, after, source, q, mask, RADIX_SHIFT, k);
      InKeySet(before, k);
      InKeySet(after, k);
      InPartitionKeys(source, hashOf, columns, q, mask, RADIX_SHIFT, k);
    }
  }

  /** Distributes one table over a vector of tables. */
  method DistributeTable<P(!new), S(!new)>(setup: Setup<P, S>, source: Table<P, S>, parts: seq<Table<P, S>>, mask: nat,
                                           ghost sources: seq<seq<Tuple<S>>>)
    returns (ok: bool)
    requires ListOk(setup, parts) && TableOk(setup, source) && source !in parts
    requires Lawful(setup.agg) && RadixTotal(mask, |parts|) && AllHold(parts, sources, mask)
    modifies source`entries, parts
    ensures ListOk(setup, parts)
    ensures ok ==> AllMerged(setup.agg, setup.hashOf, old(Contents(parts)), Contents(parts), source.tuples, mask)
    ensures ok ==> AllHold(parts, sources + [source.tuples], mask)
    ensures ok <==> TableFits(sources, source.tuples, |parts|, mask, MaxGroups(setup))
  {
    hide MergedPartition, FlushesFit, KeySet;
    forall q | 0 <= q < |parts| ensures source.Target(parts[q]) {
      assert TableOk(setup, parts[q]) && parts[q] in parts;
    }
    ok := source.Partition(parts, mask, RADIX_SHIFT);
    forall q | 0 <= q < |parts| ensures TableOk(setup, parts[q]) {
      assert old(TableOk(setup, parts[q]));
    }
    forall q: nat | q < |parts|
      ensures source.TargetFits(parts[q], old(parts[q].tuples), q, mask, RADIX_SHIFT) <==>
              FitsAt(sources, source.tuples, q, mask, MaxGroups(setup))
    {
      assert TableOk(setup, parts[q]);
    }
    if ok {
      forall q | 0 <= q < |parts|
        ensures KeySet(parts[q].tuples) == GroupKeys(sources + [source.tuples], q, mask, RADIX_SHIFT)
      {
        MergedKeys(setup.agg, setup.hashOf, setup.columns, old(parts[q].tuples), parts[q].tuples, source.tuples, q,
                   mask);
        GroupKeysNext(sources, source.tuples, q, mask, RADIX_SHIFT);
      }
    }
  }

  /** Distributes one table over the partition tables of the grid. */
  method PartitionTable<P(!new), S(!new)>(setup: Setup<P, S>, source: Table<P, S>, ghost lists: seq<seq<Table<P, S>>>,
                                          parts: seq<Table<P, S>>, n: nat, mask: nat, ghost j: nat,
                                          ghost sources: seq<seq<Tuple<S>>>)
    returns (ok: bool)
    requires Grid(lists, parts, n, j) && 0 < j && ListOk(setup, parts) && TableOk(setup, source) && source !in parts
    requires Lawful(setup.agg) && RadixTotal(mask, n) && AllHold(parts, sources, mask)
    modifies source`entries, parts
    ensures ListOk(setup, parts)
    ensures ok ==> forall r | 0 <= r < n ::
      GainedPartition(setup.agg, setup.hashOf, old(Contents(lists[r])), Contents(lists[r]), source.tuples, r, mask)
    ensures ok ==> AllHold(parts, sources + [source.tuples], mask)
    ensures ok <==> TableFits(sources, source.tuples, n, mask, MaxGroups(setup))
  {
    hide TableOk, AllHold, TableFits, Lawful, RadixTotal, MergedPartition;
    ghost var before := Contents(parts);
    GridColumns(lists, parts, n, j);
    PageBaseOrder(0, j, n);
    RadixTotalWeaker(mask, n, |parts|);
    FitsBeyond(sources, source.tuples, n, |parts|, mask, MaxGroups(setup));
    ok := DistributeTable(setup, source, parts, mask, sources);
    if ok {
      GridColumns(lists, parts, n, j);
      forall r | 0 <= r < n
        ensures GainedPartition(setup.agg, setup.hashOf, old(Contents(lists[r])), Contents(lists[r]), source.tuples, r,
                                mask)
      {
        GridGains(setup.agg, setup.hashOf, before, Contents(parts), source.tuples, n, j, r, mask);
      }
    }
  }

  lemma RadixTotalWeaker(mask: nat, n: nat, m: nat)
    requires RadixTotal(mask, n) && n <= m
    ensures RadixTotal(mask, m)
  {
    forall h: nat ensures RadixOf(h, mask, RADIX_SHIFT) < m {
      assert RadixOf(h, mask, RADIX_SHIFT) < n;
    }
  }

  ghost predicate PartitionOfAt<P, S>(agg: AggregateFunction<P, S>, hashOf: Key -> nat, list: seq<seq<Tuple<S>>>,
                                      sources: seq<seq<Tuple<S>>>, r: nat, mask: nat, k: Key)
  {
    MergeAll(agg, list, k) == InPartition(hashOf, k, r, mask, MergeAll(agg, sources, k))
  }

  /** A list of tables holds exactly the groups of one partition of the sources. */
  ghost predicate PartitionOf<P, S>(agg: AggregateFunction<P, S>, hashOf: Key -> nat, list: seq<seq<Tuple<S>>>,
                                    sources: seq<seq<Tuple<S>>>, r: nat, mask: nat)
  {
    forall k :: PartitionOfAt(agg, hashOf, list, sources, r, mask, k)
  }

  lemma PartitionOfNext<P(!new), S(!new)>(
    agg: AggregateFunction<P, S>, hashOf: Key -> nat, list: seq<seq<Tuple<S>>>, list': seq<seq<Tuple<S>>>,
    sources: seq<seq<Tuple<S>>>, source: seq<Tuple<S>>, r: nat, mask: nat)
    requires PartitionOf(agg, hashOf, list, sources, r, mask)
    requires GainedPartition(agg, hashOf, list + [[]], list', source, r, mask)
    ensures PartitionOf(agg, hashOf, list', sources + [source], r, mask)
  {
    forall k ensures PartitionOfAt(agg, hashOf, list', sources + [source], r, mask, k) {
      assert PartitionOfAt(agg, hashOf, list, sources, r, mask, k);
      assert GainedPartitionAt(agg, hashOf, list + [[]], list', source, r, mask, k);
      EmptyTableAdds(agg, list, k);
      MergeAllNext(agg, sources, source, k);
    }
  }

  /** Every list holds its partition of the sources. */
  ghost predicate AllPartitionsOf<P(!new), S(!new)>(setup: Setup<P, S>, lists: seq<seq<Table<P, S>>>,
                                                    sources: seq<seq<Tuple<S>>>, mask: nat)
    reads Tables(lists)
  {
    forall r | 0 <= r < |lists| :: PartitionOf(setup.agg, setup.hashOf, Contents(lists[r]), sources, r, mask)
  }

  /** New tables at the end of the vector hold nothing, and no partition number reaches them. */
  lemma NewTablesHold<P(!new), S(!new)>(parts: seq<Table<P, S>>, parts': seq<Table<P, S>>, n: nat,
                                        sources: seq<seq<Tuple<S>>>, mask: nat)
    requires RadixTotal(mask, n) && AllHold(parts, sources, mask) && parts <= parts'
    requires forall q | |parts| <= q < |parts'| :: parts'[q].tuples == []
    requires n <= |parts| || sources == []
    ensures AllHold(parts', sources, mask)
  {
    hide RadixTotal, KeySet;
    forall q | 0 <= q < |parts'| ensures KeySet(parts'[q].tuples) == GroupKeys(sources, q, mask, RADIX_SHIFT) {
      if q < |parts| {
        assert parts'[q] == parts[q];
      } else {
        assert KeySet<S>([]) == {} by {
          EmptyKeySet<S>();
        }
        if sources != [] {
          NoKeysBeyond(sources, n, q, mask);
        }
      }
    }
  }

  lemma EmptyKeySet<S>()
    ensures KeySet<S>([]) == {}
  {
  }

  /** Adds a row to the grid and distributes the next table over it. */
  method PartitionNext<P(!new), S(!new)>(setup: Setup<P, S>, source: Table<P, S>, lists: seq<seq<Table<P, S>>>,
                                         parts: seq<Table<P, S>>, n: nat, mask: nat, ghost j: nat,
                                         ghost sources: seq<seq<Tuple<S>>>)
    returns (ok: bool, lists': seq<seq<Table<P, S>>>, parts': seq<Table<P, S>>)
    requires Grid(lists, parts, n, j) && ListOk(setup, parts) && TableOk(setup, source) && source !in parts
    requires Lawful(setup.agg) && RadixTotal(mask, n) && 0 < setup.tuplesPerBlock && |sources| == j
    requires AllPartitionsOf(setup, lists, sources, mask) && AllHold(parts, sources, mask)
    modifies source`entries, parts
    ensures Grid(lists', parts', n, j + 1) && ListOk(setup, parts')
    ensures forall i | 0 <= i < |parts'| :: parts'[i] in parts || fresh(parts'[i])
    ensures ok ==> AllPartitionsOf(setup, lists', sources + [source.tuples], mask)
    ensures ok ==> AllHold(parts', sources + [source.tuples], mask)
    ensures ok <==> TableFits(sources, source.tuples, n, mask, MaxGroups(setup))
  {
    ghost var before := AllContents(lists);
    lists', parts' := PushRow(setup, lists, parts, n, j);
    NewTablesHold(parts, parts', n, sources, mask);
    ok := PartitionTable(setup, source, lists', parts', n, mask, j + 1, sources);
    if ok {
      forall r | 0 <= r < n
        ensures PartitionOf(setup.agg, setup.hashOf, Contents(lists'[r]), sources + [source.tuples], r, mask)
      {
        assert PartitionOf(setup.agg, setup.hashOf, before[r], sources, r, mask);
        PartitionOfNext(setup.agg, setup.hashOf, before[r], Contents(lists'[r]), sources, source.tuples, r, mask);
      }
    }
  }

  lemma NothingToPartition<P(!new), S(!new)>(setup: Setup<P, S>, lists: seq<seq<Table<P, S>>>, mask: nat)
    requires forall r | 0 <= r < |lists| :: lists[r] == []
    ensures AllPartitionsOf(setup, lists, [], mask)
  {
    forall r | 0 <= r < |lists| ensures PartitionOf(setup.agg, setup.hashOf, Contents(lists[r]), [], r, mask) {
      forall k ensures PartitionOfAt(setup.agg, setup.hashOf, Contents(lists[r]), [], r, mask, k) {
      }
    }
  }

  ghost predicate AllKeyed<P(!new), S(!new)>(setup: Setup<P, S>, contents: seq<seq<Tuple<S>>>) {
    forall j | 0 <= j < |contents| :: Keyed(contents[j], setup.hashOf, setup.columns)
  }

  lemma ListKeyed<P(!new), S(!new)>(setup: Setup<P, S>, list: seq<Table<P, S>>)
    requires ListOk(setup, list)
    ensures AllKeyed(setup, Contents(list))
  {
    forall j | 0 <= j < |list| ensures Keyed(Contents(list)[j], setup.hashOf, setup.columns) {
      assert TableOk(setup, list[j]);
    }
  }

  lemma {:induction false} MergedIfHeld<P, S>(agg: AggregateFunction<P, S>, list: seq<seq<Tuple<S>>>, i: nat, k: Key)
    requires i < |list| && Find(list[i], k).Some?
    ensures MergeAll(agg, list, k).Some?
  {
    if i < |list| - 1 {
      MergedIfHeld(agg, list[..|list| - 1], i, k);
    }
  }

  /** Whether redistributing tables into `n` partitions succeeds. */
  ghost predicate Redistributes<P(!new), S(!new)>(setup: Setup<P, S>, contents: seq<seq<Tuple<S>>>, n: nat, mask: nat) {
    AllFlushesFit(contents, n, mask, RADIX_SHIFT, MaxGroups(setup))
  }

  /** The tables before `j` have been accepted. */
  ghost predicate FirstFit<S>(contents: seq<seq<Tuple<S>>>, j: nat, n: nat, mask: nat, capacity: nat)
    requires j <= |contents|
  {
    forall i: nat | i < j :: TableFits(contents[..i], contents[i], n, mask, capacity)
  }

  lemma AllFirstFit<S>(contents: seq<seq<Tuple<S>>>, n: nat, mask: nat, capacity: nat)
    ensures FirstFit(contents, |contents|, n, mask, capacity) <==>
            AllFlushesFit(contents, n, mask, RADIX_SHIFT, capacity)
  {
    hide FlushesFit, GroupKeys;
    if FirstFit(contents, |contents|, n, mask, capacity) {
      forall j: nat, r: nat | j < |contents| && r < n ensures SourceFits(contents, j, r, mask, RADIX_SHIFT, capacity) {
        assert TableFits(contents[..j], contents[j], n, mask, capacity);
        assert FitsAt(contents[..j], contents[j], r, mask, capacity);
      }
    }
    if AllFlushesFit(contents, n, mask, RADIX_SHIFT, capacity) {
      forall i: nat | i < |contents| ensures TableFits(contents[..i], contents[i], n, mask, capacity) {
        forall r: nat | r < n ensures FitsAt(contents[..i], contents[i], r, mask, capacity) {
          assert SourceFits(contents, i, r, mask, RADIX_SHIFT, capacity);
        }
      }
    }
  }

  /**
   * Redistributes a list of tables into one list per partition. It fails exactly if the one table that everything of
   * some partition is sent to refuses a vector.
   */
  method PartitionAll<P(!new), S(!new)>(setup: Setup<P, S>, sources: seq<Table<P, S>>, n: nat, mask: nat)
    returns (ok: bool, lists: seq<seq<Table<P, S>>>)
    requires ListOk(setup, sources) && Lawful(setup.agg) && RadixTotal(mask, n) && 0 < setup.tuplesPerBlock
    modifies sources
    ensures |lists| == n && ListsOk(setup, lists) && forall t | t in Tables(lists) :: fresh(t)
    ensures ok ==> AllPartitionsOf(setup, lists, old(Contents(sources)), mask)
    ensures ok <==> Redistributes(setup, old(Contents(sources)), n, mask)
  {
    hide TableOk, AllPartitionsOf, MaxGroups, Lawful, RadixTotal, ListsOk, AllHold, TableFits, AllFlushesFit;
    ghost var before := Contents(sources);
    AllFirstFit(before, n, mask, MaxGroups(setup));
    var parts: seq<Table<P, S>> := [];
    lists, ok := seq(n, _ => []), true;
    NothingToPartition(setup, lists, mask);
    NothingHeld(parts, mask);
    var j := 0;
    while j < |sources|
      invariant j <= |sources| && Grid(lists, parts, n, j) && ListOk(setup, parts)
      invariant forall i | 0 <= i < |parts| :: fresh(parts[i])
      invariant forall i | j <= i < |sources| :: TableOk(setup, sources[i])
      invariant Contents(sources) == before
      invariant AllPartitionsOf(setup, lists, before[..j], mask) && ok
      invariant AllHold(parts, before[..j], mask) && FirstFit(before, j, n, mask, MaxGroups(setup))
    {
      assert before[..j + 1] == before[..j] + [sources[j].tuples];
      ok, lists, parts := PartitionNext(setup, sources[j], lists, parts, n, mask, j, before[..j]);
      if !ok {
        GridLists(setup, lists, parts, n, j + 1);
        return;
      }
      j := j + 1;
    }
    assert before[..j] == before;
    GridLists(setup, lists, parts, n, j);
  }

  lemma NothingHeld<P(!new), S(!new)>(parts: seq<Table<P, S>>, mask: nat)
    requires parts == []
    ensures AllHold(parts, [], mask)
  {
  }

  // ---------- the rows added so far ----------

  ghost predicate AggregatesAt<P, S>(agg: AggregateFunction<P, S>, hashOf: Key -> nat, list: seq<seq<Tuple<S>>>,
                                     keys: seq<Key>, payload: seq<P>, k: Key)
    requires |keys| == |payload|
  {
    MergeAll(agg, list, k) == GroupState(agg, keys, payload, k)
  }

  /** Merging a list of tables gives the group-by of the rows. */
  ghost predicate Aggregates<P, S>(agg: AggregateFunction<P, S>, hashOf: Key -> nat, list: seq<seq<Tuple<S>>>,
                                   keys: seq<Key>, payload: seq<P>)
    requires |keys| == |payload|
  {
    forall k :: AggregatesAt(agg, hashOf, list, keys, payload, k)
  }

  ghost predicate AggregatesPartitionAt<P, S>(agg: AggregateFunction<P, S>, hashOf: Key -> nat,
                                              list: seq<seq<Tuple<S>>>, keys: seq<Key>, payload: seq<P>, r: nat,
                                              mask: nat, k: Key)
    requires |keys| == |payload|
  {
    MergeAll(agg, list, k) == InPartition(hashOf, k, r, mask, GroupState(agg, keys, payload, k))
  }

  /** Merging a list of tables gives the group-by of the rows, restricted to the keys of one partition. */
  ghost predicate AggregatesPartition<P, S>(agg: AggregateFunction<P, S>, hashOf: Key -> nat, list: seq<seq<Tuple<S>>>,
                                            keys: seq<Key>, payload: seq<P>, r: nat, mask: nat)
    requires |keys| == |payload|
  {
    forall k :: AggregatesPartitionAt(agg, hashOf, list, keys, payload, r, mask, k)
  }

  lemma GroupStateSplit<P(!new), S(!new)>(agg: AggregateFunction<P, S>, keys: seq<Key>, payload: seq<P>,
                                          keys': seq<Key>, payload': seq<P>, k: Key)
    requires Lawful(agg) && |keys| == |payload| && |keys'| == |payload'|
    ensures GroupState(agg, keys + keys', payload + payload', k) ==
            Merge(agg, GroupState(agg, keys, payload, k), GroupState(agg, keys', payload', k))
  {
    ExtendSplit(agg.update, agg.initial, None, keys, payload, keys', payload', k);
    ExtendIsMerge(agg, GroupState(agg, keys, payload, k), keys', payload', k);
  }

  lemma AggregatesMore<P(!new), S(!new)>(
    agg: AggregateFunction<P, S>, hashOf: Key -> nat, list: seq<seq<Tuple<S>>>, list': seq<seq<Tuple<S>>>,
    keys: seq<Key>, payload: seq<P>, keys': seq<Key>, payload': seq<P>)
    requires Lawful(agg) && |keys| == |payload| && |keys'| == |payload'|
    requires Aggregates(agg, hashOf, list, keys, payload) && Gained(agg, list, list', keys', payload')
    ensures Aggregates(agg, hashOf, list', keys + keys', payload + payload')
  {
    forall k ensures AggregatesAt(agg, hashOf, list', keys + keys', payload + payload', k) {
      assert AggregatesAt(agg, hashOf, list, keys, payload, k) && GainedAt(agg, list, list', keys', payload', k);
      GroupStateSplit(agg, keys, payload, keys', payload', k);
    }
  }

  lemma AggregatesSplit<P(!new), S(!new)>(
    agg: AggregateFunction<P, S>, hashOf: Key -> nat, sources: seq<seq<Tuple<S>>>, list: seq<seq<Tuple<S>>>,
    keys: seq<Key>, payload: seq<P>, r: nat, mask: nat)
    requires |keys| == |payload| && Aggregates(agg, hashOf, sources, keys, payload)
    requires PartitionOf(agg, hashOf, list, sources, r, mask)
    ensures AggregatesPartition(agg, hashOf, list, keys, payload, r, mask)
  {
    forall k ensures AggregatesPartitionAt(agg, hashOf, list, keys, payload, r, mask, k) {
      assert AggregatesAt(agg, hashOf, sources, keys, payload, k);
      assert PartitionOfAt(agg, hashOf, list, sources, r, mask, k);
    }
  }

  lemma AggregatesPartitionMore<P(!new), S(!new)>(
    setup: Setup<P, S>, list: seq<seq<Tuple<S>>>, list': seq<seq<Tuple<S>>>, keys: seq<Key>, payload: seq<P>,
    keys': seq<Key>, hashes': seq<nat>, payload': seq<P>, r: nat, mask: nat)
    requires Lawful(setup.agg) && |keys| == |payload| && ChunkOk(setup, keys', hashes', payload')
    requires AggregatesPartition(setup.agg, setup.hashOf, list, keys, payload, r, mask)
    requires var sel := PartitionRows(hashes', |hashes'|, r, mask, RADIX_SHIFT);
      Gained(setup.agg, list, list', Slice(keys', sel), Slice(payload', sel))
    ensures AggregatesPartition(setup.agg, setup.hashOf, list', keys + keys', payload + payload', r, mask)
  {
    var agg, n, sel := setup.agg, |hashes'|, PartitionRows(hashes', |hashes'|, r, mask, RADIX_SHIFT);
    assert keys'[..n] == keys' && payload'[..n] == payload';
    forall k ensures AggregatesPartitionAt(agg, setup.hashOf, list', keys + keys', payload + payload', r, mask, k) {
      assert AggregatesPartitionAt(agg, setup.hashOf, list, keys, payload, r, mask, k);
      assert GainedAt(agg, list, list', Slice(keys', sel), Slice(payload', sel), k);
      PartitionState(agg, setup.hashOf, keys', hashes', payload', n, r, mask, RADIX_SHIFT, k);
      GroupStateSplit(agg, keys, payload, keys', payload', k);
    }
  }

  /** Adds a chunk to a list that holds the aggregates of some rows. */
  method AggregateInto<P(!new), S(!new)>(setup: Setup<P, S>, list: seq<Table<P, S>>, groups: seq<Key>, hashes: seq<nat>,
                                         values: seq<P>, ghost keys: seq<Key>, ghost payload: seq<P>)
    returns (ok: bool, list': seq<Table<P, S>>)
    requires ListOk(setup, list) && 0 < setup.tuplesPerBlock && Lawful(setup.agg)
    requires ChunkOk(setup, groups, hashes, values)
    requires |keys| == |payload| && Aggregates(setup.agg, setup.hashOf, Contents(list), keys, payload)
    modifies list
    ensures ListOk(setup, list') && forall t | t in list' :: t in list || fresh(t)
    ensures ok ==> Aggregates(setup.agg, setup.hashOf, Contents(list'), keys + groups, payload + values)
    ensures ok <==> |groups| <= MaxGroups(setup)
  {
    ghost var before := Contents(list);
    ok, list' := ListAddChunk(setup, list, groups, hashes, values);
    if ok {
      AggregatesMore(setup.agg, setup.hashOf, before, Contents(list'), keys, payload, groups, values);
    }
  }

  /** Every list holds the aggregates of the rows of its partition. */
  ghost predicate AllAggregate<P(!new), S(!new)>(setup: Setup<P, S>, lists: seq<seq<Table<P, S>>>, keys: seq<Key>,
                                                 payload: seq<P>, mask: nat)
    requires |keys| == |payload|
    reads Tables(lists)
  {
    forall r | 0 <= r < |lists| ::
      AggregatesPartition(setup.agg, setup.hashOf, Contents(lists[r]), keys, payload, r, mask)
  }

  /** Every group of a partition has the radix of the partition, and belongs to a row that was added. */
  lemma GroupsInTheirPartition<P(!new), S(!new)>(setup: Setup<P, S>, list: seq<Table<P, S>>, keys: seq<Key>,
                                                 payload: seq<P>, r: nat, mask: nat, i: nat, j: nat)
    requires |keys| == |payload| && ListOk(setup, list) && i < |list| && j < |list[i].tuples|
    requires AggregatesPartition(setup.agg, setup.hashOf, Contents(list), keys, payload, r, mask)
    ensures RadixOf(list[i].tuples[j].hash, mask, RADIX_SHIFT) == r
    ensures GroupState(setup.agg, keys, payload, list[i].tuples[j].key).Some?
  {
    var k := list[i].tuples[j].key;
    assert TableOk(setup, list[i]);
    FindAt(list[i].tuples, j);
    assert Contents(list)[i] == list[i].tuples;
    MergedIfHeld(setup.agg, Contents(list), i, k);
    assert AggregatesPartitionAt(setup.agg, setup.hashOf, Contents(list), keys, payload, r, mask, k);
  }

  /** No partition gets more rows of a chunk than a table can hold. */
  ghost predicate SelectionsFit<P(!new), S(!new)>(setup: Setup<P, S>, hashes: seq<nat>, n: nat, mask: nat) {
    forall r: nat | r < n :: |PartitionRows(hashes, |hashes|, r, mask, RADIX_SHIFT)| <= MaxGroups(setup)
  }

  function Hashed<P(!new), S(!new)>(setup: Setup<P, S>, groups: seq<Key>): (hashes: seq<nat>)
    ensures |hashes| == |groups|
  {
    seq<nat>(|groups|, x requires 0 <= x < |groups| => setup.hashOf(groups[x]))
  }

  /** When adding a chunk succeeds; partitioning first takes that the tables built so far can be redistributed. */
  ghost predicate AddsChunk<P(!new), S(!new)>(setup: Setup<P, S>, contents: seq<seq<Tuple<S>>>, n: nat, mask: nat,
                                              hashes: seq<nat>, isPartitioned: bool, doPartition: bool, ok: bool)
  {
    if isPartitioned then ok <==> SelectionsFit(setup, hashes, n, mask)
    else if !doPartition then ok <==> |hashes| <= MaxGroups(setup)
    else ok <==> Redistributes(setup, contents, n, mask) && SelectionsFit(setup, hashes, n, mask)
  }

  /** Splits a chunk over lists that hold the aggregates of some rows by partition. */
  method AggregateIntoPartitions<P(!new), S(!new)>(
    setup: Setup<P, S>, lists: seq<seq<Table<P, S>>>, mask: nat, groups: seq<Key>, hashes: seq<nat>, values: seq<P>,
    ghost keys: seq<Key>, ghost payload: seq<P>)
    returns (ok: bool, lists': seq<seq<Table<P, S>>>)
    requires ListsOk(setup, lists) && 0 < setup.tuplesPerBlock && Lawful(setup.agg)
    requires ChunkOk(setup, groups, hashes, values)
    requires RadixTotal(mask, |lists|) && |keys| == |payload| && AllAggregate(setup, lists, keys, payload, mask)
    modifies Tables(lists)
    ensures ListsOk(setup, lists') && |lists'| == |lists|
    ensures forall t | t in Tables(lists') :: t in Tables(lists) || fresh(t)
    ensures ok ==> AllAggregate(setup, lists', keys + groups, payload + values, mask)
    ensures ok <==> SelectionsFit(setup, hashes, |lists|, mask)
  {
    ghost var before := AllContents(lists);
    var sels := SplitRows(hashes, |lists|, mask);
    SplitFits(sels, |lists|, mask, |groups|, hashes);
    ok, lists' := AddToPartitions(setup, lists, sels, groups, hashes, values);
    if ok {
      forall r | 0 <= r < |lists'| ensures AggregatesPartition(
        setup.agg, setup.hashOf, Contents(lists'[r]), keys + groups, payload + values, r, mask)
      {
        assert GainedBy(setup.agg, before[r], lists'[r], sels[r], groups, values);
        AggregatesPartitionMore(setup, before[r], Contents(lists'[r]), keys, payload, groups, hashes, values, r, mask);
      }
    }
  }

  lemma SplitFits(sels: seq<seq<nat>>, n: nat, mask: nat, count: nat, hashes: seq<nat>)
    requires count == |hashes| <= STANDARD_VECTOR_SIZE && |sels| == n
    requires forall r | 0 <= r < n :: sels[r] == PartitionRows(hashes, |hashes|, r, mask, RADIX_SHIFT)
    ensures SelectionsOk(sels, n, count)
  {
  }

  /** Redistributes a list that holds the aggregates of some rows. */
  method AggregateByPartition<P(!new), S(!new)>(setup: Setup<P, S>, list: seq<Table<P, S>>, n: nat, mask: nat,
                                                ghost keys: seq<Key>, ghost payload: seq<P>)
    returns (ok: bool, lists: seq<seq<Table<P, S>>>)
    requires ListOk(setup, list) && 0 < setup.tuplesPerBlock && Lawful(setup.agg) && RadixTotal(mask, n)
    requires |keys| == |payload| && Aggregates(setup.agg, setup.hashOf, Contents(list), keys, payload)
    modifies list
    ensures |lists| == n && ListsOk(setup, lists) && forall t | t in Tables(lists) :: fresh(t)
    ensures ok ==> AllAggregate(setup, lists, keys, payload, mask)
    ensures ok <==> Redistributes(setup, old(Contents(list)), n, mask)
  {
    ghost var before := Contents(list);
    ok, lists := PartitionAll(setup, list, n, mask);
    if ok {
      forall r | 0 <= r < |lists|
        ensures AggregatesPartition(setup.agg, setup.hashOf, Contents(lists[r]), keys, payload, r, mask)
      {
        AggregatesSplit(setup.agg, setup.hashOf, before, Contents(lists[r]), keys, payload, r, mask);
      }
    }
  }

  class PartitionableHashTable<P(!new), S(!new)> {
    const setup: Setup<P, S>
    const info: RadixPartitionInfo
    var unpartitioned: seq<Table<P, S>>
    var partitions: seq<seq<Table<P, S>>>
    var isPartitioned: bool
    // Every row added so far
    ghost var keys: seq<Key>
    ghost var payload: seq<P>

    ghost predicate Shape()
      reads this, unpartitioned, Tables(partitions)
    {
      && 0 < setup.tuplesPerBlock && Lawful(setup.agg) && info.Valid() && |keys| == |payload|
      && ListOk(setup, unpartitioned) && ListsOk(setup, partitions)
      && (if isPartitioned then unpartitioned == [] && |partitions| == info.nPartitions else partitions == [])
    }

    /** The tables hold the aggregates of the rows added, split by partition once partitioned. */
    ghost predicate Valid()
      reads this, unpartitioned, Tables(partitions)
    {
      && Shape()
      && (if isPartitioned then AllAggregate(setup, partitions, keys, payload, info.radixMask)
          else Aggregates(setup.agg, setup.hashOf, Contents(unpartitioned), keys, payload))
    }

    constructor (setup: Setup<P, S>, info: RadixPartitionInfo)
      requires 0 < setup.tuplesPerBlock && Lawful(setup.agg) && info.Valid()
      ensures this.setup == setup && this.info == info
      ensures Valid() && keys == [] && payload == [] && !isPartitioned && unpartitioned == [] && partitions == []
    {
      this.setup, this.info := setup, info;
      unpartitioned, partitions, isPartitioned := [], [], false;
      keys, payload := [], [];
      new;
      forall k ensures AggregatesAt(setup.agg, setup.hashOf, Contents(unpartitioned), keys, payload, k) {
      }
    }

    /** Redistributes the tables built so far by the radix of their groups' hashes. */
    method Partition() returns (ok: bool)
      requires Valid() && !isPartitioned
      modifies this, unpartitioned
      ensures keys == old(keys) && payload == old(payload)
      ensures ok ==> Valid() && isPartitioned && forall t | t in Tables(partitions) :: fresh(t)
      ensures ok <==> Redistributes(setup, old(Contents(unpartitioned)), info.nPartitions, info.radixMask)
    {
      hide ListsOk, AllAggregate, RadixTotal, Lawful, Aggregates, Redistributes, Contents, TableOk, Tables;
      info.EveryHashHasAPartition();
      var lists;
      ok, lists := AggregateByPartition(setup, unpartitioned, info.nPartitions, info.radixMask, keys, payload);
      assert forall t: object | t in Tables(lists) :: t != this;
      partitions, unpartitioned, isPartitioned := lists, [], true;
    }

    method AddUnpartitioned(groups: seq<Key>, hashes: seq<nat>, values: seq<P>) returns (ok: bool)
      requires Valid() && !isPartitioned && ChunkOk(setup, groups, hashes, values)
      modifies this, unpartitioned
      ensures ok ==> Valid() && !isPartitioned && keys == old(keys) + groups && payload == old(payload) + values
      ensures ok <==> |groups| <= MaxGroups(setup)
      ensures partitions == old(partitions) && forall t | t in unpartitioned :: t in old(unpartitioned) || fresh(t)
    {
      hide AllAggregate, Aggregates, Lawful, TableOk;
      var list;
      ok, list := AggregateInto(setup, unpartitioned, groups, hashes, values, keys, payload);
      unpartitioned, keys, payload := list, keys + groups, payload + values;
    }

    method AddPartitioned(groups: seq<Key>, hashes: seq<nat>, values: seq<P>) returns (ok: bool)
      requires Valid() && isPartitioned && ChunkOk(setup, groups, hashes, values)
      modifies this, Tables(partitions)
      ensures ok ==> Valid() && isPartitioned && keys == old(keys) + groups && payload == old(payload) + values
      ensures ok <==> SelectionsFit(setup, hashes, info.nPartitions, info.radixMask)
    {
      hide ListsOk, AllAggregate, RadixTotal, Lawful;
      info.EveryHashHasAPartition();
      var lists;
      ok, lists := AggregateIntoPartitions(setup, partitions, info.radixMask, groups, hashes, values, keys, payload);
      assert forall t: object | t in Tables(lists) :: t != this;
      partitions, keys, payload := lists, keys + groups, payload + values;
    }

    /** Adds a chunk, partitioning first when asked to. After every chunk the tables hold all rows added so far. */
    method AddChunk(groups: seq<Key>, values: seq<P>, doPartition: bool) returns (ok: bool)
      requires Valid() && |groups| == |values| <= STANDARD_VECTOR_SIZE
      requires forall x | 0 <= x < |groups| :: |groups[x]| == setup.columns
      modifies this, unpartitioned, Tables(partitions)
      ensures ok ==> Valid() && isPartitioned == (old(isPartitioned) || doPartition)
      ensures ok ==> keys == old(keys) + groups && payload == old(payload) + values
      ensures AddsChunk(setup, old(Contents(unpartitioned)), info.nPartitions, info.radixMask, Hashed(setup, groups),
                        old(isPartitioned), doPartition, ok)
    {
      hide PartitionsFit, GroupsFit, DistinctKeys, SelectionsFit, Aggregates, AllAggregate;
      var hashes := Hashed(setup, groups);
      ok := true;
      if !isPartitioned && doPartition {
        ok := Partition();
      }
      if ok {
        if isPartitioned {
          ok := AddPartitioned(groups, hashes, values);
        } else {
          ok := AddUnpartitioned(groups, hashes, values);
        }
      }
    }
  }

  lemma {:induction false} HeldIfMerged<P, S>(agg: AggregateFunction<P, S>, list: seq<seq<Tuple<S>>>, k: Key)
    returns (j: nat)
    requires MergeAll(agg, list, k).Some?
    ensures j < |list| && Find(list[j], k).Some?
  {
    if Find(list[|list| - 1], k).Some? {
      j := |list| - 1;
    } else {
      j := HeldIfMerged(agg, list[..|list| - 1], k);
    }
  }

  lemma {:induction false} GroupOfRow<P, S>(agg: AggregateFunction<P, S>, keys: seq<Key>, payload: seq<P>, k: Key)
    requires |keys| == |payload| && k in keys
    ensures GroupState(agg, keys, payload, k).Some?
  {
    var n := |keys| - 1;
    if keys[n] != k {
      GroupOfRow(agg, keys[..n], payload[..n], k);
    }
  }

  /** The group of every row that was added is among the groups of its partition. */
  lemma RowIsGrouped<P(!new), S(!new)>(setup: Setup<P, S>, contents: seq<seq<Tuple<S>>>, keys: seq<Key>,
                                       payload: seq<P>, mask: nat, k: Key)
    requires |keys| == |payload| && k in keys && AllKeyed(setup, contents)
    requires Aggregates(setup.agg, setup.hashOf, contents, keys, payload)
    ensures k in GroupKeys(contents, RadixOf(setup.hashOf(k), mask, RADIX_SHIFT), mask, RADIX_SHIFT)
  {
    GroupOfRow(setup.agg, keys, payload, k);
    assert AggregatesAt(setup.agg, setup.hashOf, contents, keys, payload, k);
    var j := HeldIfMerged(setup.agg, contents, k);
    var r := RadixOf(setup.hashOf(k), mask, RADIX_SHIFT);
    assert Keyed(contents[j], setup.hashOf, setup.columns);
    InPartitionKeys(contents[j], setup.hashOf, setup.columns, r, mask, RADIX_SHIFT, k);
    InGroupKeys(contents, j, r, mask, RADIX_SHIFT, k);
  }

  /** More rows of one partition with different keys than a table can hold cannot be redistributed. */
  lemma RowsDoNotFit<P(!new), S(!new)>(setup: Setup<P, S>, contents: seq<seq<Tuple<S>>>, keys: seq<Key>,
                                       payload: seq<P>, n: nat, mask: nat, r: nat, some: set<Key>)
    requires |keys| == |payload| && AllKeyed(setup, contents)
    requires Aggregates(setup.agg, setup.hashOf, contents, keys, payload)
    requires r < n && |some| > MaxGroups(setup)
    requires forall k | k in some :: k in keys && RadixOf(setup.hashOf(k), mask, RADIX_SHIFT) == r
    ensures !Redistributes(setup, contents, n, mask)
  {
    forall k | k in some ensures k in GroupKeys(contents, r, mask, RADIX_SHIFT) {
      RowIsGrouped(setup, contents, keys, payload, mask, k);
    }
    SubsetSize(some, GroupKeys(contents, r, mask, RADIX_SHIFT));
    if Redistributes(setup, contents, n, mask) {
      FitsOnlyIfFewKeys(contents, n, mask, RADIX_SHIFT, MaxGroups(setup));
    }
  }

  /** The keys of all partitions below `n`. */
  ghost function KeysOfAll<S>(contents: seq<seq<Tuple<S>>>, n: nat, mask: nat): set<Key> {
    if n == 0 then {} else KeysOfAll(contents, n - 1, mask) + GroupKeys(contents, n - 1, mask, RADIX_SHIFT)
  }

  lemma {:induction false} InKeysOfAll<S>(contents: seq<seq<Tuple<S>>>, n: nat, mask: nat, r: nat, k: Key)
    requires r < n && k in GroupKeys(contents, r, mask, RADIX_SHIFT)
    ensures k in KeysOfAll(contents, n, mask)
  {
    if r < n - 1 {
      InKeysOfAll(contents, n - 1, mask, r, k);
    }
  }

  lemma {:induction false} KeysOfAllCount<S>(contents: seq<seq<Tuple<S>>>, n: nat, mask: nat, capacity: nat)
    requires GroupsFit(contents, n, mask, RADIX_SHIFT, capacity)
    ensures |KeysOfAll(contents, n, mask)| <= capacity * n
  {
    if n > 0 {
      KeysOfAllCount(contents, n - 1, mask, capacity);
      UnionSize(KeysOfAll(contents, n - 1, mask), GroupKeys(contents, n - 1, mask, RADIX_SHIFT));
      assert capacity * n == capacity * (n - 1) + capacity;
    }
  }

  /** More keys than all partitions can hold in one table each cannot be redistributed, whatever the hash function. */
  lemma TooManyRows<P(!new), S(!new)>(setup: Setup<P, S>, contents: seq<seq<Tuple<S>>>, keys: seq<Key>, payload: seq<P>,
                                      n: nat, mask: nat, some: set<Key>)
    requires |keys| == |payload| && AllKeyed(setup, contents) && RadixTotal(mask, n)
    requires Aggregates(setup.agg, setup.hashOf, contents, keys, payload)
    requires |some| > MaxGroups(setup) * n && forall k | k in some :: k in keys
    ensures !Redistributes(setup, contents, n, mask)
  {
    hide Aggregates, AllKeyed, MaxGroups;
    forall k | k in some ensures k in KeysOfAll(contents, n, mask) {
      RowIsGrouped(setup, contents, keys, payload, mask, k);
      InKeysOfAll(contents, n, mask, RadixOf(setup.hashOf(k), mask, RADIX_SHIFT), k);
    }
    SubsetSize(some, KeysOfAll(contents, n, mask));
    if Redistributes(setup, contents, n, mask) {
      FitsOnlyIfFewKeys(contents, n, mask, RADIX_SHIFT, MaxGroups(setup));
      KeysOfAllCount(contents, n, mask, MaxGroups(setup));
    }
  }

  /** Different keys of a width. */
  function NumberedKey(i: nat, columns: nat): (k: Key)
    ensures |k| == columns
  {
    seq(columns, c => if c == 0 then Some(i) else None)
  }

  function NumberedKeys(n: nat, columns: nat): (keys: seq<Key>)
    ensures |keys| == n && forall i | 0 <= i < n :: keys[i] == NumberedKey(i, columns)
  {
    seq(n, i requires 0 <= i < n => NumberedKey(i, columns))
  }

  ghost function NumberedSet(n: nat, columns: nat): set<Key> {
    if n == 0 then {} else NumberedSet(n - 1, columns) + {NumberedKey(n - 1, columns)}
  }

  lemma {:induction false} NumberedCount(n: nat, columns: nat)
    requires columns > 0
    ensures |NumberedSet(n, columns)| == n
    ensures forall k | k in NumberedSet(n, columns) :: exists i: nat :: i < n && k == NumberedKey(i, columns)
  {
    if n > 0 {
      NumberedCount(n - 1, columns);
      assert forall i: nat | i < n - 1 :: NumberedKey(i, columns)[0] != NumberedKey(n - 1, columns)[0];
    }
  }

  lemma NumberedDoNotFit<P(!new), S(!new)>(table: PartitionableHashTable<P, S>, count: nat)
    requires table.Valid() && !table.isPartitioned && table.setup.columns > 0
    requires table.keys == NumberedKeys(count, table.setup.columns)
    requires count > MaxGroups(table.setup) * table.info.nPartitions
    ensures !Redistributes(table.setup, Contents(table.unpartitioned), table.info.nPartitions, table.info.radixMask)
  {
    hide Aggregates, Redistributes, TableOk, Lawful, AllAggregate, MaxGroups;
    var setup, some := table.setup, NumberedSet(count, table.setup.columns);
    ListKeyed(setup, table.unpartitioned);
    table.info.EveryHashHasAPartition();
    NumberedCount(count, setup.columns);
    forall k | k in some ensures k in table.keys {
      var i: nat :| i < count && k == NumberedKey(i, setup.columns);
      assert table.keys[i] == k;
    }
    TooManyRows(setup, Contents(table.unpartitioned), table.keys, table.payload, table.info.nPartitions,
                table.info.radixMask, some);
  }

  /** Adds rows with different keys, a chunk each. */
  method AddNumbered<P(!new), S(!new)>(table: PartitionableHashTable<P, S>, count: nat, p: P) returns (added: bool)
    requires table.Valid() && !table.isPartitioned && table.keys == [] && 1 <= MaxGroups(table.setup)
    modifies table, table.unpartitioned
    ensures added && table.Valid() && !table.isPartitioned && table.keys == NumberedKeys(count, table.setup.columns)
    ensures forall t | t in table.unpartitioned :: t in old(table.unpartitioned) || fresh(t)
  {
    hide Aggregates, AllAggregate, TableOk, Lawful, SelectionsFit, Redistributes, NumberedKey, MaxGroups;
    added := true;
    for i := 0 to count
      invariant added && table.Valid() && !table.isPartitioned
      invariant table.keys == NumberedKeys(i, table.setup.columns)
      invariant forall t | t in table.unpartitioned :: t in old(table.unpartitioned) || fresh(t)
    {
      var key := NumberedKey(i, table.setup.columns);
      assert forall x | 0 <= x < |table.unpartitioned| :: table.unpartitioned[x] in table.unpartitioned;
      added := table.AddUnpartitioned([key], [table.setup.hashOf(key)], [p]);
      assert NumberedKeys(i, table.setup.columns) + [key] == NumberedKeys(i + 1, table.setup.columns);
    }
  }

  /**
   * For every setup and every hash function: one row more than fit into one table of every partition, with different
   * keys. Adding the rows makes as many tables as it takes and works; partitioning makes tables for each of them and
   * fails, because all rows of a partition are sent to the same one.
   */
  method PartitioningRunsOut<P(!new), S(!new)>(setup: Setup<P, S>, upperBound: nat, p: P)
    returns (added: bool, partitioned: bool)
    requires Lawful(setup.agg) && 0 < setup.tuplesPerBlock && 0 < setup.columns && 0 < MaxGroups(setup)
    ensures added && !partitioned
  {
    hide Lawful, Aggregates, AllAggregate, Redistributes, ListOk, ListsOk, MaxGroups;
    var info := new RadixPartitionInfo(upperBound);
    var table := new PartitionableHashTable(setup, info);
    var count := MaxGroups(setup) * info.nPartitions + 1;
    added := AddNumbered(table, count, p);
    NumberedDoNotFit(table, count);
    assert forall i | 0 <= i < |table.unpartitioned| :: table.unpartitioned[i] in table.unpartitioned;
    partitioned := table.Partition();
  }
}
