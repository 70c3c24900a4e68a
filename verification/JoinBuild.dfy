/**
 * The build side of the join hash table: rows with a NULL key are filtered out unless the join must return them, the
 * others are serialized into blocks, and the finished blocks are scanned once to link the bucket chains
 * (src/execution/join_hashtable.cpp:226-430).
 */
module JoinBuild {
  import opened Bits
  import opened Common
  import opened JoinChains
  import opened JoinSemantics

  // src/include/guinsoodb/storage/storage_info.hpp
  const BLOCK_ALLOC_SIZE: nat := 262144
  const POINTER_SIZE: nat := 8

  datatype BuildRow<+R> = BuildRow(key: Key, payload: R)

  function AppendIf(s: seq<nat>, i: nat, b: bool): seq<nat> {
    if b then s + [i] else s
  }

  /** The rows below `n` without NULL in the first `c` columns that do not treat NULLs as equal. */
  function KeptUpTo(cs: seq<Condition>, keys: seq<Key>, c: nat, n: nat): (sel: seq<nat>)
    requires c <= |cs| && n <= |keys| && forall i | 0 <= i < |keys| :: |keys[i]| == |cs|
  {
    if n == 0 then []
    else AppendIf(KeptUpTo(cs, keys, c, n - 1), n - 1, KeptColumns(cs, keys[n - 1], c))
  }

  predicate KeptColumns(cs: seq<Condition>, k: Key, c: nat)
    requires c <= |cs| == |k|
  {
    forall d | 0 <= d < c :: !cs[d].nullValuesAreEqual ==> k[d].Some?
  }

  function NotNull(keys: seq<Key>, c: nat, sel: seq<nat>): seq<nat> {
    if sel == [] then []
    else
      var i := sel[|sel| - 1];
      AppendIf(NotNull(keys, c, sel[..|sel| - 1]), i, ValidAt(keys, c, i))
  }

  method FilterNullValues(keys: seq<Key>, c: nat, sel: seq<nat>) returns (result: seq<nat>)
    ensures result == NotNull(keys, c, sel)
  {
    result := [];
    for x := 0 to |sel|
      invariant result == NotNull(keys, c, sel[..x])
    {
      assert sel[..x + 1][..x] == sel[..x];
      var i := sel[x];
      if ValidAt(keys, c, i) {
        result := result + [i];
      }
    }
    assert sel[..|sel|] == sel;
  }

  predicate ValidAt(keys: seq<Key>, c: nat, i: nat) {
    i < |keys| && c < |keys[i]| && keys[i][c].Some?
  }

  lemma NotNullAppendIf(keys: seq<Key>, c: nat, sel: seq<nat>, i: nat, b: bool)
    ensures NotNull(keys, c, AppendIf(sel, i, b)) == AppendIf(NotNull(keys, c, sel), i, b && ValidAt(keys, c, i))
  {
    assert (sel + [i])[..|sel|] == sel;
  }

  lemma KeptColumnsNext(cs: seq<Condition>, k: Key, c: nat)
    requires c < |cs| == |k|
    ensures KeptColumns(cs, k, c + 1) <==> KeptColumns(cs, k, c) && (!cs[c].nullValuesAreEqual ==> k[c].Some?)
  {
  }

  /** Filtering by the next column narrows the selection to the rows valid in that column too. */
  lemma {:induction false} FilterColumn(cs: seq<Condition>, keys: seq<Key>, c: nat, n: nat)
    requires c < |cs| && n <= |keys| && forall i | 0 <= i < |keys| :: |keys[i]| == |cs|
    ensures KeptUpTo(cs, keys, c + 1, n) ==
            if cs[c].nullValuesAreEqual then KeptUpTo(cs, keys, c, n) else NotNull(keys, c, KeptUpTo(cs, keys, c, n))
  {
    hide NotNull, KeptColumns;
    if n > 0 {
      FilterColumn(cs, keys, c, n - 1);
      KeptColumnsNext(cs, keys[n - 1], c);
      NotNullAppendIf(keys, c, KeptUpTo(cs, keys, c, n - 1), n - 1, KeptColumns(cs, keys[n - 1], c));
    } else {
      assert NotNull(keys, c, []) == [] by {
        NotNullEmpty(keys, c);
      }
    }
  }

  lemma NotNullEmpty(keys: seq<Key>, c: nat)
    ensures NotNull(keys, c, []) == []
  {
  }

  lemma {:induction false} KeepAll(cs: seq<Condition>, keys: seq<Key>, n: nat)
    requires n <= |keys| && forall i | 0 <= i < |keys| :: |keys[i]| == |cs|
    ensures KeptUpTo(cs, keys, 0, n) == seq(n, i => i)
  {
    if n > 0 {
      KeepAll(cs, keys, n - 1);
    }
  }

  /** The rows that can find a match, in order; all of them on the build side of a right or full outer join. */
  function PreparedKeys(cs: seq<Condition>, keys: seq<Key>, keepNulls: bool): (sel: seq<nat>)
    requires forall i | 0 <= i < |keys| :: |keys[i]| == |cs|
  {
    if keepNulls then seq(|keys|, i => i) else KeptUpTo(cs, keys, |cs|, |keys|)
  }

  method PrepareKeys(cs: seq<Condition>, keys: seq<Key>, keepNulls: bool) returns (sel: seq<nat>)
    requires forall i | 0 <= i < |keys| :: |keys[i]| == |cs|
    ensures sel == PreparedKeys(cs, keys, keepNulls)
  {
    sel := seq(|keys|, i => i);
    if keepNulls {
      return;
    }
    KeepAll(cs, keys, |keys|);
    for c := 0 to |cs|
      invariant sel == KeptUpTo(cs, keys, c, |keys|)
    {
      FilterColumn(cs, keys, c, |keys|);
      if !cs[c].nullValuesAreEqual {
        sel := FilterNullValues(keys, c, sel);
      }
    }
  }

  ghost predicate Increasing(s: seq<nat>) {
    forall x, y | 0 <= x < y < |s| :: s[x] < s[y]
  }

  lemma IncreasingAppend(s: seq<nat>, i: nat)
    requires Increasing(s) && forall x | x in s :: x < i
    ensures Increasing(s + [i])
  {
    assert forall x | 0 <= x < |s| :: s[x] in s;
  }

  lemma {:induction false} KeptUpToSelects(cs: seq<Condition>, keys: seq<Key>, n: nat)
    requires n <= |keys| && forall i | 0 <= i < |keys| :: |keys[i]| == |cs|
    ensures var sel := KeptUpTo(cs, keys, |cs|, n);
      Increasing(sel) && forall i :: i in sel <==> 0 <= i < n && Kept(cs, keys[i])
  {
    if n > 0 {
      KeptUpToSelects(cs, keys, n - 1);
      IncreasingAppend(KeptUpTo(cs, keys, |cs|, n - 1), n - 1);
      assert KeptColumns(cs, keys[n - 1], |cs|) <==> Kept(cs, keys[n - 1]);
    }
  }

  /** The NULL filter keeps exactly the rows whose keys may match. */
  lemma PreparedKeysSelect(cs: seq<Condition>, keys: seq<Key>, keepNulls: bool)
    requires forall i | 0 <= i < |keys| :: |keys[i]| == |cs|
    ensures var sel := PreparedKeys(cs, keys, keepNulls);
      Increasing(sel) && forall i :: i in sel <==> 0 <= i < |keys| && (keepNulls || Kept(cs, keys[i]))
  {
    if !keepNulls {
      KeptUpToSelects(cs, keys, |keys|);
    } else {
      var sel := PreparedKeys(cs, keys, keepNulls);
      forall i | 0 <= i < |keys| ensures i in sel {
        assert sel[i] == i;
      }
    }
  }

  /** Tuple `t` is a row's key, payload and hash. */
  ghost predicate IsTuple<R>(eq: nat, hashOf: Key -> nat, row: BuildRow<R>, stored: seq<int>, payload: R, hash: nat)
    requires eq <= |row.key|
  {
    stored == StoredKey(row.key) && payload == row.payload && hash == hashOf(row.key[..eq])
  }

  /** Some rows given to the table and where the table stored them. */
  datatype Content<+R> = Content(rows: seq<BuildRow<R>>, origin: seq<nat>, stored: seq<seq<int>>, payloads: seq<R>,
                                 hashes: seq<nat>)

  ghost predicate KeysInRange<R>(cs: seq<Condition>, rows: seq<BuildRow<R>>) {
    forall j | 0 <= j < |rows| :: InRange(rows[j].key, |cs|)
  }

  ghost predicate TupleAt<R>(cs: seq<Condition>, eq: nat, hashOf: Key -> nat, c: Content<R>, t: nat)
    requires eq <= |cs| && KeysInRange(cs, c.rows)
    requires t < |c.origin| == |c.stored| == |c.payloads| == |c.hashes|
  {
    c.origin[t] < |c.rows| && IsTuple(eq, hashOf, c.rows[c.origin[t]], c.stored[t], c.payloads[t], c.hashes[t])
  }

  /** The tuples are the rows that can match, or that must be returned anyway, in order. */
  ghost predicate HoldsRows<R>(cs: seq<Condition>, eq: nat, hashOf: Key -> nat, keepNulls: bool, c: Content<R>) {
    && eq <= |cs| && KeysInRange(cs, c.rows)
    && |c.origin| == |c.stored| == |c.payloads| == |c.hashes|
    && Increasing(c.origin)
    && (forall t | 0 <= t < |c.origin| :: TupleAt(cs, eq, hashOf, c, t))
    && (forall j | 0 <= j < |c.rows| :: j in c.origin <==> keepNulls || Kept(cs, c.rows[j].key))
  }

  function ChunkRows<R>(keys: seq<Key>, payload: seq<R>): (rows: seq<BuildRow<R>>)
    requires |keys| == |payload|
  {
    seq(|keys|, i requires 0 <= i < |keys| => BuildRow(keys[i], payload[i]))
  }

  /** Serializes the selected rows. */
  method Serialize<R>(eq: nat, hashOf: Key -> nat, keys: seq<Key>, payload: seq<R>, sel: seq<nat>)
    returns (stored: seq<seq<int>>, payloads: seq<R>, hashes: seq<nat>)
    requires |keys| == |payload| && forall x | 0 <= x < |sel| :: sel[x] < |keys|
    requires forall i | 0 <= i < |keys| :: eq <= |keys[i]|
    ensures |stored| == |payloads| == |hashes| == |sel|
    ensures forall x | 0 <= x < |sel| ::
      IsTuple(eq, hashOf, BuildRow(keys[sel[x]], payload[sel[x]]), stored[x], payloads[x], hashes[x])
  {
    stored, payloads, hashes := [], [], [];
    for i := 0 to |sel|
      invariant |stored| == |payloads| == |hashes| == i
      invariant forall x | 0 <= x < i ::
        IsTuple(eq, hashOf, BuildRow(keys[sel[x]], payload[sel[x]]), stored[x], payloads[x], hashes[x])
    {
      var idx := sel[i];
      stored, payloads := stored + [StoredKey(keys[idx])], payloads + [payload[idx]];
      hashes := hashes + [hashOf(keys[idx][..eq])];
    }
  }

  ghost function Shifted(sel: seq<nat>, n: nat): (s: seq<nat>)
    ensures |s| == |sel| && forall x | 0 <= x < |sel| :: s[x] == n + sel[x]
  {
    seq(|sel|, x requires 0 <= x < |sel| => n + sel[x])
  }

  ghost function Appended<R>(a: Content<R>, b: Content<R>): Content<R> {
    Content(a.rows + b.rows, a.origin + Shifted(b.origin, |a.rows|), a.stored + b.stored, a.payloads + b.payloads,
            a.hashes + b.hashes)
  }

  lemma IncreasingJoin(a: seq<nat>, b: seq<nat>, n: nat)
    requires Increasing(a) && Increasing(b) && forall x | 0 <= x < |a| :: a[x] < n
    ensures Increasing(a + Shifted(b, n))
  {
  }

  lemma ShiftedMember(sel: seq<nat>, n: nat, j: nat)
    ensures j in Shifted(sel, n) <==> n <= j && j - n in sel
  {
    var s := Shifted(sel, n);
    if n <= j && j - n in sel {
      var x :| 0 <= x < |sel| && sel[x] == j - n;
      assert s[x] == j;
    }
  }

  /** Appending the tuples of a chunk to those of a table. */
  lemma AppendHolds<R>(cs: seq<Condition>, eq: nat, hashOf: Key -> nat, keepNulls: bool, a: Content<R>, b: Content<R>)
    requires HoldsRows(cs, eq, hashOf, keepNulls, a) && HoldsRows(cs, eq, hashOf, keepNulls, b)
    ensures HoldsRows(cs, eq, hashOf, keepNulls, Appended(a, b))
  {
    hide Kept, IsTuple;
    var c := Appended(a, b);
    forall x | 0 <= x < |a.origin| ensures a.origin[x] < |a.rows| {
      assert TupleAt(cs, eq, hashOf, a, x);
    }
    IncreasingJoin(a.origin, b.origin, |a.rows|);
    forall t | 0 <= t < |c.origin| ensures TupleAt(cs, eq, hashOf, c, t) {
      if t < |a.origin| {
        assert TupleAt(cs, eq, hashOf, a, t);
      } else {
        assert TupleAt(cs, eq, hashOf, b, t - |a.origin|);
      }
    }
    forall j | 0 <= j < |c.rows| ensures j in c.origin <==> keepNulls || Kept(cs, c.rows[j].key) {
      ShiftedMember(b.origin, |a.rows|, j);
      if j >= |a.rows| {
        assert c.rows[j] == b.rows[j - |a.rows|];
      }
    }
  }

  /** The tuples of one chunk. */
  lemma ChunkHolds<R>(cs: seq<Condition>, eq: nat, hashOf: Key -> nat, keepNulls: bool, keys: seq<Key>, payload: seq<R>,
                      stored: seq<seq<int>>, payloads: seq<R>, hashes: seq<nat>)
    requires |keys| == |payload| && eq <= |cs|
    requires forall i | 0 <= i < |keys| :: |keys[i]| == |cs| && InRange(keys[i], |cs|)
    requires var sel := PreparedKeys(cs, keys, keepNulls);
      && |stored| == |payloads| == |hashes| == |sel|
      && (forall x | 0 <= x < |sel| :: sel[x] < |keys|)
      && (forall x | 0 <= x < |sel| ::
            IsTuple(eq, hashOf, BuildRow(keys[sel[x]], payload[sel[x]]), stored[x], payloads[x], hashes[x]))
    ensures HoldsRows(cs, eq, hashOf, keepNulls,
                      Content(ChunkRows(keys, payload), PreparedKeys(cs, keys, keepNulls), stored, payloads, hashes))
  {
    hide PreparedKeys, IsTuple;
    PreparedKeysSelect(cs, keys, keepNulls);
  }

  ghost function Total(blocks: seq<nat>): nat {
    if blocks == [] then 0 else Total(blocks[..|blocks| - 1]) + blocks[|blocks| - 1]
  }

  /** No block is over capacity, and only the last one has room. */
  ghost predicate BlocksOk(blocks: seq<nat>, capacity: nat) {
    && (forall b | 0 <= b < |blocks| :: 0 < blocks[b] <= capacity)
    && (forall b | 0 <= b < |blocks| - 1 :: blocks[b] == capacity)
  }

  /** Fills the last block and then allocates blocks until `n` more tuples have room. */
  method AppendToBlocks(blocks: seq<nat>, capacity: nat, n: nat) returns (blocks': seq<nat>)
    requires BlocksOk(blocks, capacity) && 0 < capacity
    ensures BlocksOk(blocks', capacity) && Total(blocks') == Total(blocks) + n
  {
    blocks' := blocks;
    var remaining := n;
    if |blocks| > 0 && blocks[|blocks| - 1] < capacity {
      var last := |blocks| - 1;
      var count := Min(remaining, capacity - blocks[last]);
      blocks' := blocks[last := blocks[last] + count];
      assert blocks'[..last] == blocks[..last];
      remaining := remaining - count;
    }
    while remaining > 0
      invariant BlocksOk(blocks', capacity) && Total(blocks') + remaining == Total(blocks) + n
      invariant remaining > 0 && |blocks'| > 0 ==> blocks'[|blocks'| - 1] == capacity
    {
      var count := Min(remaining, capacity);
      assert (blocks' + [count])[..|blocks'|] == blocks';
      blocks' := blocks' + [count];
      remaining := remaining - count;
    }
  }

  /** Reads the hashes of `n` tuples, before their slots become links. */
  method LoadHashes(slots: seq<Slot>, at: nat, n: nat, ghost hashes: seq<nat>) returns (loaded: seq<nat>)
    requires at + n <= |slots| == |hashes| && forall t | at <= t < |slots| :: slots[t] == Hash(hashes[t])
    ensures loaded == hashes[at..at + n]
  {
    loaded := [];
    for i := 0 to n
      invariant loaded == hashes[at..at + i]
    {
      loaded := loaded + [slots[at + i].hash];
    }
  }

  ghost predicate BucketsOf(buckets: seq<nat>, hashes: seq<nat>, bitmask: nat) {
    |buckets| == |hashes| && forall t | 0 <= t < |hashes| :: buckets[t] == And(hashes[t], bitmask)
  }

  /** Puts consecutive tuples at the front of the chains of their buckets. */
  method InsertHashes(loaded: seq<nat>, at: nat, slots: seq<Slot>, heads: seq<Option<nat>>, bitmask: nat,
                      ghost hashes: seq<nat>, ghost buckets: seq<nat>)
    returns (slots': seq<Slot>, heads': seq<Option<nat>>)
    requires Linked(slots, heads, hashes, buckets, at) && BucketsOf(buckets, hashes, bitmask)
    requires at + |loaded| <= |slots| && loaded == hashes[at..at + |loaded|]
    ensures Linked(slots', heads', hashes, buckets, at + |loaded|)
    ensures |slots'| == |slots| && |heads'| == |heads|
  {
    hide Linked, LinkedAt, HeadAt;
    HashesNotYetRead(slots, heads, hashes, buckets, at);
    slots', heads' := slots, heads;
    for i := 0 to |loaded|
      invariant Linked(slots', heads', hashes, buckets, at + i)
      invariant |slots'| == |slots| && |heads'| == |heads|
    {
      var index := And(loaded[i], bitmask);
      BucketInRange(slots', heads', hashes, buckets, at + i);
      assert loaded[i] == hashes[at + i];
      assert index == buckets[at + i];
      ghost var slots0, heads0 := slots', heads';
      slots' := slots'[at + i := Next(heads'[index])];
      heads' := heads'[index := Some(at + i)];
      LinkNext(slots0, heads0, hashes, buckets, at + i, slots', heads');
    }
  }

  lemma BucketInRange(slots: seq<Slot>, heads: seq<Option<nat>>, hashes: seq<nat>, buckets: seq<nat>, t: nat)
    requires t < |slots| && Linked(slots, heads, hashes, buckets, t)
    ensures t < |buckets| && buckets[t] < |heads|
  {
  }

  lemma HashesNotYetRead(slots: seq<Slot>, heads: seq<Option<nat>>, hashes: seq<nat>, buckets: seq<nat>, n: nat)
    requires Linked(slots, heads, hashes, buckets, n)
    ensures |slots| == |hashes| && forall t | n <= t < |slots| :: slots[t] == Hash(hashes[t])
  {
  }

  /** Links the tuples of one block, a vector at a time. */
  method LinkBlock(count: nat, at: nat, slots: seq<Slot>, heads: seq<Option<nat>>, bitmask: nat,
                   ghost hashes: seq<nat>, ghost buckets: seq<nat>)
    returns (slots': seq<Slot>, heads': seq<Option<nat>>)
    requires Linked(slots, heads, hashes, buckets, at) && BucketsOf(buckets, hashes, bitmask) && at + count <= |slots|
    ensures Linked(slots', heads', hashes, buckets, at + count)
    ensures |slots'| == |slots| && |heads'| == |heads|
  {
    hide Linked, BucketsOf;
    slots', heads' := slots, heads;
    var entry := 0;
    while entry < count
      invariant 0 <= entry <= count && |slots'| == |slots| && |heads'| == |heads|
      invariant Linked(slots', heads', hashes, buckets, at + entry)
    {
      var next := Min(STANDARD_VECTOR_SIZE, count - entry);
      HashesNotYetRead(slots', heads', hashes, buckets, at + entry);
      var loaded := LoadHashes(slots', at + entry, next, hashes);
      slots', heads' := InsertHashes(loaded, at + entry, slots', heads', bitmask, hashes, buckets);
      entry := entry + next;
    }
  }

  lemma {:induction false} TotalPrefix(blocks: seq<nat>, b: nat)
    requires b < |blocks|
    ensures Total(blocks[..b + 1]) == Total(blocks[..b]) + blocks[b] <= Total(blocks)
    decreases |blocks|
  {
    assert blocks[..b + 1][..b] == blocks[..b];
    var last := |blocks| - 1;
    if b < last {
      TotalPrefix(blocks[..last], b);
      assert blocks[..last][..b + 1] == blocks[..b + 1] && blocks[..last][..b] == blocks[..b];
    } else {
      assert blocks[..b + 1] == blocks;
    }
  }

  lemma NothingLinked(slots: seq<Slot>, heads: seq<Option<nat>>, hashes: seq<nat>, buckets: seq<nat>)
    requires |slots| == |hashes| == |buckets| && forall t | 0 <= t < |slots| :: slots[t] == Hash(hashes[t])
    requires forall t | 0 <= t < |buckets| :: buckets[t] < |heads|
    requires forall b | 0 <= b < |heads| :: heads[b] == None
    ensures Linked(slots, heads, hashes, buckets, 0)
  {
    forall b | 0 <= b < |heads| ensures HeadAt(heads, buckets, 0, b) {
    }
  }

  /** Scans the blocks once and links every tuple into the chain of its bucket. */
  method LinkBlocks(blocks: seq<nat>, slots: seq<Slot>, capacity: nat, ghost hashes: seq<nat>, ghost buckets: seq<nat>)
    returns (slots': seq<Slot>, heads: seq<Option<nat>>)
    requires 0 < capacity && |slots| == |hashes| == Total(blocks)
    requires forall t | 0 <= t < |slots| :: slots[t] == Hash(hashes[t])
    requires BucketsOf(buckets, hashes, capacity - 1) && forall t | 0 <= t < |buckets| :: buckets[t] < capacity
    ensures Linked(slots', heads, hashes, buckets, |slots'|) && |heads| == capacity && |slots'| == |slots|
  {
    hide Linked, BucketsOf;
    slots', heads := slots, seq(capacity, _ => None);
    assert |buckets| == |hashes| by {
      BucketsLength(buckets, hashes, capacity - 1);
    }
    NothingLinked(slots', heads, hashes, buckets);
    var dataptr := 0;
    for b := 0 to |blocks|
      invariant dataptr == Total(blocks[..b]) && |slots'| == |slots| && |heads| == capacity
      invariant Linked(slots', heads, hashes, buckets, dataptr)
    {
      TotalPrefix(blocks, b);
      slots', heads := LinkBlock(blocks[b], dataptr, slots', heads, capacity - 1, hashes, buckets);
      dataptr := dataptr + blocks[b];
    }
    assert blocks[..|blocks|] == blocks;
  }

  lemma BucketsLength(buckets: seq<nat>, hashes: seq<nat>, bitmask: nat)
    requires BucketsOf(buckets, hashes, bitmask)
    ensures |buckets| == |hashes|
  {
  }
}
