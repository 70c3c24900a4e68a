/**
 * The join hash table: building, probing and the join types (src/execution/join_hashtable.cpp).
 */
module JoinHashTable {
  import opened Bits
  import opened Common
  import opened JoinBuild
  import opened JoinChains
  import opened JoinResults
  import opened JoinScan
  import opened JoinSemantics

  /** The bucket of every probe key. */
  ghost predicate HomesOf(home: seq<nat>, eq: nat, hashOf: Key -> nat, keys: seq<Key>, bitmask: nat) {
    |home| == |keys| && forall i | 0 <= i < |keys| :: eq <= |keys[i]| && home[i] == And(hashOf(keys[i][..eq]), bitmask)
  }

  ghost predicate KeysOk(cs: seq<Condition>, keys: seq<Key>) {
    forall i | 0 <= i < |keys| :: |keys[i]| == |cs| && InRange(keys[i], |cs|)
  }

  /** Matching rows are in the same bucket. */
  lemma MatchesShareBucket<R>(cs: seq<Condition>, eq: nat, hashOf: Key -> nat, keepNulls: bool, c: Content<R>,
                              buckets: seq<nat>, bitmask: nat, keys: seq<Key>, home: seq<nat>, ops: Operands, i: nat,
                              t: nat)
    requires ConditionsOk(cs, eq) && HoldsRows(cs, eq, hashOf, keepNulls, c) && KeysOk(cs, keys)
    requires ops == Operands(cs, keys, c.stored) && OperandsOk(ops) && Matches(ops, i, t)
    requires BucketsOf(buckets, c.hashes, bitmask) && HomesOf(home, eq, hashOf, keys, bitmask)
    ensures buckets[t] == home[i]
  {
    assert TupleAt(cs, eq, hashOf, c, t);
    MatchAgreesOnHashedColumns(cs, eq, keys[i], c.rows[c.origin[t]].key);
  }

  ghost predicate StartAt(cs: seq<Condition>, heads: seq<Option<nat>>, home: seq<nat>, keys: seq<Key>,
                          pointers: seq<Option<nat>>, i: nat)
    requires i < |keys| == |home| == |pointers|
  {
    && |keys[i]| == |cs| && home[i] < |heads|
    && pointers[i] == if Kept(cs, keys[i]) then heads[home[i]] else None
  }

  /** A fresh scan points every row that may match at the head of its chain. */
  ghost predicate Started(cs: seq<Condition>, heads: seq<Option<nat>>, home: seq<nat>, keys: seq<Key>,
                          pointers: seq<Option<nat>>) {
    |keys| == |home| == |pointers| && forall i | 0 <= i < |keys| :: StartAt(cs, heads, home, keys, pointers, i)
  }

  lemma StoredLengths<R>(cs: seq<Condition>, eq: nat, hashOf: Key -> nat, keepNulls: bool, c: Content<R>,
                         keys: seq<Key>)
    requires HoldsRows(cs, eq, hashOf, keepNulls, c) && KeysOk(cs, keys)
    ensures OperandsOk(Operands(cs, keys, c.stored))
  {
    forall t | 0 <= t < |c.stored| ensures |c.stored[t]| == |cs| {
      assert TupleAt(cs, eq, hashOf, c, t);
    }
  }

  lemma StartPositioned<R>(cs: seq<Condition>, eq: nat, hashOf: Key -> nat, keepNulls: bool, c: Content<R>,
                           slots: seq<Slot>, heads: seq<Option<nat>>, buckets: seq<nat>, bitmask: nat, keys: seq<Key>,
                           home: seq<nat>, pointers: seq<Option<nat>>)
    requires ConditionsOk(cs, eq) && HoldsRows(cs, eq, hashOf, keepNulls, c) && KeysOk(cs, keys)
    requires Linked(slots, heads, c.hashes, buckets, |slots|) && BucketsOf(buckets, c.hashes, bitmask)
    requires HomesOf(home, eq, hashOf, keys, bitmask) && Started(cs, heads, home, keys, pointers)
    ensures Positioned(Operands(cs, keys, c.stored), buckets, home, pointers)
    ensures Chained(slots, buckets)
    ensures forall i | 0 <= i < |keys| :: NoMatchAbove(Operands(cs, keys, c.stored), pointers[i], i)
  {
    hide GathersAll, IsTuple, InRange, KeysInRange;
    StoredLengths(cs, eq, hashOf, keepNulls, c, keys);
    var ops := Operands(cs, keys, c.stored);
    forall i: nat, t: nat | Matches(ops, i, t) ensures buckets[t] == home[i] {
      MatchesShareBucket(cs, eq, hashOf, keepNulls, c, buckets, bitmask, keys, home, ops, i, t);
    }
    forall i | 0 <= i < |keys| ensures PointerOk(ops, buckets, home, pointers, i) && NoMatchAbove(ops, pointers[i], i) {
      assert StartAt(cs, heads, home, keys, pointers, i);
      assert HeadAt(heads, buckets, |slots|, home[i]);
    }
  }

  lemma StartScan<R>(cs: seq<Condition>, eq: nat, hashOf: Key -> nat, keepNulls: bool, c: Content<R>, slots: seq<Slot>,
                     heads: seq<Option<nat>>, buckets: seq<nat>, bitmask: nat, keys: seq<Key>, home: seq<nat>,
                     pointers: seq<Option<nat>>, sel: seq<nat>)
    requires ConditionsOk(cs, eq) && HoldsRows(cs, eq, hashOf, keepNulls, c) && KeysOk(cs, keys)
    requires Linked(slots, heads, c.hashes, buckets, |slots|) && BucketsOf(buckets, c.hashes, bitmask)
    requires HomesOf(home, eq, hashOf, keys, bitmask) && Started(cs, heads, home, keys, pointers)
    requires SelectsAll(sel, pointers)
    ensures InScan(Operands(cs, keys, c.stored), buckets, home, slots, pointers, sel, [])
    ensures InSearch(Operands(cs, keys, c.stored), buckets, home, slots, pointers, sel, seq(|keys|, _ => false))
  {
    hide HoldsRows, Linked, BucketsOf, HomesOf, KeysOk;
    StartPositioned(cs, eq, hashOf, keepNulls, c, slots, heads, buckets, bitmask, keys, home, pointers);
    var ops := Operands(cs, keys, c.stored);
    var none := seq(|keys|, _ => false);
    forall i: nat, t: nat | i < |pointers| ensures EmittedAt(ops, pointers, [], i, t) {
      assert NoMatchAbove(ops, pointers[i], i);
    }
    forall i | 0 <= i < |pointers| ensures SearchAt(ops, pointers, sel, none, i) {
      assert NoMatchAbove(ops, pointers[i], i);
    }
  }

  lemma {:induction false} AndBound(a: nat, b: nat)
    ensures And(a, b) <= b
  {
    if a != 0 && b != 0 {
      AndBound(a / 2, b / 2);
    }
  }

  ghost function Homes(eq: nat, hashOf: Key -> nat, keys: seq<Key>, bitmask: nat): (home: seq<nat>)
    requires forall i | 0 <= i < |keys| :: eq <= |keys[i]|
    ensures HomesOf(home, eq, hashOf, keys, bitmask)
  {
    seq<nat>(|keys|, i requires 0 <= i < |keys| => And(hashOf(keys[i][..eq]), bitmask))
  }

  /** The rows of `sel` point at the heads of their chains and the others nowhere. */
  ghost predicate PointsAtHeads(heads: seq<Option<nat>>, home: seq<nat>, sel: seq<nat>, pointers: seq<Option<nat>>,
                                i: nat)
    requires i < |pointers| == |home|
  {
    home[i] < |heads| && pointers[i] == if i in sel then heads[home[i]] else None
  }

  /** Points the selected rows at their chains and keeps those whose chain is not empty. */
  method ProbeHeads(eq: nat, hashOf: Key -> nat, heads: seq<Option<nat>>, bitmask: nat, keys: seq<Key>, sel: seq<nat>)
    returns (pointers: seq<Option<nat>>, sel': seq<nat>)
    requires |heads| == bitmask + 1 && forall i | 0 <= i < |keys| :: eq <= |keys[i]|
    requires NoDuplicates(sel) && forall x | 0 <= x < |sel| :: sel[x] < |keys|
    ensures |pointers| == |keys| && SelectsAll(sel', pointers)
    ensures var home := Homes(eq, hashOf, keys, bitmask);
      forall i | 0 <= i < |keys| :: PointsAtHeads(heads, home, sel, pointers, i)
  {
    ghost var home := Homes(eq, hashOf, keys, bitmask);
    forall i | 0 <= i < |keys| ensures home[i] < |heads| {
      AndBound(hashOf(keys[i][..eq]), bitmask);
    }
    pointers, sel' := seq(|keys|, _ => None), [];
    for x := 0 to |sel|
      invariant |pointers| == |keys|
      invariant forall i | 0 <= i < |keys| :: PointsAtHeads(heads, home, sel[..x], pointers, i)
      invariant NoDuplicates(sel') && forall i :: i in sel' <==> i in sel[..x] && i < |keys| && pointers[i].Some?
    {
      var idx := sel[x];
      assert sel[..x + 1] == sel[..x] + [idx] && idx !in sel[..x];
      var bucket := And(hashOf(keys[idx][..eq]), bitmask);
      assert bucket == home[idx];
      ghost var before := pointers;
      pointers := pointers[idx := heads[bucket]];
      if pointers[idx].Some? {
        sel' := sel' + [idx];
      }
      ghost var done := sel[..x + 1];
      forall i | 0 <= i < |keys| ensures PointsAtHeads(heads, home, done, pointers, i) {
        assert PointsAtHeads(heads, home, sel[..x], before, i);
      }
    }
    assert sel[..|sel|] == sel;
    assert forall x | 0 <= x < |sel'| :: sel'[x] in sel';
    forall i: nat | i < |pointers| && pointers[i].Some? ensures i in sel' {
      assert PointsAtHeads(heads, home, sel, pointers, i);
    }
  }

  /** Where a scan for unmatched tuples stopped. */
  datatype ScanPosition = ScanPosition(block: nat, position: nat)

  ghost predicate PositionOk(blocks: seq<nat>, p: ScanPosition) {
    p.block <= |blocks| && p.position <= if p.block < |blocks| then blocks[p.block] else 0
  }

  ghost function Flat(blocks: seq<nat>, p: ScanPosition): nat
    requires p.block <= |blocks|
  {
    Total(blocks[..p.block]) + p.position
  }

  /** The tuples from `from` up to `end` that found no match. */
  ghost function Unmatched(found: seq<bool>, from: nat, end: nat): (tuples: seq<nat>)
    requires from <= end <= |found|
    decreases end
  {
    if from == end then [] else Unmatched(found, from, end - 1) + if found[end - 1] then [] else [end - 1]
  }

  lemma {:induction false} UnmatchedSplit(found: seq<bool>, from: nat, mid: nat, end: nat)
    requires from <= mid <= end <= |found|
    ensures Unmatched(found, from, end) == Unmatched(found, from, mid) + Unmatched(found, mid, end)
    decreases end
  {
    if mid < end {
      UnmatchedSplit(found, from, mid, end - 1);
    }
  }

  /** Collects unmatched tuples of one block until the vector is full. */
  method ScanBlock(found: seq<bool>, base: nat, count: nat, position: nat, collected: seq<nat>)
    returns (collected': seq<nat>, position': nat)
    requires position <= count && base + count <= |found| && |collected| < STANDARD_VECTOR_SIZE
    ensures position <= position' <= count && |collected'| <= STANDARD_VECTOR_SIZE
    ensures collected' == collected + Unmatched(found, base + position, base + position')
    ensures |collected'| < STANDARD_VECTOR_SIZE ==> position' == count
  {
    collected', position' := collected, position;
    while position' < count
      invariant position <= position' <= count && |collected'| < STANDARD_VECTOR_SIZE
      invariant collected' == collected + Unmatched(found, base + position, base + position')
    {
      if !found[base + position'] {
        collected' := collected' + [base + position'];
        if |collected'| == STANDARD_VECTOR_SIZE {
          position' := position' + 1;
          return;
        }
      }
      position' := position' + 1;
    }
  }

  /** Collects the next vector of tuples that found no match. */
  method ScanUnmatched(blocks: seq<nat>, found: seq<bool>, state: ScanPosition)
    returns (tuples: seq<nat>, state': ScanPosition)
    requires PositionOk(blocks, state) && Total(blocks) == |found|
    ensures PositionOk(blocks, state') && Flat(blocks, state) <= Flat(blocks, state') <= |found|
    ensures tuples == Unmatched(found, Flat(blocks, state), Flat(blocks, state')) && |tuples| <= STANDARD_VECTOR_SIZE
    ensures |tuples| < STANDARD_VECTOR_SIZE ==> Flat(blocks, state') == |found|
  {
    FlatBound(blocks, state);
    tuples, state' := [], state;
    while state'.block < |blocks|
      invariant PositionOk(blocks, state') && |tuples| < STANDARD_VECTOR_SIZE
      invariant Flat(blocks, state) <= Flat(blocks, state') <= |found|
      invariant tuples == Unmatched(found, Flat(blocks, state), Flat(blocks, state'))
      decreases |blocks| - state'.block
    {
      var b := state'.block;
      TotalPrefix(blocks, b);
      ghost var base, middle := Total(blocks[..b]), Flat(blocks, state');
      var next, position := ScanBlock(found, BlockStart(blocks, b), blocks[b], state'.position, tuples);
      UnmatchedSplit(found, Flat(blocks, state), middle, base + position);
      tuples, state' := next, ScanPosition(b, position);
      if |tuples| == STANDARD_VECTOR_SIZE {
        return;
      }
      state' := ScanPosition(b + 1, 0);
    }
    assert blocks[..|blocks|] == blocks;
  }

  function BlockStart(blocks: seq<nat>, b: nat): (n: nat)
    requires b <= |blocks|
    ensures n == Total(blocks[..b])
  {
    if b == 0 then 0 else
      assert blocks[..b][..b - 1] == blocks[..b - 1];
      BlockStart(blocks, b - 1) + blocks[b - 1]
  }

  lemma FlatBound(blocks: seq<nat>, p: ScanPosition)
    requires PositionOk(blocks, p)
    ensures Flat(blocks, p) <= Total(blocks)
  {
    if p.block < |blocks| {
      TotalPrefix(blocks, p.block);
    } else {
      assert blocks[..p.block] == blocks;
    }
  }

  /** Some of `n` rows have no tuple. */
  ghost predicate Drops(n: nat, origin: seq<nat>) {
    exists j :: 0 <= j < n && j !in origin
  }

  /** A table that is being filled. */
  ghost predicate Filling<R>(cs: seq<Condition>, eq: nat, hashOf: Key -> nat, kind: JoinType, c: Content<R>,
                             slots: seq<Slot>, found: seq<bool>, blocks: seq<nat>, capacity: nat, hasNull: bool) {
    && ConditionsOk(cs, eq) && HoldsRows(cs, eq, hashOf, kind.IsRightOuter(), c)
    && |slots| == |c.hashes| && (forall t | 0 <= t < |slots| :: slots[t] == Hash(c.hashes[t]))
    && |found| == |slots| && (forall t | 0 <= t < |found| :: !found[t])
    && 0 < capacity && BlocksOk(blocks, capacity) && Total(blocks) == |slots|
    && (hasNull <==> Drops(|c.rows|, c.origin))
  }

  /** A table whose chains are linked. */
  ghost predicate Built<R>(cs: seq<Condition>, eq: nat, hashOf: Key -> nat, kind: JoinType, c: Content<R>,
                           slots: seq<Slot>, found: seq<bool>, blocks: seq<nat>, hasNull: bool, heads: seq<Option<nat>>,
                           bitmask: nat, buckets: seq<nat>) {
    && ConditionsOk(cs, eq) && HoldsRows(cs, eq, hashOf, kind.IsRightOuter(), c)
    && Linked(slots, heads, c.hashes, buckets, |slots|) && BucketsOf(buckets, c.hashes, bitmask)
    && |heads| == bitmask + 1 && |found| == |slots| == Total(blocks)
    && (hasNull <==> Drops(|c.rows|, c.origin))
  }

  lemma {:induction false} SomeDropped(cs: seq<Condition>, keys: seq<Key>, n: nat)
    requires n <= |keys| && forall i | 0 <= i < |keys| :: |keys[i]| == |cs|
    ensures |KeptUpTo(cs, keys, |cs|, n)| <= n
    ensures |KeptUpTo(cs, keys, |cs|, n)| < n <==> exists i :: 0 <= i < n && !Kept(cs, keys[i])
  {
    if n > 0 {
      SomeDropped(cs, keys, n - 1);
      assert KeptColumns(cs, keys[n - 1], |cs|) <==> Kept(cs, keys[n - 1]);
    }
  }

  /** Fewer rows are kept than given exactly when some row is not. */
  lemma DroppedRows(cs: seq<Condition>, keys: seq<Key>, keepNulls: bool)
    requires forall i | 0 <= i < |keys| :: |keys[i]| == |cs|
    ensures var sel := PreparedKeys(cs, keys, keepNulls);
      |sel| < |keys| <==> Drops(|keys|, sel)
  {
    SomeDropped(cs, keys, |keys|);
    PreparedKeysSelect(cs, keys, keepNulls);
  }

  lemma FillMore<R>(cs: seq<Condition>, eq: nat, hashOf: Key -> nat, kind: JoinType, a: Content<R>, b: Content<R>,
                    slots: seq<Slot>, found: seq<bool>, blocks: seq<nat>, capacity: nat, hasNull: bool,
                    slots': seq<Slot>, found': seq<bool>, blocks': seq<nat>, dropped: bool)
    requires dropped <==> Drops(|b.rows|, b.origin)
    requires Filling(cs, eq, hashOf, kind, a, slots, found, blocks, capacity, hasNull)
    requires HoldsRows(cs, eq, hashOf, kind.IsRightOuter(), b)
    requires |slots'| == |slots| + |b.hashes| == |found'|
    requires forall t | 0 <= t < |slots| :: slots'[t] == slots[t]
    requires forall t | 0 <= t < |b.hashes| :: slots'[|slots| + t] == Hash(b.hashes[t])
    requires forall t | 0 <= t < |found'| :: !found'[t]
    requires BlocksOk(blocks', capacity) && Total(blocks') == |slots'|
    ensures Filling(cs, eq, hashOf, kind, Appended(a, b), slots', found', blocks', capacity, hasNull || dropped)
  {
    hide HoldsRows, BlocksOk, ConditionsOk, Total, Drops;
    AppendHolds(cs, eq, hashOf, kind.IsRightOuter(), a, b);
    var c := Appended(a, b);
    assert hasNull || dropped <==> Drops(|c.rows|, c.origin) by {
      AppendedDrops(cs, eq, hashOf, kind.IsRightOuter(), a, b);
    }
  }

  lemma AppendedDrops<R>(cs: seq<Condition>, eq: nat, hashOf: Key -> nat, keepNulls: bool, a: Content<R>, b: Content<R>)
    requires HoldsRows(cs, eq, hashOf, keepNulls, a) && HoldsRows(cs, eq, hashOf, keepNulls, b)
    ensures Drops(|a.rows|, a.origin) || Drops(|b.rows|, b.origin) <==>
            Drops(|Appended(a, b).rows|, Appended(a, b).origin)
  {
    hide IsTuple, InRange, Kept;
    var c := Appended(a, b);
    forall x | 0 <= x < |a.origin| ensures a.origin[x] < |a.rows| {
      assert TupleAt(cs, eq, hashOf, a, x);
    }
    forall j: nat | j < |c.rows|
      ensures j in c.origin <==> if j < |a.rows| then j in a.origin else j - |a.rows| in b.origin
    {
      ShiftedMember(b.origin, |a.rows|, j);
    }
    if j :| 0 <= j < |b.rows| && j !in b.origin {
      assert j + |a.rows| !in c.origin;
    }
  }

  function Max(a: nat, b: nat): nat {
    if a < b then b else a
  }

  function HashSlots(hashes: seq<nat>): (slots: seq<Slot>)
    ensures |slots| == |hashes| && forall t | 0 <= t < |hashes| :: slots[t] == Hash(hashes[t])
  {
    seq(|hashes|, t requires 0 <= t < |hashes| => Hash(hashes[t]))
  }

  /** Filters and serializes the rows of a chunk. */
  method PrepareTuples<R>(cs: seq<Condition>, eq: nat, hashOf: Key -> nat, keepNulls: bool, keys: seq<Key>,
                          payload: seq<R>)
    returns (sel: seq<nat>, stored: seq<seq<int>>, payloads: seq<R>, hashes: seq<nat>)
    requires ConditionsOk(cs, eq) && KeysOk(cs, keys) && |keys| == |payload|
    ensures |stored| == |payloads| == |hashes| == |sel|
    ensures HoldsRows(cs, eq, hashOf, keepNulls, Content(ChunkRows(keys, payload), sel, stored, payloads, hashes))
    ensures |sel| < |keys| <==> Drops(|keys|, sel)
  {
    hide HoldsRows, PreparedKeys, InRange;
    sel := PrepareKeys(cs, keys, keepNulls);
    PreparedKeysSelect(cs, keys, keepNulls);
    DroppedRows(cs, keys, keepNulls);
    assert forall x | 0 <= x < |sel| :: sel[x] in sel;
    stored, payloads, hashes := Serialize(eq, hashOf, keys, payload, sel);
    ChunkHolds(cs, eq, hashOf, keepNulls, keys, payload, stored, payloads, hashes);
  }

  /** Appends the tuples of a chunk to the blocks. */
  method FillChunk<R>(cs: seq<Condition>, eq: nat, hashOf: Key -> nat, kind: JoinType, stored: seq<seq<int>>,
                      payloads: seq<R>, slots: seq<Slot>, found: seq<bool>, blocks: seq<nat>, capacity: nat,
                      hasNull: bool, keys: seq<Key>, payload: seq<R>, ghost c: Content<R>)
    returns (stored': seq<seq<int>>, payloads': seq<R>, slots': seq<Slot>, found': seq<bool>, blocks': seq<nat>,
             hasNull': bool, ghost c': Content<R>)
    requires c.stored == stored && c.payloads == payloads && KeysOk(cs, keys) && |keys| == |payload|
    requires Filling(cs, eq, hashOf, kind, c, slots, found, blocks, capacity, hasNull)
    ensures c'.stored == stored' && c'.payloads == payloads' && c'.rows == c.rows + ChunkRows(keys, payload)
    ensures Filling(cs, eq, hashOf, kind, c', slots', found', blocks', capacity, hasNull')
  {
    hide Filling, HoldsRows, BlocksOk, Total, ConditionsOk, KeysOk, Drops;
    FillingBlocks(cs, eq, hashOf, kind, c, slots, found, blocks, capacity, hasNull);
    var sel, newStored, newPayloads, newHashes := PrepareTuples(cs, eq, hashOf, kind.IsRightOuter(), keys, payload);
    ghost var chunk := Content(ChunkRows(keys, payload), sel, newStored, newPayloads, newHashes);
    blocks' := AppendToBlocks(blocks, capacity, |sel|);
    stored', payloads' := stored + newStored, payloads + newPayloads;
    slots', found' := slots + HashSlots(newHashes), found + seq(|sel|, _ => false);
    hasNull' := hasNull || |sel| < |keys|;
    c' := Appended(c, chunk);
    FillMore(cs, eq, hashOf, kind, c, chunk, slots, found, blocks, capacity, hasNull, slots', found', blocks',
             |sel| < |keys|);
  }

  class JoinHashTable<R(!new)> {
    const conditions: seq<Condition>
    // The conditions before this one are the equalities
    const equalities: nat
    const hashOf: Key -> nat
    const joinType: JoinType
    const blockCapacity: nat
    // The number of tuples in every block
    var blocks: seq<nat>
    var stored: seq<seq<int>>
    var payloads: seq<R>
    var slots: seq<Slot>
    var found: seq<bool>
    var hasNull: bool
    var finalized: bool
    var heads: seq<Option<nat>>
    var bitmask: nat
    // Every row given to Build, and where the tuples come from
    ghost var rows: seq<BuildRow<R>>
    ghost var origin: seq<nat>
    ghost var hashes: seq<nat>
    ghost var buckets: seq<nat>

    ghost function Tuples(): Content<R>
      reads this
    {
      Content(rows, origin, stored, payloads, hashes)
    }

    ghost predicate Building()
      reads this
    {
      && !finalized
      && Filling(conditions, equalities, hashOf, joinType, Tuples(), slots, found, blocks, blockCapacity, hasNull)
    }

    ghost predicate Ready()
      reads this
    {
      && finalized
      && Built(conditions, equalities, hashOf, joinType, Tuples(), slots, found, blocks, hasNull, heads, bitmask,
               buckets)
    }

    constructor (conditions: seq<Condition>, equalities: nat, hashOf: Key -> nat, joinType: JoinType, entrySize: nat)
      requires ConditionsOk(conditions, equalities) && 0 < entrySize
      ensures this.conditions == conditions && this.equalities == equalities && this.hashOf == hashOf
      ensures this.joinType == joinType && Building() && rows == []
    {
      this.conditions, this.equalities, this.hashOf, this.joinType := conditions, equalities, hashOf, joinType;
      blockCapacity := Max(STANDARD_VECTOR_SIZE, BLOCK_ALLOC_SIZE / entrySize + 1);
      blocks, stored, payloads, slots, found := [], [], [], [], [];
      hasNull, finalized, heads, bitmask := false, false, [], 0;
      rows, origin, hashes, buckets := [], [], [], [];
    }

    /** Adds a chunk of rows; those that can match nothing are dropped, and remembered in `hasNull`. */
    method Build(keys: seq<Key>, payload: seq<R>)
      requires Building() && KeysOk(conditions, keys) && |keys| == |payload| <= STANDARD_VECTOR_SIZE
      modifies this
      ensures Building() && rows == old(rows) + ChunkRows(keys, payload)
    {
      hide Filling, KeysOk;
      ghost var c;
      stored, payloads, slots, found, blocks, hasNull, c := FillChunk(
        conditions, equalities, hashOf, joinType, stored, payloads, slots, found, blocks, blockCapacity, hasNull, keys,
        payload, Tuples());
      rows, origin, hashes := c.rows, c.origin, c.hashes;
    }

    /** Sizes the bucket array to at least twice the tuples and links every tuple into its bucket's chain. */
    method Finalize()
      requires Building() && |slots| <= TWO_TO_62
      modifies this
      ensures Ready() && rows == old(rows) && origin == old(origin) && stored == old(stored)
      ensures payloads == old(payloads)
      ensures hasNull == old(hasNull) && found == old(found) && |slots| == old(|slots|)
      ensures IsPowerOfTwo(|heads|) && 2 * |slots| <= |heads|
    {
      hide Filling, Built;
      FillingBlocks(conditions, equalities, hashOf, joinType, Tuples(), slots, found, blocks, blockCapacity, hasNull);
      var capacity := NextPowerOfTwo(Max(2 * |slots|, BLOCK_ALLOC_SIZE / POINTER_SIZE + 1));
      slots, heads, buckets := LinkTable(conditions, equalities, hashOf, joinType, slots, blocks, capacity, Tuples(),
                                         found, blockCapacity, hasNull);
      bitmask, finalized := capacity - 1, true;
    }

    /** The next build rows that found no match, up to a vector of them. */
    method ScanFullOuter<L>(state: ScanPosition) returns (result: seq<Joined<L, R>>, state': ScanPosition)
      requires Total(blocks) == |found| == |payloads| && PositionOk(blocks, state)
      ensures PositionOk(blocks, state') && Flat(blocks, state) <= Flat(blocks, state') <= |found|
      ensures result == RightRows(payloads, Unmatched(found, Flat(blocks, state), Flat(blocks, state')))
      ensures |result| < STANDARD_VECTOR_SIZE ==> Flat(blocks, state') == |found|
    {
      var tuples;
      tuples, state' := ScanUnmatched(blocks, found, state);
      result := RightRows(payloads, tuples);
    }
  }

  /** The result rows of tuples without a match: the left side is NULL. */
  function RightRows<L, R>(payloads: seq<R>, tuples: seq<nat>): (result: seq<Joined<L, R>>)
    ensures |result| == |tuples|
  {
    seq(|tuples|, x requires 0 <= x < |tuples| =>
      Joined(None, if tuples[x] < |payloads| then Some(payloads[tuples[x]]) else None))
  }

  // More tuples than a table can hold
  const TWO_TO_62: nat := 0x4000_0000_0000_0000

  ghost function BucketSeq(hashes: seq<nat>, bitmask: nat): (buckets: seq<nat>)
    ensures BucketsOf(buckets, hashes, bitmask)
  {
    seq<nat>(|hashes|, t requires 0 <= t < |hashes| => And(hashes[t], bitmask))
  }

  method LinkTable<R>(cs: seq<Condition>, eq: nat, hashOf: Key -> nat, kind: JoinType, slots: seq<Slot>,
                      blocks: seq<nat>, capacity: nat, ghost c: Content<R>, ghost found: seq<bool>,
                      ghost blockCapacity: nat, ghost hasNull: bool)
    returns (slots': seq<Slot>, heads: seq<Option<nat>>, ghost buckets: seq<nat>)
    requires Filling(cs, eq, hashOf, kind, c, slots, found, blocks, blockCapacity, hasNull) && 0 < capacity
    ensures Built(cs, eq, hashOf, kind, c, slots', found, blocks, hasNull, heads, capacity - 1, buckets)
    ensures |slots'| == |slots| && |heads| == capacity
  {
    buckets := BucketSeq(c.hashes, capacity - 1);
    forall t | 0 <= t < |buckets| ensures buckets[t] < capacity {
      AndBound(c.hashes[t], capacity - 1);
    }
    hide HoldsRows, Linked, BucketsOf, Drops, BlocksOk, Total;
    slots', heads := LinkBlocks(blocks, slots, capacity, c.hashes, buckets);
  }

  lemma FillingBlocks<R>(cs: seq<Condition>, eq: nat, hashOf: Key -> nat, kind: JoinType, c: Content<R>,
                         slots: seq<Slot>, found: seq<bool>, blocks: seq<nat>, capacity: nat, hasNull: bool)
    requires Filling(cs, eq, hashOf, kind, c, slots, found, blocks, capacity, hasNull)
    ensures ConditionsOk(cs, eq) && 0 < capacity && BlocksOk(blocks, capacity) && Total(blocks) == |slots|
    ensures |found| == |slots| && forall t | 0 <= t < |found| :: !found[t]
  {
  }
}
