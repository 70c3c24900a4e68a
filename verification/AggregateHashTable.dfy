/**
 * The grouped aggregate hash table (src/execution/aggregate_hashtable.cpp).
 *
 * A ring of slots refers into pages of tuples. Rows are probed a chunk at a time: each round looks at one slot
 * per remaining row, and the rows that have to move on are compacted in place into the vector they were read
 * from. The table is specified by its tuples, which hold one aggregate state per distinct group key.
 */
module AggregateHashTable {
  import opened Common
  import opened LinearProbing
  import opened GroupProbing
  import opened GroupAggregates
  import opened PartitionCapacity
  import Bits

  // A slot of the ring; page numbers start at one so that zero marks an unused slot
  datatype Slot = Slot(salt: nat, pageNr: nat, pageOffset: nat)

  const UNUSED := Slot(0, 0, 0)

  // The largest offset a slot can store
  const MAX_PAGE_OFFSET := 65535

  /** How many tuples the slots can refer to. */
  function Capacity(maxPages: nat, tuplesPerBlock: nat): nat {
    maxPages * (if MAX_PAGE_OFFSET < tuplesPerBlock then MAX_PAGE_OFFSET else tuplesPerBlock)
  }

  /** Position of the first tuple of a page, counting pages from zero. */
  function PageBase(page: nat, tuplesPerBlock: nat): nat {
    if page == 0 then 0 else PageBase(page - 1, tuplesPerBlock) + tuplesPerBlock
  }

  /** A page that is not the last one is full. */
  lemma {:induction false} PageFill(page: nat, pageCount: nat, tuplesPerBlock: nat)
    requires page < pageCount
    ensures page + 1 < pageCount ==>
      PageBase(page, tuplesPerBlock) + tuplesPerBlock <= PageBase(pageCount - 1, tuplesPerBlock)
    decreases pageCount
  {
    if page + 2 < pageCount {
      PageFill(page, pageCount - 1, tuplesPerBlock);
    }
  }

  /** The tuple a slot refers to. */
  function SlotRef(slot: Slot, tuplesPerBlock: nat): int {
    if slot.pageNr == 0 then EMPTY else PageBase(slot.pageNr - 1, tuplesPerBlock) + slot.pageOffset
  }

  lemma DoubledPower(n: nat)
    requires Bits.IsPowerOfTwo(n)
    ensures Bits.IsPowerOfTwo(2 * n)
  {
    var k: nat :| n == Bits.Pow2(k);
    assert Bits.Pow2(k + 1) == 2 * n;
  }

  class GroupedAggregateHashTable<P(!new), S(!new)> {
    const agg: AggregateFunction<P, S>
    // The hash of a group key
    const hashOf: Key -> nat
    // How far to shift a hash right to get its salt
    const prefixShift: nat
    // The number of group columns
    const columns: nat
    const tuplesPerBlock: nat
    // The largest page number a slot can store
    const maxPages: nat
    var slots: seq<Slot>
    var bitmask: nat
    // The payload pages, one after the other
    var tuples: seq<Tuple<S>>
    var entries: nat
    var pageCount: nat
    var payloadPageOffset: nat
    // What the slots refer to, in the terms of linear probing
    ghost var refs: seq<int>
    ghost var homes: seq<nat>
    ghost var dist: seq<nat>

    function Salt(hash: nat): nat {
      SaltOf(hash, prefixShift)
    }

    ghost predicate Ring()
      reads this`slots, this`bitmask, this`refs, this`homes, this`dist
    {
      && 0 < |slots| == |refs| && bitmask == |slots| - 1 && Bits.IsPowerOfTwo(|slots|)
      && Probes(refs, homes, dist)
      && (forall s | 0 <= s < |slots| :: refs[s] == SlotRef(slots[s], tuplesPerBlock))
    }

    ghost predicate Pages()
      reads this`tuples, this`entries, this`pageCount, this`payloadPageOffset
    {
      && 0 < tuplesPerBlock && payloadPageOffset <= tuplesPerBlock
      && entries == |tuples|
      && (if pageCount == 0 then entries == 0
          else PageBase(pageCount - 1, tuplesPerBlock) + payloadPageOffset == entries)
    }

    /** The ring indexes the first `|homes|` tuples by their hashes. */
    ghost predicate Linked()
      reads this
    {
      && Ring() && Pages()
      && |homes| <= |tuples|
      && (forall i | 0 <= i < |homes| :: homes[i] == tuples[i].hash % |slots|)
      && (forall s | 0 <= s < |slots| && refs[s] != EMPTY :: slots[s].salt == Salt(tuples[refs[s]].hash))
    }

    constructor (agg: AggregateFunction<P, S>, hashOf: Key -> nat, columns: nat, prefixShift: nat, tuplesPerBlock: nat,
                 maxPages: nat)
      requires 0 < tuplesPerBlock
      ensures this.agg == agg && this.hashOf == hashOf && this.columns == columns && this.prefixShift == prefixShift
      ensures this.tuplesPerBlock == tuplesPerBlock && this.maxPages == maxPages
      ensures Valid() && tuples == []
    {
      this.agg, this.hashOf, this.prefixShift := agg, hashOf, prefixShift;
      this.columns, this.tuplesPerBlock, this.maxPages := columns, tuplesPerBlock, maxPages;
      tuples, entries, pageCount, payloadPageOffset := [], 0, 0, 0;
      slots := seq(2 * STANDARD_VECTOR_SIZE, _ => UNUSED);
      bitmask := 2 * STANDARD_VECTOR_SIZE - 1;
      refs, homes, dist := seq(2 * STANDARD_VECTOR_SIZE, _ => EMPTY), [], [];
      assert Bits.Pow2(11) == 2 * STANDARD_VECTOR_SIZE;
    }

    /** Stores the next tuple number in a free slot that lies `d` steps from its home. */
    method FillSlot(slot: nat, salt: nat, pageNr: nat, pageOffset: nat, ghost home: nat, ghost d: nat)
      requires Ring() && home < |slots| && d < |slots| && slot == SlotAt(home, d, |slots|)
      requires slots[slot].pageNr == 0 && Occupied(refs, home, d)
      requires 0 < pageNr && PageBase(pageNr - 1, tuplesPerBlock) + pageOffset == |homes|
      modifies this`refs, this`homes, this`dist, this`slots
      ensures Ring()
      ensures refs == old(refs)[slot := old(|homes|)] && homes == old(homes) + [home]
      ensures slots == old(slots)[slot := Slot(salt, pageNr, pageOffset)]
    {
      Insert(refs, homes, dist, home, d);
      slots := slots[slot := Slot(salt, pageNr, pageOffset)];
      refs, homes, dist := refs[slot := |homes|], homes + [home], dist + [d];
    }

    /** The first free slot at or after `home`. */
    method FindFreeSlot(home: nat) returns (slot: nat, ghost d: nat)
      requires Ring() && home < |slots| && |homes| < |slots|
      ensures d < |slots| && slot == SlotAt(home, d, |slots|)
      ensures slots[slot].pageNr == 0 && Occupied(refs, home, d)
    {
      slot, d := home, 0;
      WalkEnds(refs, homes, dist, home);
      while slots[slot].pageNr > 0
        invariant d < |slots| && slot == SlotAt(home, d, |slots|) && Occupied(refs, home, d)
        decreases |slots| - d
      {
        assert refs[slot] != EMPTY;
        slot, d := slot + 1, d + 1;
        if slot >= |slots| {
          slot := 0;
        }
      }
    }

    /** Visits every tuple, page by page: page number, offset in the page, and position. */
    method PayloadApply() returns (visits: seq<(nat, nat, nat)>)
      requires Pages()
      ensures |visits| == |tuples|
      ensures forall k | 0 <= k < |visits| ::
        visits[k].2 == k && PageBase(visits[k].0, tuplesPerBlock) + visits[k].1 == k
    {
      visits := [];
      if entries == 0 {
        return;
      }
      var applyEntries: nat, pageNr := entries, 0;
      while pageNr < pageCount
        invariant pageNr <= pageCount && applyEntries + |visits| == entries
        invariant pageNr < pageCount ==> |visits| == PageBase(pageNr, tuplesPerBlock)
        invariant pageNr == pageCount ==> applyEntries == 0
        invariant forall k | 0 <= k < |visits| ::
          visits[k].2 == k && PageBase(visits[k].0, tuplesPerBlock) + visits[k].1 == k
      {
        var thisEntries := if tuplesPerBlock < applyEntries then tuplesPerBlock else applyEntries;
        ghost var before := |visits|;
        var pageOffset := 0;
        while pageOffset < thisEntries
          invariant pageOffset <= thisEntries && |visits| == before + pageOffset
          invariant forall k | 0 <= k < |visits| ::
            visits[k].2 == k && PageBase(visits[k].0, tuplesPerBlock) + visits[k].1 == k
        {
          visits := visits + [(pageNr, pageOffset, |visits|)];
          pageOffset := pageOffset + 1;
        }
        PageFill(pageNr, pageCount, tuplesPerBlock);
        applyEntries, pageNr := applyEntries - thisEntries, pageNr + 1;
      }
    }

    /** Grows the ring and indexes every tuple again; only an increase is accepted. */
    method Resize(newSize: nat) returns (ok: bool)
      requires Linked() && Bits.IsPowerOfTwo(newSize) && |homes| == |tuples| < newSize
      modifies this`slots, this`bitmask, this`refs, this`homes, this`dist
      ensures ok == (newSize > old(|slots|))
      ensures Linked() && |homes| == |tuples|
      ensures ok ==> |slots| == newSize
      ensures !ok ==> slots == old(slots) && refs == old(refs) && homes == old(homes)
    {
      if newSize <= |slots| {
        return false;
      }
      ok := true;
      var visits := PayloadApply();
      slots := seq(newSize, _ => UNUSED);
      bitmask := newSize - 1;
      refs, homes, dist := seq(newSize, _ => EMPTY), [], [];
      var v := 0;
      while v < |visits|
        invariant v <= |visits| && |homes| == v && Linked()
        invariant |slots| == newSize
      {
        IndexTuple(visits[v].2, visits[v].0, visits[v].1);
        v := v + 1;
      }
    }

    /** Gives the next tuple a slot. */
    method IndexTuple(ptr: nat, pageNr: nat, pageOffset: nat)
      requires Linked() && ptr == |homes| < |tuples| < |slots|
      requires PageBase(pageNr, tuplesPerBlock) + pageOffset == ptr
      modifies this`refs, this`homes, this`dist, this`slots
      ensures Linked() && |homes| == old(|homes|) + 1
    {
      var hash := tuples[ptr].hash;
      var home := HomeSlot(hash);
      var slot, d := FindFreeSlot(home);
      FillSlot(slot, Salt(hash), pageNr + 1, pageOffset, home, d);
    }

    /** `hash & bitmask` */
    method HomeSlot(hash: nat) returns (home: nat)
      requires Ring()
      ensures home == hash % |slots|
    {
      ghost var k: nat :| |slots| == Bits.Pow2(k);
      home := Bits.And(hash, bitmask);
      Bits.MaskIsRemainder(hash, k);
    }

    /** Appends a page of tuples. */
    method NewBlock()
      requires Pages() && (pageCount == 0 || payloadPageOffset == tuplesPerBlock)
      modifies this`pageCount, this`payloadPageOffset
      ensures Pages() && 0 < pageCount && payloadPageOffset == 0
    {
      pageCount := pageCount + 1;
      payloadPageOffset := 0;
    }

    /** Takes the next place in the pages; the group columns of the tuple are written later. */
    method AppendTuple(hash: nat) returns (pageNr: nat, pageOffset: nat)
      requires Pages()
      modifies this`tuples, this`entries, this`pageCount, this`payloadPageOffset
      ensures Pages() && tuples == old(tuples) + [Tuple(hash, [], agg.initial)]
      ensures 0 < pageNr && PageBase(pageNr - 1, tuplesPerBlock) + pageOffset == old(|tuples|)
    {
      if payloadPageOffset == tuplesPerBlock || pageCount == 0 {
        NewBlock();
      }
      pageNr, pageOffset := pageCount, payloadPageOffset;
      tuples := tuples + [Tuple(hash, [], agg.initial)];
      payloadPageOffset := payloadPageOffset + 1;
      entries := entries + 1;
    }

    /** Sets up a tuple for a row that reached a free slot. */
    method CreateTuple(slot: nat, hash: nat, ghost d: nat)
      requires Linked() && |homes| == |tuples| && d < |slots|
      requires slot == SlotAt(hash % |slots|, d, |slots|) && Occupied(refs, hash % |slots|, d)
      requires slots[slot].pageNr == 0
      modifies this`tuples, this`entries, this`pageCount, this`payloadPageOffset
      modifies this`refs, this`homes, this`dist, this`slots
      ensures Linked() && |homes| == |tuples|
      ensures tuples == old(tuples) + [Tuple(hash, [], agg.initial)]
      ensures refs == old(refs)[slot := old(|tuples|)]
    {
      hide Occupied, PageBase, SaltOf, Bits.IsPowerOfTwo;
      var pageNr, pageOffset := AppendTuple(hash);
      FillSlot(slot, Salt(hash), pageNr, pageOffset, hash % |slots|, d);
    }

    /** One look at one slot for one row. */
    method ProbeSlot(c: Chunk, x: nat, v: Vectors, ghost d: nat) returns (v': Vectors)
      requires Linked() && |homes| == |tuples|
      requires c.Fits(|slots|) && x < |c.hashes| && v.Fits(1, |c.hashes|) && Round(refs, tuples, v).InRange()
      requires WaitingRow(c, x, refs, d)
      modifies this`tuples, this`entries, this`pageCount, this`payloadPageOffset
      modifies this`refs, this`homes, this`dist, this`slots
      ensures Linked() && |homes| == |tuples| && |slots| == old(|slots|)
      ensures Round(refs, tuples, v') == Look(Round(old(refs), old(tuples), v), c, x, agg.initial, prefixShift)
    {
      var slot := slots[c.offsets[x]];
      if slot.pageNr == 0 {
        var ptr := |tuples|;
        CreateTuple(c.offsets[x], c.hashes[x], d);
        v' := v.(empty := v.empty + [x], addresses := v.addresses[x := ptr]);
      } else if slot.salt == Salt(c.hashes[x]) {
        var ptr := PageBase(slot.pageNr - 1, tuplesPerBlock) + slot.pageOffset;
        v' := v.(compare := v.compare + [x], addresses := v.addresses[x := ptr]);
      } else {
        v' := v.(noMatch := v.noMatch[v.noMatchCount := x], noMatchCount := v.noMatchCount + 1);
      }
    }

    /** Reads the next row of the selection and looks at its slot. */
    method ProbeNext(c: Chunk, first: bool, i: nat, v: Vectors, ghost r: Round<S>, ghost rows: seq<nat>, ghost d: nat)
      returns (v': Vectors)
      requires Linked() && |homes| == |tuples|
      requires c.Fits(|r.refs|) && Selection(rows, |c.hashes|) && r.v.Fits(|rows|, |c.hashes|) && r.InRange()
      requires r.v.noMatchCount == 0 && i < |rows| && Waiting(c, rows, r.refs, d)
      requires rows[i] == if first then i else r.v.noMatch[i]
      requires Round(refs, tuples, v) == LookAll(r, c, rows[..i], agg.initial, prefixShift)
      modifies this`tuples, this`entries, this`pageCount, this`payloadPageOffset
      modifies this`refs, this`homes, this`dist, this`slots
      ensures Linked() && |homes| == |tuples|
      ensures Round(refs, tuples, v') == LookAll(r, c, rows[..i + 1], agg.initial, prefixShift)
    {
      var index := if first then i else v.noMatch[i];
      LookReady(r, c, rows, i, first, agg.initial, prefixShift, d);
      v' := ProbeSlot(c, index, v, d);
    }

    /**
     * The first pass of a round. The rows come from `noMatch` itself after the first round, and the rows that have
     * to move on are collected at its front: the write position never overtakes the read position.
     */
    method Classify(c: Chunk, first: bool, remaining: nat, v0: Vectors, ghost rows: seq<nat>, ghost d: nat)
      returns (v: Vectors)
      requires Linked() && |homes| == |tuples|
      requires c.Fits(|slots|) && Selection(rows, |c.hashes|) && v0.Fits(|rows|, |c.hashes|)
      requires Round(refs, tuples, v0).InRange()
      requires v0.noMatchCount == 0 && remaining == |rows|
      requires forall i | 0 <= i < remaining :: rows[i] == if first then i else v0.noMatch[i]
      requires Waiting(c, rows, refs, d)
      modifies this`tuples, this`entries, this`pageCount, this`payloadPageOffset
      modifies this`refs, this`homes, this`dist, this`slots
      ensures Linked() && |homes| == |tuples|
      ensures Round(refs, tuples, v) == LookAll(Round(old(refs), old(tuples), v0), c, rows, agg.initial, prefixShift)
    {
      v := v0;
      ghost var r := Round(refs, tuples, v0);
      var i := 0;
      while i < remaining
        invariant i <= remaining && Linked() && |homes| == |tuples| && |slots| == old(|slots|)
        invariant Round(refs, tuples, v) == LookAll(r, c, rows[..i], agg.initial, prefixShift)
      {
        v := ProbeNext(c, first, i, v, r, rows, d);
        i := i + 1;
      }
      assert rows[..i] == rows;
    }

    method WriteGroup(ptr: nat, key: Key)
      requires Linked() && |homes| == |tuples| && ptr < |tuples|
      modifies this`tuples
      ensures Linked() && tuples == old(tuples)[ptr := old(tuples)[ptr].(key := key)]
    {
      tuples := tuples[ptr := tuples[ptr].(key := key)];
    }

    /** Writes the group columns of the rows that set up a tuple. */
    method ScatterGroups(keys: seq<Key>, addresses: seq<nat>, sel: seq<nat>)
      requires Linked() && |homes| == |tuples| && |addresses| == |keys|
      requires forall i | 0 <= i < |sel| :: sel[i] < |keys| && addresses[sel[i]] < |tuples|
      modifies this`tuples
      ensures Linked() && |homes| == |tuples|
      ensures tuples == Scatter(old(tuples), addresses, keys, sel)
    {
      var i := 0;
      while i < |sel|
        invariant i <= |sel| && |tuples| == old(|tuples|) && Linked() && |homes| == |tuples|
        invariant tuples == Scatter(old(tuples), addresses, keys, sel[..i])
      {
        assert sel[..i + 1][..i] == sel[..i];
        WriteGroup(addresses[sel[i]], keys[sel[i]]);
        i := i + 1;
      }
      assert sel[..i] == sel;
    }

    /** Compares one column; rows that agree are compacted in place, the others are appended to `noMatch`. */
    method CompareColumn(keys: seq<Key>, addresses: seq<nat>, sel0: seq<nat>, col: nat, noMatch0: seq<nat>,
                         noMatchCount0: nat)
      returns (sel: seq<nat>, noMatch: seq<nat>, noMatchCount: nat)
      requires noMatchCount0 + |sel0| <= |noMatch0| && |addresses| == |keys|
      requires forall i | 0 <= i < |sel0| :: Comparable(tuples, addresses, keys, sel0[i], col)
      ensures sel == ByColumn(tuples, addresses, keys, sel0, col, true)
      ensures |noMatch| == |noMatch0| && noMatchCount0 <= noMatchCount <= |noMatch|
      ensures noMatchCount + |sel| == noMatchCount0 + |sel0|
      ensures noMatch[..noMatchCount] == noMatch0[..noMatchCount0] + ByColumn(tuples, addresses, keys, sel0, col, false)
    {
      sel, noMatch, noMatchCount := sel0, noMatch0, noMatchCount0;
      var matchCount, i := 0, 0;
      while i < |sel0|
        invariant matchCount <= i <= |sel0| && |sel| == |sel0| && |noMatch| == |noMatch0|
        invariant noMatchCount + matchCount == noMatchCount0 + i
        invariant sel[..matchCount] == ByColumn(tuples, addresses, keys, sel0[..i], col, true)
        invariant sel[i..] == sel0[i..]
        invariant noMatch[..noMatchCount] ==
                  noMatch0[..noMatchCount0] + ByColumn(tuples, addresses, keys, sel0[..i], col, false)
      {
        var idx := sel[i];
        assert idx == sel[i..][0] == sel0[i];
        ByColumnNext(tuples, addresses, keys, sel0, col, true, i);
        ByColumnNext(tuples, addresses, keys, sel0, col, false, i);
        if keys[idx][col] == tuples[addresses[idx]].key[col] {
          sel := sel[matchCount := idx];
          matchCount := matchCount + 1;
        } else {
          noMatch := noMatch[noMatchCount := idx];
          noMatchCount := noMatchCount + 1;
        }
        i := i + 1;
      }
      assert sel0[..i] == sel0;
      sel := sel[..matchCount];
    }

    /** Compares the groups of the selected rows with their tuples, column after column. */
    method CompareGroups(keys: seq<Key>, addresses: seq<nat>, sel0: seq<nat>, noMatch0: seq<nat>, noMatchCount0: nat)
      returns (noMatch: seq<nat>, noMatchCount: nat)
      requires noMatchCount0 + |sel0| <= |noMatch0| && |addresses| == |keys|
      requires AllComparable(tuples, addresses, keys, sel0, columns)
      ensures |noMatch| == |noMatch0| && noMatchCount <= |noMatch|
      ensures noMatch[..noMatchCount] ==
              noMatch0[..noMatchCount0] + Compare(tuples, addresses, keys, sel0, 0, columns).1
    {
      noMatch, noMatchCount := noMatch0, noMatchCount0;
      var sel, col := sel0, 0;
      while col < columns
        invariant col <= columns && |noMatch| == |noMatch0| && noMatchCount + |sel| == noMatchCount0 + |sel0|
        invariant AllComparable(tuples, addresses, keys, sel, columns)
        invariant noMatch[..noMatchCount] + Compare(tuples, addresses, keys, sel, col, columns).1 ==
                  noMatch0[..noMatchCount0] + Compare(tuples, addresses, keys, sel0, 0, columns).1
      {
        ByColumnComparable(tuples, addresses, keys, sel, col, columns);
        ghost var dropped := ByColumn(tuples, addresses, keys, sel, col, false);
        ghost var before := noMatch[..noMatchCount];
        ghost var kept := ByColumn(tuples, addresses, keys, sel, col, true);
        ghost var rest := Compare(tuples, addresses, keys, kept, col + 1, columns).1;
        sel, noMatch, noMatchCount := CompareColumn(keys, addresses, sel, col, noMatch, noMatchCount);
        assert (before + dropped) + rest == before + (dropped + rest);
        col := col + 1;
      }
    }

    /** Moves the rows left over to the next slot. */
    method Advance(offsets0: seq<nat>, noMatch: seq<nat>, noMatchCount: nat) returns (offsets: seq<nat>)
      requires noMatchCount <= |noMatch| && Selection(noMatch[..noMatchCount], |offsets0|)
      ensures Advanced(offsets0, offsets, noMatch[..noMatchCount], |slots|)
      ensures forall x | 0 <= x < |offsets0| && offsets0[x] < |slots| :: offsets[x] < |slots|
    {
      offsets := offsets0;
      var i := 0;
      while i < noMatchCount
        invariant i <= noMatchCount && |offsets| == |offsets0|
        invariant forall k | 0 <= k < i ::
          offsets[noMatch[k]] == (if offsets0[noMatch[k]] + 1 >= |slots| then 0 else offsets0[noMatch[k]] + 1)
        invariant forall k | i <= k < noMatchCount :: offsets[noMatch[k]] == offsets0[noMatch[k]]
        invariant forall x | 0 <= x < |offsets0| && offsets0[x] < |slots| :: offsets[x] < |slots|
      {
        var index := noMatch[i];
        assert noMatch[..noMatchCount][i] == index;
        assert forall k | i < k < noMatchCount :: noMatch[..noMatchCount][k] != index;
        offsets := offsets[index := if offsets[index] + 1 >= |slots| then 0 else offsets[index] + 1];
        i := i + 1;
      }
    }

    /** The batch of rows as the theory of rounds sees it. */
    ghost function BatchOf(keys: seq<Key>, hashes: seq<nat>): Batch<S> {
      Batch(keys, hashes, hashOf, columns, agg.initial, prefixShift)
    }

    /** The first half of a round: every row looks at its slot, and new tuples get their keys. */
    method LookAndScatter(keys: seq<Key>, hashes: seq<nat>, offsets: seq<nat>, first: bool, v0: Vectors,
                          remaining: nat, ghost rows: seq<nat>, ghost d: nat)
      returns (v: Vectors, ghost looked: Round<S>)
      requires Linked() && |homes| == |tuples|
      requires Lookup(refs, tuples, BatchOf(keys, hashes), offsets, v0.addresses, rows, d)
      requires Chunk(hashes, offsets).Fits(|slots|)
      requires v0.empty == v0.compare == [] && v0.noMatchCount == 0 && remaining == |rows| <= |v0.noMatch|
      requires forall i | 0 <= i < remaining :: rows[i] == if first then i else v0.noMatch[i]
      modifies this`tuples, this`entries, this`pageCount, this`payloadPageOffset
      modifies this`refs, this`homes, this`dist, this`slots
      ensures Linked() && |homes| == |tuples| && refs == looked.refs && v == looked.v && looked.InRange()
      ensures Looked(Round(old(refs), old(tuples), v0), looked, BatchOf(keys, hashes), offsets, rows)
      ensures |v.addresses| == |v0.addresses| && |v.noMatch| == |v0.noMatch|
      ensures Scattered(looked.tuples, tuples, keys, v.empty, old(|tuples|))
    {
      ghost var b := BatchOf(keys, hashes);
      ghost var r := Round(refs, tuples, v0);
      LinkedInRange(r);
      PendingWait(r, b, offsets, rows, d);
      v := Classify(Chunk(hashes, offsets), first, remaining, v0, rows, d);
      looked := Round(refs, tuples, v);
      LookAllLooked(r, b, offsets, rows);
      RoundScatters(r, looked, b, offsets, rows);
      FreshAddressesInRange(r, looked, b, offsets, rows);
      ScatterGroups(keys, v.addresses, v.empty);
    }

    lemma LinkedInRange(r: Round<S>)
      requires Linked() && |homes| == |tuples| && r.refs == refs && r.tuples == tuples
      ensures r.InRange()
    {
      forall s | 0 <= s < |refs| && refs[s] != EMPTY ensures 0 <= refs[s] < |tuples| {
        assert RefersBack(refs, homes, dist, s);
      }
    }

    /** One round: afterwards the rows left over in `noMatch` are pending one slot further. */
    method ProbeRound(keys: seq<Key>, hashes: seq<nat>, offsets0: seq<nat>, first: bool, v0: Vectors,
                      remaining: nat, newGroups0: seq<nat>, ghost rows: seq<nat>, ghost before: seq<Tuple<S>>,
                      ghost d: nat)
      returns (v: Vectors, offsets: seq<nat>, newGroups: seq<nat>)
      requires Linked() && |homes| == |tuples| && |tuples| + |rows| < |slots|
      requires Lookup(refs, tuples, BatchOf(keys, hashes), offsets0, v0.addresses, rows, d)
      requires Created(before, tuples, newGroups0, BatchOf(keys, hashes))
      requires Chunk(hashes, offsets0).Fits(|slots|)
      requires v0.empty == v0.compare == [] && v0.noMatchCount == 0 && remaining == |rows| <= |v0.noMatch|
      requires forall i | 0 <= i < remaining :: rows[i] == if first then i else v0.noMatch[i]
      modifies this`tuples, this`entries, this`pageCount, this`payloadPageOffset
      modifies this`refs, this`homes, this`dist, this`slots
      ensures Linked() && |homes| == |tuples|
      ensures |v.noMatch| == |v0.noMatch| && v.noMatchCount <= |v.noMatch|
      ensures |tuples| + v.noMatchCount <= old(|tuples|) + |rows| && v.noMatchCount <= |rows|
      ensures Lookup(refs, tuples, BatchOf(keys, hashes), offsets, v.addresses, v.noMatch[..v.noMatchCount], d + 1)
      ensures Created(before, tuples, newGroups, BatchOf(keys, hashes))
      ensures Chunk(hashes, offsets).Fits(|slots|)
      ensures v.noMatchCount > 0 ==> d + 1 < |slots|
    {
      ghost var b := BatchOf(keys, hashes);
      ghost var r, homes0, dist0 := Round(refs, tuples, v0), homes, dist;
      ghost var looked;
      v, looked := LookAndScatter(keys, hashes, offsets0, first, v0, remaining, rows, d);
      newGroups := newGroups0 + v.empty;
      RoundCreates(before, r, looked, tuples, newGroups0, b, offsets0, rows);
      RoundKeyed(r, looked, tuples, homes0, dist0, b, offsets0, d);
      RoundSizes(looked, tuples, b, rows);
      NextSlotExists(r, looked, tuples, homes, dist, b, offsets0, rows, d);
      CandidatesComparable(r, looked, tuples, b, offsets0, rows);
      var noMatch, noMatchCount := CompareGroups(keys, v.addresses, v.compare, v.noMatch, v.noMatchCount);
      offsets := Advance(offsets0, noMatch, noMatchCount);
      RoundProgress(r, looked, tuples, b, offsets0, offsets, rows, d);
      v := v.(noMatch := noMatch, noMatchCount := noMatchCount);
    }

    /** A table between two operations: indexed, one tuple per key, with room to grow. */
    ghost predicate Valid()
      reads this
    {
      && Linked() && |homes| == |tuples| < |slots| && 2 * STANDARD_VECTOR_SIZE <= |slots|
      && Keyed(tuples, hashOf, columns)
    }

    function MaxCapacity(): nat {
      Capacity(maxPages, tuplesPerBlock)
    }

    /** Doubles the ring when it is two thirds full or cannot take the whole chunk. */
    method MakeRoom(count: nat)
      requires Valid() && count <= STANDARD_VECTOR_SIZE
      modifies this`slots, this`bitmask, this`refs, this`homes, this`dist
      ensures Valid() && |tuples| + count < |slots|
    {
      if |slots| - entries <= count || 3 * entries > 2 * |slots| {
        DoubledPower(|slots|);
        var _ := Resize(2 * |slots|);
      }
    }

    /** The slot every row looks at first. */
    method HomeSlots(hashes: seq<nat>) returns (offsets: seq<nat>)
      requires Ring()
      ensures AtHome(hashes, offsets, |slots|)
    {
      offsets := [];
      while |offsets| < |hashes|
        invariant |offsets| <= |hashes|
        invariant forall x | 0 <= x < |offsets| :: offsets[x] == hashes[x] % |slots|
      {
        var home := HomeSlot(hashes[|offsets|]);
        offsets := offsets + [home];
      }
    }

    /** Rounds until every row has its tuple. */
    method ProbeAll(keys: seq<Key>, hashes: seq<nat>, offsets0: seq<nat>)
      returns (addresses: seq<nat>, newGroups: seq<nat>)
      requires Valid() && |keys| <= STANDARD_VECTOR_SIZE && |tuples| + |keys| < |slots|
      requires BatchOf(keys, hashes).Valid() && AtHome(hashes, offsets0, |slots|)
      modifies this`tuples, this`entries, this`pageCount, this`payloadPageOffset
      modifies this`refs, this`homes, this`dist, this`slots
      ensures Valid() && Created(old(tuples), tuples, newGroups, BatchOf(keys, hashes))
      ensures AllResolved(tuples, BatchOf(keys, hashes), addresses)
      ensures |tuples| <= old(|tuples|) + |keys|
    {
      ghost var b := BatchOf(keys, hashes);
      var v := Vectors([], [], seq(STANDARD_VECTOR_SIZE, _ => 0), 0, seq(|keys|, _ => 0));
      var offsets, remaining, first := offsets0, |keys|, true;
      newGroups := [];
      ghost var d: nat, rows: seq<nat> := 0, seq(|keys|, x => x);
      LookupStart(refs, tuples, b, offsets, v.addresses, rows);
      while remaining > 0
        invariant Linked() && |homes| == |tuples| && |tuples| + |rows| < |slots|
        invariant Lookup(refs, tuples, b, offsets, v.addresses, rows, d) && Created(old(tuples), tuples, newGroups, b)
        invariant Chunk(hashes, offsets).Fits(|slots|)
        invariant |rows| == remaining <= |v.noMatch| && |tuples| + remaining <= old(|tuples|) + |keys|
        invariant forall i | 0 <= i < remaining :: rows[i] == if first then i else v.noMatch[i]
        invariant remaining > 0 ==> d < |slots|
        decreases |slots| - d
      {
        v := v.(empty := [], compare := [], noMatchCount := 0);
        v, offsets, newGroups := ProbeRound(keys, hashes, offsets, first, v, remaining, newGroups, rows, old(tuples),
                                            d);
        remaining, first := v.noMatchCount, false;
        rows, d := v.noMatch[..v.noMatchCount], d + 1;
      }
      addresses := v.addresses;
    }

    /**
     * Finds or creates the tuple of every row's group. Afterwards every row has the tuple with its key, and the
     * tuples created are those of the rows listed in `newGroups`. The only failure is a full table.
     */
    method FindOrCreateGroups(keys: seq<Key>, hashes: seq<nat>)
      returns (ok: bool, addresses: seq<nat>, newGroups: seq<nat>)
      requires Valid() && |keys| <= STANDARD_VECTOR_SIZE && BatchOf(keys, hashes).Valid()
      modifies this`slots, this`bitmask, this`tuples, this`entries, this`pageCount, this`payloadPageOffset
      modifies this`refs, this`homes, this`dist
      ensures Valid()
      ensures ok <==> old(|tuples|) + |keys| <= MaxCapacity()
      ensures !ok ==> tuples == old(tuples)
      ensures ok ==> Created(old(tuples), tuples, newGroups, BatchOf(keys, hashes))
      ensures ok ==> AllResolved(tuples, BatchOf(keys, hashes), addresses)
      ensures |tuples| <= old(|tuples|) + |keys|
    {
      if entries + |keys| > MaxCapacity() {
        return false, [], [];
      }
      ok := true;
      MakeRoom(|keys|);
      var offsets := HomeSlots(hashes);
      addresses, newGroups := ProbeAll(keys, hashes, offsets);
    }

    /** Applies one value per row to the tuple of the row. */
    method ApplyRows<X>(op: (S, X) -> S, addresses: seq<nat>, xs: seq<X>)
      requires Valid() && |addresses| == |xs| && forall i | 0 <= i < |addresses| :: addresses[i] < |tuples|
      modifies this`tuples
      ensures Valid() && tuples == Apply(op, old(tuples), addresses, xs)
    {
      var i := 0;
      while i < |addresses|
        invariant i <= |addresses| && |tuples| == old(|tuples|)
        invariant tuples == Apply(op, old(tuples), addresses[..i], xs[..i])
      {
        assert addresses[..i + 1][..i] == addresses[..i] && xs[..i + 1][..i] == xs[..i];
        tuples := ApplyRow(op, tuples, addresses[i], xs[i]);
        i := i + 1;
      }
      assert addresses[..i] == addresses && xs[..i] == xs;
      ApplyKeepsGroups(op, old(tuples), addresses, xs);
    }

    /** Looks the rows up and applies one value per row: every key's state is extended by its rows. */
    method FindAndApply<X>(op: (S, X) -> S, keys: seq<Key>, hashes: seq<nat>, xs: seq<X>)
      returns (ok: bool, newGroupCount: nat)
      requires Valid() && |keys| == |xs| <= STANDARD_VECTOR_SIZE && BatchOf(keys, hashes).Valid()
      modifies this`slots, this`bitmask, this`tuples, this`entries, this`pageCount, this`payloadPageOffset
      modifies this`refs, this`homes, this`dist
      ensures Valid()
      ensures ok <==> old(|tuples|) + |keys| <= MaxCapacity()
      ensures |tuples| == old(|tuples|) + newGroupCount && newGroupCount <= |keys|
      ensures !ok ==> tuples == old(tuples)
      ensures ok ==> Extended(op, agg.initial, old(tuples), tuples, keys, xs)
    {
      var addresses, newGroups;
      ok, addresses, newGroups := FindOrCreateGroups(keys, hashes);
      newGroupCount := 0;
      if ok {
        newGroupCount := |newGroups|;
        ghost var b, found := BatchOf(keys, hashes), tuples;
        ResolvedInRange(tuples, b, addresses);
        ApplyRows(op, addresses, xs);
        forall k ensures ExtendedAt(op, agg.initial, old(tuples), tuples, keys, xs, k) {
          FindChunk(op, old(tuples), found, newGroups, b, addresses, xs, k);
        }
      }
    }

    /** Adds a chunk of rows to the aggregates of their groups. */
    method AddChunk(keys: seq<Key>, hashes: seq<nat>, payload: seq<P>) returns (ok: bool, newGroupCount: nat)
      requires Valid() && |keys| == |payload| <= STANDARD_VECTOR_SIZE && BatchOf(keys, hashes).Valid()
      modifies this`slots, this`bitmask, this`tuples, this`entries, this`pageCount, this`payloadPageOffset
      modifies this`refs, this`homes, this`dist
      ensures Valid()
      ensures ok <==> |keys| == 0 || old(|tuples|) + |keys| <= MaxCapacity()
      ensures !ok ==> tuples == old(tuples)
      ensures |tuples| == old(|tuples|) + newGroupCount && newGroupCount <= |keys|
      ensures ok ==> Extended(agg.update, agg.initial, old(tuples), tuples, keys, payload)
    {
      if |keys| == 0 {
        return true, 0;
      }
      ok, newGroupCount := FindAndApply(agg.update, keys, hashes, payload);
    }

    /** Merges the tuples at some positions of another table into this one, after those already sent. */
    method FlushMove(source: seq<Tuple<S>>, ptrs: seq<nat>, ghost before: seq<Tuple<S>>, ghost sent: seq<nat>)
      returns (ok: bool)
      requires Valid() && Keyed(source, hashOf, columns) && |ptrs| <= STANDARD_VECTOR_SIZE
      requires Within(ptrs, |source|) && Within(sent, |source|) && Received(agg, before, tuples, Gather(source, sent))
      modifies this`slots, this`bitmask, this`tuples, this`entries, this`pageCount, this`payloadPageOffset
      modifies this`refs, this`homes, this`dist
      ensures Valid()
      ensures Within(sent + ptrs, |source|)
      ensures ok <==> old(|tuples|) + |ptrs| <= MaxCapacity()
      ensures ok ==> |tuples| <= old(|tuples|) + |ptrs|
      ensures ok ==> Received(agg, before, tuples, Gather(source, sent + ptrs))
    {
      var moved := Gather(source, ptrs);
      var newGroupCount;
      ok, newGroupCount := FindAndApply(agg.combine, KeysOf(moved), HashesOf(moved), StatesOf(moved));
      if ok {
        ReceivedMore(agg, before, old(tuples), tuples, source, sent, ptrs);
      }
    }

    /** The tuples sent to this table so far have been combined into it, and every vector of them was accepted. */
    ghost predicate Took(before: seq<Tuple<S>>, source: seq<Tuple<S>>, sent: seq<nat>)
      reads this
    {
      && Within(sent, |source|) && Received(agg, before, tuples, Gather(source, sent))
      && Flushed(KeySet(before), source, sent, MaxCapacity())
    }

    /** This table has one tuple for every key it had or was sent. */
    lemma TookKeys(before: seq<Tuple<S>>, source: seq<Tuple<S>>, sent: seq<nat>)
      requires Valid() && Took(before, source, sent)
      ensures |tuples| == |SentKeys(KeySet(before), source, sent)|
    {
      ReceivedKeys(agg, before, tuples, Gather(source, sent));
      DistinctKeySet(tuples);
    }

    /** Takes one more vector, or refuses it if not all of its groups could be new. */
    method TakeVector(source: seq<Tuple<S>>, ptrs: seq<nat>, ghost before: seq<Tuple<S>>, ghost sent: seq<nat>)
      returns (ok: bool)
      requires Valid() && Keyed(source, hashOf, columns) && Took(before, source, sent)
      requires |sent| % STANDARD_VECTOR_SIZE == 0 && |ptrs| <= STANDARD_VECTOR_SIZE && Within(ptrs, |source|)
      modifies this`slots, this`bitmask, this`tuples, this`entries, this`pageCount, this`payloadPageOffset
      modifies this`refs, this`homes, this`dist
      ensures Valid() && Within(sent, |source|)
      ensures ok ==> Took(before, source, sent + ptrs) && |tuples| <= MaxCapacity()
      ensures !ok ==> |SentKeys(KeySet(before), source, sent)| + |ptrs| > MaxCapacity()
    {
      hide Flushed, Received, SentKeys, Keyed;
      TookKeys(before, source, sent);
      ok := FlushMove(source, ptrs, before, sent);
      if ok {
        FlushedMore(KeySet(before), source, sent, ptrs, MaxCapacity());
      }
    }

    /** A vector that was refused is one of those the other table has to send. */
    lemma CombineRefused(before: seq<Tuple<S>>, source: seq<Tuple<S>>, sent: seq<nat>, ptrs: seq<nat>, v: nat)
      requires v <= |source| && Consecutive(sent + ptrs, v) && Within(sent, |source|) && |sent| + |ptrs| == v
      requires |sent| % STANDARD_VECTOR_SIZE == 0 && |ptrs| <= STANDARD_VECTOR_SIZE
      requires |SentKeys(KeySet(before), source, sent)| + |ptrs| > MaxCapacity()
      ensures !FlushesFit(KeySet(before), source, AllPtrs(|source|), MaxCapacity())
    {
      hide SentKeys, FlushesFit;
      assert AllPtrs(|source|)[..|sent|] == sent by {
        assert forall i | 0 <= i < |sent| :: sent[i] == (sent + ptrs)[i];
      }
      FlushRefused(KeySet(before), source, AllPtrs(|source|), |sent|, |ptrs|, MaxCapacity());
    }

    lemma CombineAccepted(before: seq<Tuple<S>>, source: seq<Tuple<S>>, sent: seq<nat>)
      requires Valid() && Took(before, source, sent) && |tuples| <= MaxCapacity() && Consecutive(sent, |source|)
      ensures FlushesFit(KeySet(before), source, AllPtrs(|source|), MaxCapacity())
    {
      assert AllPtrs(|source|) == sent;
      TookKeys(before, source, sent);
    }

    lemma TookNothing(source: seq<Tuple<S>>)
      ensures Took(tuples, source, [])
    {
      ReceivedNothing(agg, tuples);
    }

    lemma TookAll(before: seq<Tuple<S>>, source: seq<Tuple<S>>, sent: seq<nat>)
      requires Lawful(agg) && Distinct(source) && Took(before, source, sent) && Consecutive(sent, |source|)
      ensures Merged(agg, before, tuples, source)
    {
      ReceivedAll(agg, before, tuples, source, sent);
    }

    lemma EntriesAreTuples()
      requires Valid()
      ensures entries == |tuples| && Distinct(tuples) && Pages()
    {
    }

    /** Merges another table into this one, a chunk of tuples at a time. It fails exactly if a chunk is refused. */
    method Combine(other: GroupedAggregateHashTable<P, S>) returns (ok: bool)
      requires Valid() && other.Valid() && Lawful(agg)
      requires this != other && other.hashOf == hashOf && other.columns == columns
      modifies this`slots, this`bitmask, this`tuples, this`entries, this`pageCount, this`payloadPageOffset
      modifies this`refs, this`homes, this`dist
      ensures Valid()
      ensures ok ==> Merged(agg, old(tuples), tuples, other.tuples)
      ensures ok <==> other.tuples == [] ||
                      FlushesFit(old(KeySet(tuples)), other.tuples, AllPtrs(|other.tuples|), MaxCapacity())
    {
      hide Took, FlushesFit, SentKeys, Merged, Lawful, Linked, Distinct, KeySet, Pages;
      ghost var source, before := other.tuples, tuples;
      other.EntriesAreTuples();
      TookNothing(source);
      if other.entries == 0 {
        TookAll(before, source, []);
        return true;
      }
      var visits := other.PayloadApply();
      var ptrs, v := [], 0;
      ghost var sent: seq<nat> := [];
      while v < |visits|
        invariant v <= |visits| && |ptrs| < STANDARD_VECTOR_SIZE && Valid()
        invariant Consecutive(sent + ptrs, v) && Within(ptrs, v) && |sent| + |ptrs| == v
        invariant Took(before, source, sent) && |sent| % STANDARD_VECTOR_SIZE == 0
      {
        ConsecutiveNext(sent, ptrs, v);
        ptrs := ptrs + [visits[v].2];
        v := v + 1;
        if |ptrs| == STANDARD_VECTOR_SIZE {
          ok := TakeVector(other.tuples, ptrs, before, sent);
          if !ok {
            CombineRefused(before, source, sent, ptrs, v);
            return;
          }
          sent, ptrs := sent + ptrs, [];
        }
      }
      ok := TakeVector(other.tuples, ptrs, before, sent);
      if ok {
        TookAll(before, source, sent + ptrs);
        CombineAccepted(before, source, sent + ptrs);
      } else {
        CombineRefused(before, source, sent, ptrs, v);
      }
    }

    /** The tables a partitioning fills: set up like this one, and sharing nothing with it or each other. */
    ghost predicate Targets(parts: seq<GroupedAggregateHashTable<P, S>>)
      reads this, parts
    {
      && (forall q | 0 <= q < |parts| :: Target(parts[q]))
      && (forall q, r | 0 <= q < r < |parts| :: parts[q] != parts[r])
    }

    ghost predicate Target(p: GroupedAggregateHashTable<P, S>)
      reads this, p
    {
      p != this && p.Valid() && p.agg == agg && p.hashOf == hashOf && p.columns == columns
    }

    /** A target accepts the tuples of its partition. */
    ghost predicate TargetFits(p: GroupedAggregateHashTable<P, S>, before: seq<Tuple<S>>, q: nat, mask: nat, shift: nat)
      reads this`tuples
    {
      FlushesFit(KeySet(before), tuples, PartitionPtrs(tuples, |tuples|, q, mask, shift), p.MaxCapacity())
    }

    ghost predicate TargetsFit(parts: seq<GroupedAggregateHashTable<P, S>>, befores: seq<seq<Tuple<S>>>, mask: nat,
                               shift: nat)
      requires |befores| == |parts|
      reads this`tuples
    {
      forall q | 0 <= q < |parts| :: TargetFits(parts[q], befores[q], q, mask, shift)
    }

    lemma TargetsApart(parts: seq<GroupedAggregateHashTable<P, S>>, befores: seq<seq<Tuple<S>>>, sents: seq<seq<nat>>)
      requires Targets(parts) && AllReceived(parts, befores, sents)
      ensures this !in parts && |befores| == |parts| == |sents|
    {
      forall q | 0 <= q < |parts| ensures parts[q] != this {
        assert Target(parts[q]);
      }
    }

    /** A target that refused a vector does not fit. */
    lemma Refused(parts: seq<GroupedAggregateHashTable<P, S>>, befores: seq<seq<Tuple<S>>>, q: nat, sent: seq<nat>,
                  info: seq<nat>, n: nat, mask: nat, shift: nat)
      requires |befores| == |parts| && q < |parts| && n <= |tuples| && Within(sent, |tuples|)
      requires sent + info == PartitionPtrs(tuples, n, q, mask, shift)
      requires |sent| % STANDARD_VECTOR_SIZE == 0 && |info| <= STANDARD_VECTOR_SIZE
      requires |SentKeys(KeySet(befores[q]), tuples, sent)| + |info| > parts[q].MaxCapacity()
      ensures !TargetsFit(parts, befores, mask, shift)
    {
      hide SentKeys, FlushesFit;
      var ptrs := PartitionPtrs(tuples, |tuples|, q, mask, shift);
      PartitionPtrsGrow(tuples, n, |tuples|, q, mask, shift);
      assert ptrs[..|sent|] == (sent + info)[..|sent|] == sent;
      FlushRefused(KeySet(befores[q]), tuples, ptrs, |sent|, |info|, parts[q].MaxCapacity());
      assert !TargetFits(parts[q], befores[q], q, mask, shift);
    }

    /** A target that took all vectors, the last one included, fits. */
    lemma Accepted(p: GroupedAggregateHashTable<P, S>, before: seq<Tuple<S>>, q: nat, mask: nat, shift: nat)
      requires Target(p) && ReceivedBy(p, before, PartitionPtrs(tuples, |tuples|, q, mask, shift)) && WithinCapacity(p)
      ensures TargetFits(p, before, q, mask, shift)
    {
      p.TookKeys(before, tuples, PartitionPtrs(tuples, |tuples|, q, mask, shift));
    }

    /** A target that has taken its last tuples has not run out of capacity. */
    ghost predicate WithinCapacity(p: GroupedAggregateHashTable<P, S>)
      reads p
    {
      |p.tuples| <= p.MaxCapacity()
    }

    /** Every target has received the tuples sent to it so far. */
    ghost predicate AllReceived(parts: seq<GroupedAggregateHashTable<P, S>>, befores: seq<seq<Tuple<S>>>,
                                sents: seq<seq<nat>>)
      reads this, parts
    {
      |befores| == |sents| == |parts| && forall q | 0 <= q < |parts| :: ReceivedBy(parts[q], befores[q], sents[q])
    }

    ghost predicate ReceivedBy(p: GroupedAggregateHashTable<P, S>, before: seq<Tuple<S>>, sent: seq<nat>)
      reads this, p
    {
      p.agg == agg && p.Took(before, tuples, sent)
    }

    /** Sends the buffered tuples of one partition to its table. */
    method FlushPartition(parts: seq<GroupedAggregateHashTable<P, S>>, r: nat, ptrs: seq<nat>,
                          ghost befores: seq<seq<Tuple<S>>>, ghost sents: seq<seq<nat>>) returns (ok: bool)
      requires Keyed(tuples, hashOf, columns) && Targets(parts) && AllReceived(parts, befores, sents)
      requires r < |parts| && |ptrs| <= STANDARD_VECTOR_SIZE && Within(ptrs, |tuples|)
      requires |sents[r]| % STANDARD_VECTOR_SIZE == 0
      modifies parts[r]
      ensures Targets(parts) && Within(sents[r], |tuples|)
      ensures ok ==> AllReceived(parts, befores, sents[r := sents[r] + ptrs])
      ensures !ok ==> |SentKeys(KeySet(befores[r]), tuples, sents[r])| + |ptrs| > parts[r].MaxCapacity()
      ensures ok ==> WithinCapacity(parts[r])
    {
      hide SentKeys, Took;
      var part := parts[r];
      assert Target(part) && ReceivedBy(part, befores[r], sents[r]);
      ok := part.TakeVector(tuples, ptrs, befores[r], sents[r]);
      forall q | 0 <= q < |parts| ensures Target(parts[q]) {
      }
    }

    /** Buffers one tuple for its partition, and sends the buffer when it is full. */
    method PartitionTuple(parts: seq<GroupedAggregateHashTable<P, S>>, ptr: nat, mask: nat, shift: nat,
                          infos0: seq<seq<nat>>, ghost befores: seq<seq<Tuple<S>>>, ghost sents0: seq<seq<nat>>)
      returns (ok: bool, infos: seq<seq<nat>>, ghost sents: seq<seq<nat>>)
      requires Keyed(tuples, hashOf, columns) && Targets(parts) && AllReceived(parts, befores, sents0)
      requires ptr < |tuples| && |infos0| == |parts| && Buffered(tuples, infos0, sents0, ptr, mask, shift)
      requires RadixOf(tuples[ptr].hash, mask, shift) < |parts|
      modifies parts
      ensures Targets(parts) && tuples == old(tuples)
      ensures ok ==> |infos| == |parts| && AllReceived(parts, befores, sents)
      ensures ok ==> Buffered(tuples, infos, sents, ptr + 1, mask, shift)
      ensures !ok ==> !TargetsFit(parts, befores, mask, shift)
    {
      hide TargetsFit, Targets, AllReceived, Keyed, WithinCapacity, SentKeys;
      TargetsApart(parts, befores, sents0);
      var partition := RadixOf(tuples[ptr].hash, mask, shift);
      infos, sents, ok := infos0, sents0, true;
      var info := infos[partition] + [ptr];
      assert BufferedIn(tuples, infos0[partition], sents0[partition], ptr, partition, mask, shift);
      assert sents0[partition] + info == (sents0[partition] + infos0[partition]) + [ptr];
      if |info| == STANDARD_VECTOR_SIZE {
        ok := FlushPartition(parts, partition, info, befores, sents0);
        if !ok {
          Refused(parts, befores, partition, sents0[partition], info, ptr + 1, mask, shift);
        }
        sents := sents[partition := sents[partition] + info];
        info := [];
      }
      infos := infos[partition := info];
      forall q | 0 <= q < |infos| ensures BufferedIn(tuples, infos[q], sents[q], ptr + 1, q, mask, shift) {
        assert BufferedIn(tuples, infos0[q], sents0[q], ptr, q, mask, shift);
      }
    }

    /** Sends what is left in the buffers. */
    method FlushRemaining(parts: seq<GroupedAggregateHashTable<P, S>>, infos: seq<seq<nat>>, mask: nat, shift: nat,
                          ghost befores: seq<seq<Tuple<S>>>, ghost sents0: seq<seq<nat>>)
      returns (ok: bool, ghost sents: seq<seq<nat>>)
      requires Keyed(tuples, hashOf, columns) && Targets(parts) && AllReceived(parts, befores, sents0)
      requires |infos| == |parts| && Buffered(tuples, infos, sents0, |tuples|, mask, shift)
      modifies parts
      ensures Targets(parts)
      ensures ok ==> AllReceived(parts, befores, sents)
      ensures ok ==> forall q | 0 <= q < |parts| :: sents[q] == PartitionPtrs(tuples, |tuples|, q, mask, shift)
      ensures ok <==> TargetsFit(parts, befores, mask, shift)
    {
      hide SentKeys, Took, TargetFits;
      sents, ok := sents0, true;
      var q := 0;
      while q < |parts|
        invariant q <= |parts| && Targets(parts) && AllReceived(parts, befores, sents)
        invariant forall r | 0 <= r < q :: sents[r] == PartitionPtrs(tuples, |tuples|, r, mask, shift)
        invariant forall r | q <= r < |parts| :: sents[r] == sents0[r]
        invariant forall r | 0 <= r < q :: WithinCapacity(parts[r])
      {
        assert BufferedIn(tuples, infos[q], sents0[q], |tuples|, q, mask, shift);
        ok := FlushPartition(parts, q, infos[q], befores, sents);
        if !ok {
          Refused(parts, befores, q, sents0[q], infos[q], |tuples|, mask, shift);
          return;
        }
        sents := sents[q := sents[q] + infos[q]];
        q := q + 1;
      }
      forall r | 0 <= r < |parts| ensures TargetFits(parts[r], befores[r], r, mask, shift) {
        assert Target(parts[r]) && ReceivedBy(parts[r], befores[r], sents[r]);
        Accepted(parts[r], befores[r], r, mask, shift);
      }
    }

    /** Sends the tuples towards the tables of their partitions, one after the other. */
    method PartitionTuples(parts: seq<GroupedAggregateHashTable<P, S>>, visits: seq<(nat, nat, nat)>, mask: nat,
                           shift: nat, infos0: seq<seq<nat>>, ghost befores: seq<seq<Tuple<S>>>,
                           ghost sents0: seq<seq<nat>>)
      returns (ok: bool, infos: seq<seq<nat>>, ghost sents: seq<seq<nat>>)
      requires Keyed(tuples, hashOf, columns) && Targets(parts) && AllReceived(parts, befores, sents0)
      requires |visits| == |tuples| && forall v | 0 <= v < |visits| :: visits[v].2 == v
      requires |infos0| == |parts| && Buffered(tuples, infos0, sents0, 0, mask, shift)
      requires RadixBelow(tuples, mask, shift, |parts|)
      modifies parts
      ensures Targets(parts) && tuples == old(tuples)
      ensures ok ==> AllReceived(parts, befores, sents) && |infos| == |parts|
      ensures ok ==> Buffered(tuples, infos, sents, |tuples|, mask, shift)
      ensures !ok ==> !TargetsFit(parts, befores, mask, shift)
    {
      hide TargetsFit, Targets, AllReceived, Keyed, WithinCapacity, Buffered;
      infos, sents, ok := infos0, sents0, true;
      var v := 0;
      while v < |visits|
        invariant v <= |visits| && tuples == old(tuples) && Targets(parts)
        invariant Keyed(tuples, hashOf, columns) && RadixBelow(tuples, mask, shift, |parts|)
        invariant AllReceived(parts, befores, sents) && |infos| == |parts|
        invariant Buffered(tuples, infos, sents, v, mask, shift)
      {
        ok, infos, sents := PartitionTuple(parts, visits[v].2, mask, shift, infos, befores, sents);
        if !ok {
          return;
        }
        v := v + 1;
      }
    }

    lemma NothingReceived(parts: seq<GroupedAggregateHashTable<P, S>>, befores: seq<seq<Tuple<S>>>,
                          sents: seq<seq<nat>>)
      requires Targets(parts) && |befores| == |parts| == |sents|
      requires forall q | 0 <= q < |parts| :: befores[q] == parts[q].tuples && sents[q] == []
      ensures AllReceived(parts, befores, sents)
    {
      forall q | 0 <= q < |parts| ensures ReceivedBy(parts[q], befores[q], sents[q]) {
        assert Target(parts[q]);
        parts[q].TookNothing(tuples);
      }
    }

    /** Sends all tuples to the tables of their partitions. */
    method SendTuples(parts: seq<GroupedAggregateHashTable<P, S>>, mask: nat, shift: nat,
                      ghost befores: seq<seq<Tuple<S>>>)
      returns (ok: bool)
      requires Valid() && Lawful(agg) && Targets(parts) && RadixBelow(tuples, mask, shift, |parts|)
      requires |befores| == |parts| && forall q | 0 <= q < |parts| :: befores[q] == parts[q].tuples
      modifies parts
      ensures Targets(parts) && tuples == old(tuples)
      ensures ok ==> forall q | 0 <= q < |parts| ::
        MergedPartition(agg, hashOf, befores[q], parts[q].tuples, tuples, q, mask, shift)
      ensures ok <==> TargetsFit(parts, befores, mask, shift)
    {
      hide RadixBelow, Lawful, MergedPartition, PageBase, Probes, TargetsFit, Targets, AllReceived;
      var infos := seq(|parts|, _ => []);
      ghost var sents: seq<seq<nat>> := seq(|parts|, _ => []);
      NothingReceived(parts, befores, sents);
      TargetsApart(parts, befores, sents);
      var visits := PayloadApply();
      ok, infos, sents := PartitionTuples(parts, visits, mask, shift, infos, befores, sents);
      if ok {
        ok, sents := FlushRemaining(parts, infos, mask, shift, befores, sents);
      }
      if ok {
        AllMerged(parts, befores, sents, mask, shift);
      }
    }

    lemma AllMerged(parts: seq<GroupedAggregateHashTable<P, S>>, befores: seq<seq<Tuple<S>>>, sents: seq<seq<nat>>,
                    mask: nat, shift: nat)
      requires Keyed(tuples, hashOf, columns) && Lawful(agg) && AllReceived(parts, befores, sents)
      requires forall q | 0 <= q < |parts| :: sents[q] == PartitionPtrs(tuples, |tuples|, q, mask, shift)
      ensures forall q | 0 <= q < |parts| ::
        MergedPartition(agg, hashOf, befores[q], parts[q].tuples, tuples, q, mask, shift)
    {
      hide Received, MergedPartition, Lawful;
      forall q | 0 <= q < |parts|
        ensures MergedPartition(agg, hashOf, befores[q], parts[q].tuples, tuples, q, mask, shift)
      {
        assert ReceivedBy(parts[q], befores[q], sents[q]);
        ReceivedPartition(agg, hashOf, columns, befores[q], parts[q].tuples, tuples, q, mask, shift);
      }
    }

    /**
     * Distributes the tuples over the tables of their partitions and marks this table as empty. Every table ends up
     * merged with exactly the groups of its partition, and it fails exactly if one of them refuses a vector.
     */
    method Partition(parts: seq<GroupedAggregateHashTable<P, S>>, mask: nat, shift: nat) returns (ok: bool)
      requires Valid() && Lawful(agg) && Targets(parts) && RadixBelow(tuples, mask, shift, |parts|)
      modifies this`entries, parts
      ensures forall q | 0 <= q < |parts| :: parts[q].Valid()
      ensures ok ==> entries == 0
      ensures ok ==> forall q | 0 <= q < |parts| ::
        MergedPartition(agg, hashOf, old(parts[q].tuples), parts[q].tuples, tuples, q, mask, shift)
      ensures ok <==> forall q | 0 <= q < |parts| :: TargetFits(parts[q], old(parts[q].tuples), q, mask, shift)
    {
      hide RadixBelow, Lawful, MergedPartition, PageBase, Probes, TargetFits;
      ghost var befores := seq(|parts|, q requires 0 <= q < |parts| reads parts => parts[q].tuples);
      ok := SendTuples(parts, mask, shift, befores);
      if ok {
        entries := 0;
      }
    }
  }
}
