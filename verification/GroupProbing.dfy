/**
 * One round of the batched probe of the aggregate hash table, as functions on values.
 *
 * A round looks at one slot per remaining row, writes the groups of the rows that found a free slot, compares
 * the rows that found a tuple with their salt, and leaves in `noMatch` the rows that have to move on. The loops
 * of the table are proved to compute these functions; what a round achieves is proved here.
 */
module GroupProbing {
  import opened Common
  import opened LinearProbing
  import Bits

  // The group columns of a row
  type Key = seq<Option<int>>

  datatype Tuple<+S> = Tuple(hash: nat, key: Key, state: S)

  /** The high bits of a hash, kept in the slot to spare most comparisons. */
  function SaltOf(hash: nat, prefixShift: nat): nat {
    Bits.ShiftRight(hash, prefixShift)
  }

  /** The selection vectors of a round, and the tuple each row has been assigned so far. */
  datatype Vectors = Vectors(empty: seq<nat>, compare: seq<nat>, noMatch: seq<nat>, noMatchCount: nat,
                             addresses: seq<nat>)
  {
    ghost predicate Fits(rows: nat, count: nat) {
      noMatchCount + rows <= |noMatch| && |addresses| == count
    }
  }

  /** The ring and the tuples while the rows of a chunk are being looked up. */
  datatype Round<+S> = Round(refs: seq<int>, tuples: seq<Tuple<S>>, v: Vectors)
  {
    ghost predicate InRange() {
      forall s | 0 <= s < |refs| :: refs[s] == EMPTY || 0 <= refs[s] < |tuples|
    }
  }

  /** The rows of a chunk: their hashes, and the slot each looks at in this round. */
  datatype Chunk = Chunk(hashes: seq<nat>, offsets: seq<nat>)
  {
    ghost predicate Fits(capacity: nat) {
      |hashes| == |offsets| && forall x | 0 <= x < |offsets| :: offsets[x] < capacity
    }
  }

  /** A selection vector: distinct rows of a chunk. */
  ghost predicate Selection(sel: seq<nat>, count: nat) {
    && (forall i | 0 <= i < |sel| :: sel[i] < count)
    && (forall i, j | 0 <= i < j < |sel| :: sel[i] != sel[j])
  }

  /** Slots are only ever filled. */
  ghost predicate Grows(before: seq<int>, after: seq<int>) {
    |before| == |after| && forall s | 0 <= s < |before| && before[s] != EMPTY :: after[s] == before[s]
  }

  lemma OccupiedGrows(before: seq<int>, after: seq<int>, home: nat, d: nat)
    requires Grows(before, after) && home < |before| && d <= |before| && Occupied(before, home, d)
    ensures Occupied(after, home, d)
  {
  }

  // ---------- looking at the slots ----------

  /** One row looks at its slot. Rows that move on are written to the front of `noMatch`, in place. */
  ghost function Look<S>(r: Round<S>, c: Chunk, x: nat, initial: S, prefixShift: nat): (r': Round<S>)
    requires c.Fits(|r.refs|) && x < |c.hashes| && r.v.Fits(1, |c.hashes|) && r.InRange()
    ensures |r'.refs| == |r.refs| && r'.InRange() && r'.v.Fits(0, |c.hashes|)
    ensures |r'.v.noMatch| == |r.v.noMatch| && r.v.noMatchCount <= r'.v.noMatchCount <= r.v.noMatchCount + 1
  {
    var ref := r.refs[c.offsets[x]];
    if ref == EMPTY then
      Round(r.refs[c.offsets[x] := |r.tuples|], r.tuples + [Tuple(c.hashes[x], [], initial)],
            r.v.(empty := r.v.empty + [x], addresses := r.v.addresses[x := |r.tuples|]))
    else if SaltOf(r.tuples[ref].hash, prefixShift) == SaltOf(c.hashes[x], prefixShift) then
      r.(v := r.v.(compare := r.v.compare + [x], addresses := r.v.addresses[x := ref]))
    else
      r.(v := r.v.(noMatch := r.v.noMatch[r.v.noMatchCount := x], noMatchCount := r.v.noMatchCount + 1))
  }

  /** All rows look at their slots, one after the other. */
  ghost function LookAll<S>(r: Round<S>, c: Chunk, rows: seq<nat>, initial: S, prefixShift: nat): (r': Round<S>)
    requires c.Fits(|r.refs|) && Selection(rows, |c.hashes|) && r.v.Fits(|rows|, |c.hashes|) && r.InRange()
    ensures |r'.refs| == |r.refs| && r'.InRange() && r'.v.Fits(0, |c.hashes|)
    ensures |r'.v.noMatch| == |r.v.noMatch| && r'.v.noMatchCount <= r.v.noMatchCount + |rows|
  {
    if rows == [] then r
    else Look(LookAll(r, c, rows[..|rows| - 1], initial, prefixShift), c, rows[|rows| - 1], initial, prefixShift)
  }

  lemma LookNext<S>(r: Round<S>, c: Chunk, rows: seq<nat>, i: nat, initial: S, prefixShift: nat)
    requires c.Fits(|r.refs|) && Selection(rows, |c.hashes|) && r.v.Fits(|rows|, |c.hashes|) && r.InRange()
    requires i < |rows|
    ensures LookAll(r, c, rows[..i + 1], initial, prefixShift) ==
            Look(LookAll(r, c, rows[..i], initial, prefixShift), c, rows[i], initial, prefixShift)
  {
    assert rows[..i + 1][..i] == rows[..i];
  }

  /** What has not been read of `noMatch` has not been overwritten either. */
  lemma {:induction false} LookKeepsUnread<S>(r: Round<S>, c: Chunk, rows: seq<nat>, initial: S, prefixShift: nat)
    requires c.Fits(|r.refs|) && Selection(rows, |c.hashes|) && r.v.Fits(|rows|, |c.hashes|) && r.InRange()
    requires r.v.noMatchCount == 0
    ensures LookAll(r, c, rows, initial, prefixShift).v.noMatch[|rows|..] == r.v.noMatch[|rows|..]
  {
    if rows != [] {
      LookKeepsUnread(r, c, rows[..|rows| - 1], initial, prefixShift);
    }
  }

  lemma {:induction false} LookGrows<S>(r: Round<S>, c: Chunk, rows: seq<nat>, initial: S, prefixShift: nat)
    requires c.Fits(|r.refs|) && Selection(rows, |c.hashes|) && r.v.Fits(|rows|, |c.hashes|) && r.InRange()
    ensures var r' := LookAll(r, c, rows, initial, prefixShift); Grows(r.refs, r'.refs) && r.tuples <= r'.tuples
  {
    if rows != [] {
      LookGrows(r, c, rows[..|rows| - 1], initial, prefixShift);
    }
  }

  /** The rows of a round: each looks at the slot `d` steps from its home, past occupied slots only. */
  ghost predicate Waiting(c: Chunk, rows: seq<nat>, refs: seq<int>, d: nat)
    requires c.Fits(|refs|) && Selection(rows, |c.hashes|)
  {
    forall i | 0 <= i < |rows| :: WaitingRow(c, rows[i], refs, d)
  }

  ghost predicate WaitingRow(c: Chunk, x: nat, refs: seq<int>, d: nat)
    requires c.Fits(|refs|) && x < |c.hashes|
  {
    d < |refs| && c.offsets[x] == SlotAt(c.hashes[x] % |refs|, d, |refs|) && Occupied(refs, c.hashes[x] % |refs|, d)
  }

  /** The next row read from the selection is the right one, and its slot is still past occupied slots only. */
  lemma LookReady<S>(r: Round<S>, c: Chunk, rows: seq<nat>, i: nat, first: bool, initial: S, prefixShift: nat, d: nat)
    requires c.Fits(|r.refs|) && Selection(rows, |c.hashes|) && r.v.Fits(|rows|, |c.hashes|) && r.InRange()
    requires r.v.noMatchCount == 0 && i < |rows| && Waiting(c, rows, r.refs, d)
    requires rows[i] == if first then i else r.v.noMatch[i]
    ensures var p := LookAll(r, c, rows[..i], initial, prefixShift);
      && rows[i] == (if first then i else p.v.noMatch[i]) && WaitingRow(c, rows[i], p.refs, d)
      && LookAll(r, c, rows[..i + 1], initial, prefixShift) == Look(p, c, rows[i], initial, prefixShift)
  {
    var p := LookAll(r, c, rows[..i], initial, prefixShift);
    LookKeepsUnread(r, c, rows[..i], initial, prefixShift);
    assert p.v.noMatch[i] == p.v.noMatch[i..][0] == r.v.noMatch[i..][0];
    LookGrows(r, c, rows[..i], initial, prefixShift);
    assert WaitingRow(c, rows[i], r.refs, d);
    OccupiedGrows(r.refs, p.refs, c.hashes[rows[i]] % |r.refs|, d);
    LookNext(r, c, rows, i, initial, prefixShift);
  }

  /** The rows filed so far. */
  ghost function Filed(v: Vectors): multiset<nat>
    requires v.noMatchCount <= |v.noMatch|
  {
    multiset(v.empty) + multiset(v.compare) + multiset(v.noMatch[..v.noMatchCount])
  }

  lemma LookFiles<S>(r: Round<S>, c: Chunk, x: nat, initial: S, prefixShift: nat)
    requires c.Fits(|r.refs|) && x < |c.hashes| && r.v.Fits(1, |c.hashes|) && r.InRange()
    ensures Filed(Look(r, c, x, initial, prefixShift).v) == Filed(r.v) + multiset{x}
  {
    var v, v' := r.v, Look(r, c, x, initial, prefixShift).v;
    if v'.noMatchCount > v.noMatchCount {
      assert v'.noMatch[..v'.noMatchCount] == v.noMatch[..v.noMatchCount] + [x];
    }
  }

  lemma LastOfMultiset(rows: seq<nat>)
    requires rows != []
    ensures multiset(rows) == multiset(rows[..|rows| - 1]) + multiset{rows[|rows| - 1]}
  {
    assert rows == rows[..|rows| - 1] + [rows[|rows| - 1]];
  }

  /** No row is lost and none is filed twice. */
  lemma {:induction false} LookPartitions<S>(r: Round<S>, c: Chunk, rows: seq<nat>, initial: S, prefixShift: nat)
    requires c.Fits(|r.refs|) && Selection(rows, |c.hashes|) && r.v.Fits(|rows|, |c.hashes|) && r.InRange()
    ensures Filed(LookAll(r, c, rows, initial, prefixShift).v) == Filed(r.v) + multiset(rows)
  {
    if rows != [] {
      var n := |rows| - 1;
      LookPartitions(r, c, rows[..n], initial, prefixShift);
      LookFiles(LookAll(r, c, rows[..n], initial, prefixShift), c, rows[n], initial, prefixShift);
      LastOfMultiset(rows);
    }
  }

  /** The tuples new in `r'` are those of the rows that found a free slot, and those slots refer to them. */
  ghost predicate Appended<S>(r: Round<S>, r': Round<S>, c: Chunk, initial: S) {
    && |r'.tuples| == |r.tuples| + |r'.v.empty| && |r.refs| == |r'.refs|
    && forall j | 0 <= j < |r'.v.empty| :: AppendedAt(r, r', c, j, initial)
  }

  ghost predicate AppendedAt<S>(r: Round<S>, r': Round<S>, c: Chunk, j: nat, initial: S)
    requires j < |r'.v.empty| && |r.tuples| + j < |r'.tuples| && |r.refs| == |r'.refs|
  {
    var x := r'.v.empty[j];
    && x < |c.hashes| == |c.offsets| && c.offsets[x] < |r.refs|
    && r.refs[c.offsets[x]] == EMPTY && r'.refs[c.offsets[x]] == |r.tuples| + j
    && r'.tuples[|r.tuples| + j] == Tuple(c.hashes[x], [], initial)
  }

  lemma {:induction false} LookAppends<S>(r: Round<S>, c: Chunk, rows: seq<nat>, initial: S, prefixShift: nat)
    requires c.Fits(|r.refs|) && Selection(rows, |c.hashes|) && r.v.Fits(|rows|, |c.hashes|) && r.InRange()
    requires r.v.empty == []
    ensures Appended(r, LookAll(r, c, rows, initial, prefixShift), c, initial)
  {
    if rows != [] {
      var n := |rows| - 1;
      LookAppends(r, c, rows[..n], initial, prefixShift);
      LookGrows(r, c, rows[..n], initial, prefixShift);
      AppendedNext(r, LookAll(r, c, rows[..n], initial, prefixShift), c, rows[n], initial, prefixShift);
    }
  }

  lemma AppendedNext<S>(r: Round<S>, p: Round<S>, c: Chunk, x: nat, initial: S, prefixShift: nat)
    requires c.Fits(|p.refs|) && x < |c.hashes| && p.v.Fits(1, |c.hashes|) && p.InRange()
    requires Appended(r, p, c, initial) && Grows(r.refs, p.refs)
    ensures Appended(r, Look(p, c, x, initial, prefixShift), c, initial)
  {
    var r' := Look(p, c, x, initial, prefixShift);
    forall j | 0 <= j < |r'.v.empty| ensures AppendedAt(r, r', c, j, initial) {
      assert j < |p.v.empty| ==> AppendedAt(r, p, c, j, initial);
    }
  }

  /** The row has been given the tuple its slot refers to. */
  ghost predicate Assigned<S>(r: Round<S>, c: Chunk, x: nat) {
    && x < |c.offsets| && x < |r.v.addresses| && c.offsets[x] < |r.refs|
    && r.refs[c.offsets[x]] == r.v.addresses[x]
  }

  /** Rows filed as new or to be compared have been given a tuple; rows outside the round keep theirs. */
  ghost predicate AllAssigned<S>(r: Round<S>, r': Round<S>, c: Chunk, rows: seq<nat>) {
    && (forall x | x in r'.v.empty :: x in rows && Assigned(r', c, x))
    && (forall x | x in r'.v.compare :: x in rows && Assigned(r', c, x))
    && |r'.v.addresses| == |r.v.addresses|
    && (forall x | 0 <= x < |r.v.addresses| && x !in rows :: r'.v.addresses[x] == r.v.addresses[x])
  }

  lemma {:induction false} LookAssigns<S>(r: Round<S>, c: Chunk, rows: seq<nat>, initial: S, prefixShift: nat)
    requires c.Fits(|r.refs|) && Selection(rows, |c.hashes|) && r.v.Fits(|rows|, |c.hashes|) && r.InRange()
    requires r.v.empty == r.v.compare == []
    ensures AllAssigned(r, LookAll(r, c, rows, initial, prefixShift), c, rows)
  {
    if rows != [] {
      var n := |rows| - 1;
      LookAssigns(r, c, rows[..n], initial, prefixShift);
      assert rows == rows[..n] + [rows[n]];
      AllAssignedNext(r, LookAll(r, c, rows[..n], initial, prefixShift), c, rows[..n], rows[n], initial, prefixShift);
    }
  }

  lemma AllAssignedNext<S>(r: Round<S>, p: Round<S>, c: Chunk, rows: seq<nat>, last: nat, initial: S, prefixShift: nat)
    requires c.Fits(|p.refs|) && last < |c.hashes| && p.v.Fits(1, |c.hashes|) && p.InRange()
    requires AllAssigned(r, p, c, rows) && last !in rows
    ensures AllAssigned(r, Look(p, c, last, initial, prefixShift), c, rows + [last])
  {
    var r' := Look(p, c, last, initial, prefixShift);
    forall x | x in r'.v.empty || x in r'.v.compare ensures x in rows + [last] && Assigned(r', c, x) {
      if x != last {
        assert x in p.v.empty || x in p.v.compare;
        assert Assigned(p, c, x);
      }
    }
  }

  /** The slot a row looks at refers to a tuple with another salt. */
  ghost predicate OtherSalt<S>(r: Round<S>, c: Chunk, x: nat, prefixShift: nat) {
    && x < |c.offsets| == |c.hashes| && c.offsets[x] < |r.refs| && 0 <= r.refs[c.offsets[x]] < |r.tuples|
    && SaltOf(r.tuples[r.refs[c.offsets[x]]].hash, prefixShift) != SaltOf(c.hashes[x], prefixShift)
  }

  ghost predicate AllOtherSalt<S>(r: Round<S>, c: Chunk, prefixShift: nat) {
    && r.v.noMatchCount <= |r.v.noMatch|
    && forall x | x in r.v.noMatch[..r.v.noMatchCount] :: OtherSalt(r, c, x, prefixShift)
  }

  lemma {:induction false} LookRefuses<S>(r: Round<S>, c: Chunk, rows: seq<nat>, initial: S, prefixShift: nat)
    requires c.Fits(|r.refs|) && Selection(rows, |c.hashes|) && r.v.Fits(|rows|, |c.hashes|) && r.InRange()
    requires r.v.noMatchCount == 0
    ensures AllOtherSalt(LookAll(r, c, rows, initial, prefixShift), c, prefixShift)
  {
    if rows != [] {
      var n := |rows| - 1;
      LookRefuses(r, c, rows[..n], initial, prefixShift);
      OtherSaltNext(LookAll(r, c, rows[..n], initial, prefixShift), c, rows[n], initial, prefixShift);
    }
  }

  lemma OtherSaltNext<S>(p: Round<S>, c: Chunk, last: nat, initial: S, prefixShift: nat)
    requires c.Fits(|p.refs|) && last < |c.hashes| && p.v.Fits(1, |c.hashes|) && p.InRange()
    requires AllOtherSalt(p, c, prefixShift)
    ensures AllOtherSalt(Look(p, c, last, initial, prefixShift), c, prefixShift)
  {
    var r' := Look(p, c, last, initial, prefixShift);
    forall x | x in r'.v.noMatch[..r'.v.noMatchCount] ensures OtherSalt(r', c, x, prefixShift) {
      if x in p.v.noMatch[..p.v.noMatchCount] {
        assert OtherSalt(p, c, x, prefixShift);
      } else {
        assert x == last;
      }
    }
  }

  // ---------- writing the groups of new tuples ----------

  /** Writes the group columns of one row to the tuple it was given. */
  ghost function ScatterRow<S>(tuples: seq<Tuple<S>>, addresses: seq<nat>, keys: seq<Key>,
                               x: nat): (written: seq<Tuple<S>>)
    requires x < |addresses| == |keys|
    ensures |written| == |tuples|
  {
    if addresses[x] < |tuples| then tuples[addresses[x] := tuples[addresses[x]].(key := keys[x])] else tuples
  }

  ghost function Scatter<S>(tuples: seq<Tuple<S>>, addresses: seq<nat>, keys: seq<Key>,
                            sel: seq<nat>): (written: seq<Tuple<S>>)
    requires |addresses| == |keys| && forall i | 0 <= i < |sel| :: sel[i] < |keys|
    ensures |written| == |tuples|
  {
    if sel == [] then tuples
    else ScatterRow(Scatter(tuples, addresses, keys, sel[..|sel| - 1]), addresses, keys, sel[|sel| - 1])
  }

  /** When the selected rows were given consecutive tuples, exactly those tuples get their rows' keys. */
  ghost predicate Scattered<S>(tuples: seq<Tuple<S>>, written: seq<Tuple<S>>, keys: seq<Key>, sel: seq<nat>, first: nat)
  {
    && |written| == |tuples| >= first + |sel| && (forall j | 0 <= j < |sel| :: sel[j] < |keys|)
    && (forall i | 0 <= i < |tuples| && !(first <= i < first + |sel|) :: written[i] == tuples[i])
    && (forall j | 0 <= j < |sel| :: written[first + j] == tuples[first + j].(key := keys[sel[j]]))
  }

  lemma {:induction false} ScatterConsecutive<S>(
    tuples: seq<Tuple<S>>, addresses: seq<nat>, keys: seq<Key>, sel: seq<nat>, first: nat)
    requires |addresses| == |keys| && first + |sel| <= |tuples|
    requires forall j | 0 <= j < |sel| :: sel[j] < |addresses| && addresses[sel[j]] == first + j
    ensures Scattered(tuples, Scatter(tuples, addresses, keys, sel), keys, sel, first)
  {
    if sel != [] {
      ScatterConsecutive(tuples, addresses, keys, sel[..|sel| - 1], first);
    }
  }

  lemma ScatteredKeepsHash<S>(tuples: seq<Tuple<S>>, written: seq<Tuple<S>>, keys: seq<Key>, sel: seq<nat>, first: nat,
                              i: nat)
    requires Scattered(tuples, written, keys, sel, first) && i < |tuples|
    ensures written[i].hash == tuples[i].hash
  {
    if first <= i < first + |sel| {
      var j := i - first;
      assert written[first + j] == tuples[first + j].(key := keys[sel[j]]);
    }
  }

  // ---------- comparing groups column by column ----------

  /** Whether a row agrees with its tuple in one column; NULL agrees with NULL only. */
  predicate SameColumn<S>(tuples: seq<Tuple<S>>, addresses: seq<nat>, keys: seq<Key>, x: nat, col: nat) {
    && x < |addresses| && x < |keys| && addresses[x] < |tuples|
    && col < |keys[x]| && col < |tuples[addresses[x]].key|
    && keys[x][col] == tuples[addresses[x]].key[col]
  }

  /** A row and its tuple both have the column. */
  ghost predicate Comparable<S>(tuples: seq<Tuple<S>>, addresses: seq<nat>, keys: seq<Key>, x: nat, col: nat) {
    && x < |addresses| && x < |keys| && addresses[x] < |tuples|
    && col < |keys[x]| && col < |tuples[addresses[x]].key|
  }

  /** The rows of a selection that agree, or that disagree, with their tuple in one column. */
  ghost function ByColumn<S>(tuples: seq<Tuple<S>>, addresses: seq<nat>, keys: seq<Key>, sel: seq<nat>, col: nat,
                             same: bool)
    : (kept: seq<nat>)
  {
    if sel == [] then []
    else
      ByColumn(tuples, addresses, keys, sel[..|sel| - 1], col, same) +
      (if SameColumn(tuples, addresses, keys, sel[|sel| - 1], col) == same then [sel[|sel| - 1]] else [])
  }

  lemma ByColumnNext<S>(tuples: seq<Tuple<S>>, addresses: seq<nat>, keys: seq<Key>, sel: seq<nat>, col: nat, same: bool,
                        i: nat)
    requires i < |sel|
    ensures ByColumn(tuples, addresses, keys, sel[..i + 1], col, same) ==
            ByColumn(tuples, addresses, keys, sel[..i], col, same) +
            (if SameColumn(tuples, addresses, keys, sel[i], col) == same then [sel[i]] else [])
  {
    assert sel[..i + 1][..i] == sel[..i];
  }

  lemma {:induction false} ByColumnPartitions<S>(tuples: seq<Tuple<S>>, addresses: seq<nat>, keys: seq<Key>,
                                                 sel: seq<nat>, col: nat)
    ensures multiset(sel) == multiset(ByColumn(tuples, addresses, keys, sel, col, true)) +
                             multiset(ByColumn(tuples, addresses, keys, sel, col, false))
    ensures |ByColumn(tuples, addresses, keys, sel, col, true)| + |ByColumn(tuples, addresses, keys, sel, col, false)|
            == |sel|
  {
    if sel != [] {
      ByColumnPartitions(tuples, addresses, keys, sel[..|sel| - 1], col);
      LastOfMultiset(sel);
    }
  }

  lemma {:induction false} ByColumnAgrees<S>(
    tuples: seq<Tuple<S>>, addresses: seq<nat>, keys: seq<Key>, sel: seq<nat>, col: nat, same: bool, x: nat)
    requires x in ByColumn(tuples, addresses, keys, sel, col, same)
    ensures x in sel && SameColumn(tuples, addresses, keys, x, col) == same
  {
    var n := |sel| - 1;
    if x in ByColumn(tuples, addresses, keys, sel[..n], col, same) {
      ByColumnAgrees(tuples, addresses, keys, sel[..n], col, same, x);
    }
  }

  /** The rows left after comparing the columns from `col` on, and the rows that dropped out, in that order. */
  ghost function Compare<S>(tuples: seq<Tuple<S>>, addresses: seq<nat>, keys: seq<Key>, sel: seq<nat>, col: nat,
                            columns: nat)
    : (r: (seq<nat>, seq<nat>))
    requires col <= columns
    decreases columns - col
  {
    if col == columns then (sel, [])
    else
      var rest := Compare(tuples, addresses, keys, ByColumn(tuples, addresses, keys, sel, col, true), col + 1, columns);
      (rest.0, ByColumn(tuples, addresses, keys, sel, col, false) + rest.1)
  }

  lemma {:induction false} ComparePartitions<S>(
    tuples: seq<Tuple<S>>, addresses: seq<nat>, keys: seq<Key>, sel: seq<nat>, col: nat, columns: nat)
    requires col <= columns
    ensures multiset(sel) == multiset(Compare(tuples, addresses, keys, sel, col, columns).0) +
                             multiset(Compare(tuples, addresses, keys, sel, col, columns).1)
    decreases columns - col
  {
    if col < columns {
      ByColumnPartitions(tuples, addresses, keys, sel, col);
      ComparePartitions(tuples, addresses, keys, ByColumn(tuples, addresses, keys, sel, col, true), col + 1, columns);
    }
  }

  ghost predicate AllComparable<S>(tuples: seq<Tuple<S>>, addresses: seq<nat>, keys: seq<Key>, sel: seq<nat>,
                                   columns: nat) {
    forall x | x in sel :: WholeKeys(tuples, addresses, keys, x, columns)
  }

  ghost predicate WholeKeys<S>(tuples: seq<Tuple<S>>, addresses: seq<nat>, keys: seq<Key>, x: nat, columns: nat) {
    && x < |addresses| && x < |keys| && addresses[x] < |tuples|
    && |keys[x]| == |tuples[addresses[x]].key| == columns
  }

  lemma ByColumnComparable<S>(tuples: seq<Tuple<S>>, addresses: seq<nat>, keys: seq<Key>, sel: seq<nat>, col: nat,
                              columns: nat)
    requires AllComparable(tuples, addresses, keys, sel, columns) && col < columns
    ensures forall i | 0 <= i < |sel| :: Comparable(tuples, addresses, keys, sel[i], col)
    ensures AllComparable(tuples, addresses, keys, ByColumn(tuples, addresses, keys, sel, col, true), columns)
  {
    forall i | 0 <= i < |sel| ensures Comparable(tuples, addresses, keys, sel[i], col) {
      assert WholeKeys(tuples, addresses, keys, sel[i], columns);
    }
    forall x | x in ByColumn(tuples, addresses, keys, sel, col, true)
      ensures WholeKeys(tuples, addresses, keys, x, columns)
    {
      ByColumnAgrees(tuples, addresses, keys, sel, col, true, x);
    }
  }

  /** The columns `from..to` of a row agree with its tuple. */
  ghost predicate SameColumns<S>(tuples: seq<Tuple<S>>, addresses: seq<nat>, keys: seq<Key>, x: nat, from: nat, to: nat)
  {
    forall col | from <= col < to :: SameColumn(tuples, addresses, keys, x, col)
  }

  /** A row stays exactly when every column agrees. */
  lemma {:induction false} CompareDecides<S>(
    tuples: seq<Tuple<S>>, addresses: seq<nat>, keys: seq<Key>, sel: seq<nat>, col: nat, columns: nat, x: nat)
    requires col <= columns
    ensures x in Compare(tuples, addresses, keys, sel, col, columns).0 ==>
      x in sel && SameColumns(tuples, addresses, keys, x, col, columns)
    ensures x in Compare(tuples, addresses, keys, sel, col, columns).1 ==>
      x in sel && !SameColumns(tuples, addresses, keys, x, col, columns)
    decreases columns - col
  {
    if col < columns {
      var keep := ByColumn(tuples, addresses, keys, sel, col, true);
      var drop := ByColumn(tuples, addresses, keys, sel, col, false);
      CompareDecides(tuples, addresses, keys, keep, col + 1, columns, x);
      if x in keep {
        ByColumnAgrees(tuples, addresses, keys, sel, col, true, x);
      }
      if x in drop {
        ByColumnAgrees(tuples, addresses, keys, sel, col, false, x);
      }
    }
  }

  lemma SameKey<S>(tuples: seq<Tuple<S>>, addresses: seq<nat>, keys: seq<Key>, x: nat, columns: nat)
    requires x < |addresses| == |keys| && addresses[x] < |tuples|
    requires |keys[x]| == |tuples[addresses[x]].key| == columns
    ensures SameColumns(tuples, addresses, keys, x, 0, columns) <==> keys[x] == tuples[addresses[x]].key
  {
    if SameColumns(tuples, addresses, keys, x, 0, columns) {
      forall col | 0 <= col < columns ensures keys[x][col] == tuples[addresses[x]].key[col] {
        assert SameColumn(tuples, addresses, keys, x, col);
      }
    }
  }

  // ---------- what a round achieves ----------

  /** Everything fixed while a chunk of rows is looked up. */
  datatype Batch<+S> = Batch(keys: seq<Key>, hashes: seq<nat>, hashOf: Key -> nat, columns: nat, initial: S,
                             prefixShift: nat)
  {
    ghost predicate Valid() {
      |keys| == |hashes| && forall x | 0 <= x < |keys| :: |keys[x]| == columns && hashes[x] == hashOf(keys[x])
    }
  }

  /** Tuples carry the hash of their key, and no key occurs twice. */
  ghost predicate Keyed<S>(tuples: seq<Tuple<S>>, hashOf: Key -> nat, columns: nat) {
    && (forall i | 0 <= i < |tuples| :: |tuples[i].key| == columns && tuples[i].hash == hashOf(tuples[i].key))
    && (forall i, j | 0 <= i < j < |tuples| :: tuples[i].key != tuples[j].key)
  }

  /** The ring indexes the tuples by their hashes. */
  ghost predicate Indexed<S>(refs: seq<int>, homes: seq<nat>, dist: seq<nat>, tuples: seq<Tuple<S>>) {
    && Probes(refs, homes, dist) && |homes| == |tuples| && 0 < |refs|
    && (forall i | 0 <= i < |tuples| :: homes[i] == tuples[i].hash % |refs|)
  }

  /** The slot `e` steps from the home of a hash refers to a tuple with another key. */
  ghost predicate PassedBy<S>(refs: seq<int>, tuples: seq<Tuple<S>>, hash: nat, key: Key, e: nat)
    requires e < |refs|
  {
    var q := refs[SlotAt(hash % |refs|, e, |refs|)];
    0 <= q < |tuples| && tuples[q].key != key
  }

  /** A row that has passed `d` slots without success and now looks at the next. */
  ghost predicate Pending<S>(refs: seq<int>, tuples: seq<Tuple<S>>, b: Batch<S>, offsets: seq<nat>, x: nat, d: nat) {
    && x < |b.keys| && x < |b.hashes| && x < |offsets| && d < |refs|
    && offsets[x] == SlotAt(b.hashes[x] % |refs|, d, |refs|)
    && (forall e: nat | e < d :: PassedBy(refs, tuples, b.hashes[x], b.keys[x], e))
  }

  lemma PendingOccupied<S>(refs: seq<int>, tuples: seq<Tuple<S>>, b: Batch<S>, offsets: seq<nat>, x: nat, d: nat)
    requires Pending(refs, tuples, b, offsets, x, d)
    ensures Occupied(refs, b.hashes[x] % |refs|, d)
  {
    forall e: nat | e < d ensures refs[SlotAt(b.hashes[x] % |refs|, e, |refs|)] != EMPTY {
      assert PassedBy(refs, tuples, b.hashes[x], b.keys[x], e);
    }
  }

  /** A row that has its tuple. */
  ghost predicate Resolved<S>(tuples: seq<Tuple<S>>, b: Batch<S>, addresses: seq<nat>, x: nat) {
    x < |b.keys| && x < |addresses| && addresses[x] < |tuples| && tuples[addresses[x]].key == b.keys[x]
  }

  /** A pending row that reaches a free slot has a key the table does not hold. */
  lemma FreeSlotMeansAbsent<S>(
    refs: seq<int>, homes: seq<nat>, dist: seq<nat>, tuples: seq<Tuple<S>>, b: Batch<S>, offsets: seq<nat>,
    x: nat, d: nat, i: nat)
    requires Indexed(refs, homes, dist, tuples) && Keyed(tuples, b.hashOf, b.columns) && b.Valid()
    requires Pending(refs, tuples, b, offsets, x, d) && refs[offsets[x]] == EMPTY && i < |tuples|
    ensures tuples[i].key != b.keys[x]
  {
    if homes[i] == b.hashes[x] % |refs| {
      MetBeforeEmptySlot(refs, homes, dist, d, i);
      assert PassedBy(refs, tuples, b.hashes[x], b.keys[x], dist[i]);
    }
  }

  /** Two rows that both found a free slot in the same round have different keys. */
  lemma FreshKeysDiffer<S>(r: Round<S>, r': Round<S>, b: Batch<S>, offsets: seq<nat>, d: nat, i: nat, j: nat)
    requires b.Valid() && Appended(r, r', Chunk(b.hashes, offsets), b.initial) && i < j < |r'.v.empty|
    requires Pending(r.refs, r.tuples, b, offsets, r'.v.empty[i], d)
    requires Pending(r.refs, r.tuples, b, offsets, r'.v.empty[j], d)
    ensures b.keys[r'.v.empty[i]] != b.keys[r'.v.empty[j]]
  {
    var c := Chunk(b.hashes, offsets);
    assert AppendedAt(r, r', c, i, b.initial) && AppendedAt(r, r', c, j, b.initial);
  }

  /** After the groups of the new tuples are written, every key still occurs once. */
  lemma RoundKeyed<S>(r: Round<S>, r': Round<S>, written: seq<Tuple<S>>, homes: seq<nat>, dist: seq<nat>,
                      b: Batch<S>, offsets: seq<nat>, d: nat)
    requires b.Valid() && Indexed(r.refs, homes, dist, r.tuples) && Keyed(r.tuples, b.hashOf, b.columns)
    requires Appended(r, r', Chunk(b.hashes, offsets), b.initial) && r.tuples <= r'.tuples
    requires Scattered(r'.tuples, written, b.keys, r'.v.empty, |r.tuples|)
    requires forall x | x in r'.v.empty :: Pending(r.refs, r.tuples, b, offsets, x, d)
    ensures Keyed(written, b.hashOf, b.columns)
  {
    var c, n := Chunk(b.hashes, offsets), |r.tuples|;
    forall i | 0 <= i < |written|
      ensures |written[i].key| == b.columns && written[i].hash == b.hashOf(written[i].key)
    {
      if i >= n {
        assert AppendedAt(r, r', c, i - n, b.initial);
      }
    }
    forall i, j | 0 <= i < j < |written| ensures written[i].key != written[j].key {
      if j >= n {
        var y := r'.v.empty[j - n];
        assert AppendedAt(r, r', c, j - n, b.initial) && y in r'.v.empty;
        if i >= n {
          assert r'.v.empty[i - n] in r'.v.empty;
          FreshKeysDiffer(r, r', b, offsets, d, i - n, j - n);
        } else {
          FreeSlotMeansAbsent(r.refs, homes, dist, r.tuples, b, offsets, y, d, i);
        }
      }
    }
  }

  /** The slots a row has passed stay passed: they keep their tuples, and those keep their keys. */
  lemma PassedByGrows<S>(refs: seq<int>, tuples: seq<Tuple<S>>, refs': seq<int>, written: seq<Tuple<S>>,
                         hash: nat, key: Key, e: nat)
    requires Grows(refs, refs') && e < |refs| && PassedBy(refs, tuples, hash, key, e)
    requires |tuples| <= |written| && forall i | 0 <= i < |tuples| :: written[i] == tuples[i]
    ensures PassedBy(refs', written, hash, key, e)
  {
  }

  /** A row that is refused at its slot is pending at the next one. */
  lemma MovesOn<S>(refs: seq<int>, tuples: seq<Tuple<S>>, refs': seq<int>, written: seq<Tuple<S>>,
                   b: Batch<S>, offsets: seq<nat>, offsets': seq<nat>, x: nat, d: nat)
    requires Grows(refs, refs') && Pending(refs, tuples, b, offsets, x, d) && d + 1 < |refs|
    requires |tuples| <= |written| && forall i | 0 <= i < |tuples| :: written[i] == tuples[i]
    requires PassedBy(refs', written, b.hashes[x], b.keys[x], d)
    requires x < |offsets'| && offsets'[x] == if offsets[x] + 1 >= |refs| then 0 else offsets[x] + 1
    ensures Pending(refs', written, b, offsets', x, d + 1)
  {
    forall e: nat | e < d + 1 ensures PassedBy(refs', written, b.hashes[x], b.keys[x], e) {
      if e < d {
        PassedByGrows(refs, tuples, refs', written, b.hashes[x], b.keys[x], e);
      }
    }
  }

  /** Another salt means another hash, hence another key. */
  lemma OtherSaltPasses<S>(r': Round<S>, written: seq<Tuple<S>>, b: Batch<S>, offsets: seq<nat>, x: nat, d: nat)
    requires b.Valid() && Keyed(written, b.hashOf, b.columns)
    requires OtherSalt(r', Chunk(b.hashes, offsets), x, b.prefixShift)
    requires |written| == |r'.tuples| && forall i | 0 <= i < |written| :: written[i].hash == r'.tuples[i].hash
    requires d < |r'.refs| && offsets[x] == SlotAt(b.hashes[x] % |r'.refs|, d, |r'.refs|)
    ensures PassedBy(r'.refs, written, b.hashes[x], b.keys[x], d)
  {
  }

  // ---------- selections and multisets ----------

  lemma {:induction false} CountOnce(sel: seq<nat>, x: nat)
    requires forall i, j | 0 <= i < j < |sel| :: sel[i] != sel[j]
    ensures multiset(sel)[x] <= 1
  {
    if sel != [] {
      var n := |sel| - 1;
      LastOfMultiset(sel);
      CountOnce(sel[..n], x);
      if x == sel[n] {
        assert x !in sel[..n];
      }
    }
  }

  /** A vector filled from parts of a selection is again a selection. */
  lemma SubSelection(rows: seq<nat>, part: seq<nat>, rest: multiset<nat>, count: nat)
    requires Selection(rows, count) && multiset(rows) == multiset(part) + rest
    ensures Selection(part, count) && forall x | x in part :: x in rows
  {
    forall i | 0 <= i < |part| ensures part[i] < count && part[i] in rows {
      assert part[i] in multiset(part);
      assert part[i] in multiset(rows);
    }
    forall i, j | 0 <= i < j < |part| ensures part[i] != part[j] {
      if part[i] == part[j] {
        TwiceCounted(part, i, j);
        CountOnce(rows, part[i]);
      }
    }
  }

  lemma TwiceCounted(part: seq<nat>, i: nat, j: nat)
    requires i < j < |part| && part[i] == part[j]
    ensures multiset(part)[part[i]] >= 2
  {
    assert part == part[..j] + part[j..];
    assert part[i] in part[..j] && part[j] in part[j..];
    assert multiset(part) == multiset(part[..j]) + multiset(part[j..]);
  }

  // ---------- a whole round ----------

  /** Where a lookup stands: the rows still to be placed have passed `d` slots, all others have their tuple. */
  ghost predicate Lookup<S>(refs: seq<int>, tuples: seq<Tuple<S>>, b: Batch<S>, offsets: seq<nat>, addresses: seq<nat>,
                            rows: seq<nat>, d: nat)
  {
    && b.Valid() && Keyed(tuples, b.hashOf, b.columns)
    && |offsets| == |addresses| == |b.keys| && Selection(rows, |b.keys|)
    && (forall x | x in rows :: Pending(refs, tuples, b, offsets, x, d))
    && (forall x | 0 <= x < |b.keys| && x !in rows :: Resolved(tuples, b, addresses, x))
  }

  /** All that is known once every row has looked at its slot. */
  ghost predicate Looked<S>(r: Round<S>, r': Round<S>, b: Batch<S>, offsets: seq<nat>, rows: seq<nat>) {
    var c := Chunk(b.hashes, offsets);
    && Grows(r.refs, r'.refs) && r.tuples <= r'.tuples && r'.v.noMatchCount <= |r'.v.noMatch|
    && Appended(r, r', c, b.initial) && AllAssigned(r, r', c, rows) && AllOtherSalt(r', c, b.prefixShift)
    && Filed(r'.v) == multiset(rows)
  }

  lemma LookAllLooked<S>(r: Round<S>, b: Batch<S>, offsets: seq<nat>, rows: seq<nat>)
    requires Chunk(b.hashes, offsets).Fits(|r.refs|) && Selection(rows, |b.hashes|)
    requires r.v.Fits(|rows|, |b.hashes|) && r.InRange() && r.v.empty == r.v.compare == [] && r.v.noMatchCount == 0
    ensures Looked(r, LookAll(r, Chunk(b.hashes, offsets), rows, b.initial, b.prefixShift), b, offsets, rows)
  {
    var c := Chunk(b.hashes, offsets);
    LookGrows(r, c, rows, b.initial, b.prefixShift);
    LookAppends(r, c, rows, b.initial, b.prefixShift);
    LookAssigns(r, c, rows, b.initial, b.prefixShift);
    LookRefuses(r, c, rows, b.initial, b.prefixShift);
    LookPartitions(r, c, rows, b.initial, b.prefixShift);
  }

  /** The new tuples hold the keys of the rows that found a free slot; nothing else changed. */
  lemma RoundScatters<S>(r: Round<S>, r': Round<S>, b: Batch<S>, offsets: seq<nat>, rows: seq<nat>)
    requires Looked(r, r', b, offsets, rows) && |r'.v.addresses| == |b.keys|
    ensures forall i | 0 <= i < |r'.v.empty| :: r'.v.empty[i] < |b.keys|
    ensures Scattered(r'.tuples, Scatter(r'.tuples, r'.v.addresses, b.keys, r'.v.empty), b.keys, r'.v.empty, |r.tuples|)
  {
    var c := Chunk(b.hashes, offsets);
    forall j | 0 <= j < |r'.v.empty|
      ensures r'.v.empty[j] < |b.keys| && r'.v.addresses[r'.v.empty[j]] == |r.tuples| + j
    {
      assert AppendedAt(r, r', c, j, b.initial) && r'.v.empty[j] in r'.v.empty;
      assert Assigned(r', c, r'.v.empty[j]);
    }
    ScatterConsecutive(r'.tuples, r'.v.addresses, b.keys, r'.v.empty, |r.tuples|);
  }

  /** Rows that found a free slot have their tuple. */
  lemma FreshResolved<S>(r: Round<S>, r': Round<S>, written: seq<Tuple<S>>, b: Batch<S>, offsets: seq<nat>,
                         rows: seq<nat>, x: nat)
    requires Looked(r, r', b, offsets, rows) && |r'.v.addresses| == |b.keys| && x in r'.v.empty
    requires Scattered(r'.tuples, written, b.keys, r'.v.empty, |r.tuples|)
    ensures Resolved(written, b, r'.v.addresses, x)
  {
    var j :| 0 <= j < |r'.v.empty| && r'.v.empty[j] == x;
    assert AppendedAt(r, r', Chunk(b.hashes, offsets), j, b.initial);
    assert Assigned(r', Chunk(b.hashes, offsets), x);
    assert written[|r.tuples| + j] == r'.tuples[|r.tuples| + j].(key := b.keys[x]);
  }

  /** Rows that had their tuple before the round still have it. */
  lemma StillResolved<S>(r: Round<S>, r': Round<S>, written: seq<Tuple<S>>, b: Batch<S>, offsets: seq<nat>,
                         rows: seq<nat>, x: nat)
    requires Looked(r, r', b, offsets, rows) && Scattered(r'.tuples, written, b.keys, r'.v.empty, |r.tuples|)
    requires x !in rows && Resolved(r.tuples, b, r.v.addresses, x)
    ensures Resolved(written, b, r'.v.addresses, x)
  {
    assert r'.tuples[r.v.addresses[x]] == r.tuples[r.v.addresses[x]];
  }

  /** The rows a round leaves over. */
  ghost function Leftover<S>(r': Round<S>, written: seq<Tuple<S>>, b: Batch<S>): seq<nat>
    requires r'.v.noMatchCount <= |r'.v.noMatch|
  {
    r'.v.noMatch[..r'.v.noMatchCount] + Compare(written, r'.v.addresses, b.keys, r'.v.compare, 0, b.columns).1
  }

  lemma LeftoverSelection<S>(r': Round<S>, written: seq<Tuple<S>>, b: Batch<S>, rows: seq<nat>)
    requires r'.v.noMatchCount <= |r'.v.noMatch| && Filed(r'.v) == multiset(rows) && Selection(rows, |b.keys|)
    ensures var matched := Compare(written, r'.v.addresses, b.keys, r'.v.compare, 0, b.columns).0;
      multiset(rows) == multiset(Leftover(r', written, b)) + (multiset(r'.v.empty) + multiset(matched))
    ensures Selection(Leftover(r', written, b), |b.keys|)
    ensures forall x | x in Leftover(r', written, b) :: x in rows
  {
    ComparePartitions(written, r'.v.addresses, b.keys, r'.v.compare, 0, b.columns);
    var (matched, dropped) := Compare(written, r'.v.addresses, b.keys, r'.v.compare, 0, b.columns);
    assert multiset(Leftover(r', written, b)) == multiset(r'.v.noMatch[..r'.v.noMatchCount]) + multiset(dropped);
    SubSelection(rows, Leftover(r', written, b), multiset(r'.v.empty) + multiset(matched), |b.keys|);
  }

  /** Comparing decides whether the tuple at a row's slot is its own. */
  lemma ComparedRow<S>(r: Round<S>, r': Round<S>, written: seq<Tuple<S>>, b: Batch<S>, offsets: seq<nat>,
                       rows: seq<nat>, x: nat, d: nat)
    requires b.Valid() && Looked(r, r', b, offsets, rows) && r'.InRange() && |written| == |r'.tuples|
    requires Keyed(written, b.hashOf, b.columns) && |r'.v.addresses| == |b.keys| && x in r'.v.compare
    requires d < |r'.refs| && x < |b.keys| == |offsets| && offsets[x] == SlotAt(b.hashes[x] % |r'.refs|, d, |r'.refs|)
    ensures x in Compare(written, r'.v.addresses, b.keys, r'.v.compare, 0, b.columns).0 ==>
            Resolved(written, b, r'.v.addresses, x)
    ensures x in Compare(written, r'.v.addresses, b.keys, r'.v.compare, 0, b.columns).1 ==>
      PassedBy(r'.refs, written, b.hashes[x], b.keys[x], d)
  {
    assert Assigned(r', Chunk(b.hashes, offsets), x);
    CompareDecides(written, r'.v.addresses, b.keys, r'.v.compare, 0, b.columns, x);
    SameKey(written, r'.v.addresses, b.keys, x, b.columns);
  }

  /** A row left over has passed the slot it looked at. */
  lemma LeftoverPasses<S>(r: Round<S>, r': Round<S>, written: seq<Tuple<S>>, b: Batch<S>, offsets: seq<nat>,
                          rows: seq<nat>, x: nat, d: nat)
    requires b.Valid() && Looked(r, r', b, offsets, rows) && r'.InRange() && |r'.v.addresses| == |b.keys|
    requires Keyed(written, b.hashOf, b.columns) && Scattered(r'.tuples, written, b.keys, r'.v.empty, |r.tuples|)
    requires d < |r'.refs| && x < |b.keys| == |offsets| && offsets[x] == SlotAt(b.hashes[x] % |r'.refs|, d, |r'.refs|)
    requires x in Leftover(r', written, b)
    ensures PassedBy(r'.refs, written, b.hashes[x], b.keys[x], d)
  {
    if x in r'.v.noMatch[..r'.v.noMatchCount] {
      forall i | 0 <= i < |written| ensures written[i].hash == r'.tuples[i].hash {
        ScatteredKeepsHash(r'.tuples, written, b.keys, r'.v.empty, |r.tuples|, i);
      }
      OtherSaltPasses(r', written, b, offsets, x, d);
    } else {
      CompareDecides(written, r'.v.addresses, b.keys, r'.v.compare, 0, b.columns, x);
      ComparedRow(r, r', written, b, offsets, rows, x, d);
    }
  }

  /** A row of the round that is not left over has its tuple. */
  lemma NotLeftoverResolved<S>(r: Round<S>, r': Round<S>, written: seq<Tuple<S>>, b: Batch<S>, offsets: seq<nat>,
                               rows: seq<nat>, x: nat, d: nat)
    requires b.Valid() && Looked(r, r', b, offsets, rows) && r'.InRange() && |r'.v.addresses| == |b.keys|
    requires Keyed(written, b.hashOf, b.columns) && Scattered(r'.tuples, written, b.keys, r'.v.empty, |r.tuples|)
    requires d < |r'.refs| && x < |b.keys| == |offsets| && offsets[x] == SlotAt(b.hashes[x] % |r'.refs|, d, |r'.refs|)
    requires x in rows && x !in Leftover(r', written, b) && Selection(rows, |b.keys|)
    ensures Resolved(written, b, r'.v.addresses, x)
  {
    LeftoverSelection(r', written, b, rows);
    var matched := Compare(written, r'.v.addresses, b.keys, r'.v.compare, 0, b.columns).0;
    assert x in multiset(rows);
    if x in r'.v.empty {
      FreshResolved(r, r', written, b, offsets, rows, x);
    } else {
      assert x in matched;
      CompareDecides(written, r'.v.addresses, b.keys, r'.v.compare, 0, b.columns, x);
      ComparedRow(r, r', written, b, offsets, rows, x, d);
    }
  }

  /** The slot after the one each row of `moved` looks at; other rows stay. */
  ghost predicate Advanced(offsets: seq<nat>, offsets': seq<nat>, moved: seq<nat>, capacity: nat) {
    |offsets'| == |offsets| && forall x | x in moved && x < |offsets| ::
      offsets'[x] == if offsets[x] + 1 >= capacity then 0 else offsets[x] + 1
  }

  /** A round takes a lookup one slot further. */
  lemma RoundProgress<S>(r: Round<S>, r': Round<S>, written: seq<Tuple<S>>,
                         b: Batch<S>, offsets: seq<nat>, offsets': seq<nat>, rows: seq<nat>, d: nat)
    requires Lookup(r.refs, r.tuples, b, offsets, r.v.addresses, rows, d)
    requires Looked(r, r', b, offsets, rows) && r'.InRange()
    requires Scattered(r'.tuples, written, b.keys, r'.v.empty, |r.tuples|)
    requires Advanced(offsets, offsets', Leftover(r', written, b), |r.refs|)
    requires Keyed(written, b.hashOf, b.columns)
    requires d + 1 < |r.refs| || Leftover(r', written, b) == []
    ensures Lookup(r'.refs, written, b, offsets', r'.v.addresses, Leftover(r', written, b), d + 1)
  {
    var next := Leftover(r', written, b);
    LeftoverSelection(r', written, b, rows);
    forall x | x in next ensures Pending(r'.refs, written, b, offsets', x, d + 1) {
      LeftoverPasses(r, r', written, b, offsets, rows, x, d);
      MovesOn(r.refs, r.tuples, r'.refs, written, b, offsets, offsets', x, d);
    }
    forall x | 0 <= x < |b.keys| && x !in next ensures Resolved(written, b, r'.v.addresses, x) {
      if x in rows {
        NotLeftoverResolved(r, r', written, b, offsets, rows, x, d);
      } else {
        StillResolved(r, r', written, b, offsets, rows, x);
      }
    }
  }

  lemma PassedToEnd<S>(r: Round<S>, r': Round<S>, written: seq<Tuple<S>>, b: Batch<S>, offsets: seq<nat>, x: nat,
                       d: nat)
    requires Pending(r.refs, r.tuples, b, offsets, x, d) && Grows(r.refs, r'.refs)
    requires PassedBy(r'.refs, written, b.hashes[x], b.keys[x], d)
    ensures Occupied(r'.refs, b.hashes[x] % |r.refs|, d + 1)
  {
    PendingOccupied(r.refs, r.tuples, b, offsets, x, d);
  }

  /** There is a next slot to look at: a full turn would have met only occupied slots. */
  lemma NextSlotExists<S>(r: Round<S>, r': Round<S>, written: seq<Tuple<S>>, homes: seq<nat>, dist: seq<nat>,
                          b: Batch<S>, offsets: seq<nat>, rows: seq<nat>, d: nat)
    requires Lookup(r.refs, r.tuples, b, offsets, r.v.addresses, rows, d) && Keyed(written, b.hashOf, b.columns)
    requires Looked(r, r', b, offsets, rows) && r'.InRange()
    requires Scattered(r'.tuples, written, b.keys, r'.v.empty, |r.tuples|)
    requires Probes(r'.refs, homes, dist) && |homes| < |r'.refs|
    ensures d + 1 < |r.refs| || Leftover(r', written, b) == []
  {
    var next := Leftover(r', written, b);
    if next != [] {
      LeftoverSelection(r', written, b, rows);
      assert next[0] in rows;
      LeftoverPasses(r, r', written, b, offsets, rows, next[0], d);
      PassedToEnd(r, r', written, b, offsets, next[0], d);
      WalkEnds(r'.refs, homes, dist, b.hashes[next[0]] % |r.refs|);
    }
  }

  lemma PendingWait<S>(r: Round<S>, b: Batch<S>, offsets: seq<nat>, rows: seq<nat>, d: nat)
    requires Lookup(r.refs, r.tuples, b, offsets, r.v.addresses, rows, d) && Chunk(b.hashes, offsets).Fits(|r.refs|)
    ensures Waiting(Chunk(b.hashes, offsets), rows, r.refs, d)
  {
    forall i | 0 <= i < |rows| ensures WaitingRow(Chunk(b.hashes, offsets), rows[i], r.refs, d) {
      PendingOccupied(r.refs, r.tuples, b, offsets, rows[i], d);
    }
  }

  lemma FreshAddressesInRange<S>(r: Round<S>, r': Round<S>, b: Batch<S>, offsets: seq<nat>, rows: seq<nat>)
    requires Looked(r, r', b, offsets, rows) && |r'.v.addresses| == |b.keys|
    ensures forall i | 0 <= i < |r'.v.empty| :: r'.v.empty[i] < |b.keys| && r'.v.addresses[r'.v.empty[i]] < |r'.tuples|
  {
    forall j | 0 <= j < |r'.v.empty|
      ensures r'.v.empty[j] < |b.keys| && r'.v.addresses[r'.v.empty[j]] < |r'.tuples|
    {
      assert AppendedAt(r, r', Chunk(b.hashes, offsets), j, b.initial) && r'.v.empty[j] in r'.v.empty;
      assert Assigned(r', Chunk(b.hashes, offsets), r'.v.empty[j]);
    }
  }

  /** The tuples behind `before` are those of the listed rows, freshly initialised. */
  ghost predicate Created<S>(before: seq<Tuple<S>>, tuples: seq<Tuple<S>>, newGroups: seq<nat>, b: Batch<S>) {
    && before <= tuples && |tuples| == |before| + |newGroups| && |b.keys| == |b.hashes|
    && (forall j | 0 <= j < |newGroups| :: newGroups[j] < |b.keys| &&
          tuples[|before| + j] == Tuple(b.hashes[newGroups[j]], b.keys[newGroups[j]], b.initial))
  }

  lemma RoundCreates<S>(before: seq<Tuple<S>>, r: Round<S>, r': Round<S>, written: seq<Tuple<S>>, newGroups: seq<nat>,
                        b: Batch<S>, offsets: seq<nat>, rows: seq<nat>)
    requires Created(before, r.tuples, newGroups, b) && Looked(r, r', b, offsets, rows)
    requires Scattered(r'.tuples, written, b.keys, r'.v.empty, |r.tuples|)
    ensures Created(before, written, newGroups + r'.v.empty, b)
  {
    var all := newGroups + r'.v.empty;
    forall j | 0 <= j < |all|
      ensures all[j] < |b.keys| && written[|before| + j] == Tuple(b.hashes[all[j]], b.keys[all[j]], b.initial)
    {
      if j >= |newGroups| {
        var k := j - |newGroups|;
        assert AppendedAt(r, r', Chunk(b.hashes, offsets), k, b.initial);
        assert written[|r.tuples| + k] == r'.tuples[|r.tuples| + k].(key := b.keys[r'.v.empty[k]]);
      }
    }
  }

  lemma RoundSizes<S>(r': Round<S>, written: seq<Tuple<S>>, b: Batch<S>, rows: seq<nat>)
    requires r'.v.noMatchCount <= |r'.v.noMatch| && Filed(r'.v) == multiset(rows) && Selection(rows, |b.keys|)
    ensures |Leftover(r', written, b)| + |r'.v.empty| <= |rows|
    ensures r'.v.noMatchCount + |r'.v.compare| <= |rows|
    ensures Selection(Leftover(r', written, b), |b.keys|)
  {
    LeftoverSelection(r', written, b, rows);
    var matched := Compare(written, r'.v.addresses, b.keys, r'.v.compare, 0, b.columns).0;
    assert |multiset(rows)| == |multiset(Leftover(r', written, b))| + |multiset(r'.v.empty)| + |multiset(matched)|;
    assert |multiset(rows)| ==
           |multiset(r'.v.empty)| + |multiset(r'.v.compare)| + |multiset(r'.v.noMatch[..r'.v.noMatchCount])|;
  }

  lemma CandidatesComparable<S>(r: Round<S>, r': Round<S>, written: seq<Tuple<S>>, b: Batch<S>, offsets: seq<nat>,
                                rows: seq<nat>)
    requires b.Valid() && Looked(r, r', b, offsets, rows) && r'.InRange() && |written| == |r'.tuples|
    requires Keyed(written, b.hashOf, b.columns) && |r'.v.addresses| == |b.keys|
    ensures AllComparable(written, r'.v.addresses, b.keys, r'.v.compare, b.columns)
  {
    forall x | x in r'.v.compare ensures WholeKeys(written, r'.v.addresses, b.keys, x, b.columns) {
      assert Assigned(r', Chunk(b.hashes, offsets), x);
    }
  }

  /** Every row looks at the home slot of its hash. */
  ghost predicate AtHome(hashes: seq<nat>, offsets: seq<nat>, capacity: nat) {
    0 < capacity && |offsets| == |hashes| && forall x | 0 <= x < |hashes| :: offsets[x] == hashes[x] % capacity
  }

  lemma LookupStart<S>(refs: seq<int>, tuples: seq<Tuple<S>>, b: Batch<S>, offsets: seq<nat>, addresses: seq<nat>,
                       rows: seq<nat>)
    requires b.Valid() && Keyed(tuples, b.hashOf, b.columns) && AtHome(b.hashes, offsets, |refs|)
    requires |addresses| == |b.keys| == |rows| && forall x | 0 <= x < |rows| :: rows[x] == x
    ensures Lookup(refs, tuples, b, offsets, addresses, rows, 0)
    ensures Chunk(b.hashes, offsets).Fits(|refs|)
  {
    forall x | 0 <= x < |b.keys| ensures x in rows {
      assert rows[x] == x;
    }
  }

  ghost predicate AllResolved<S>(tuples: seq<Tuple<S>>, b: Batch<S>, addresses: seq<nat>) {
    |addresses| == |b.keys| && forall x | 0 <= x < |b.keys| :: Resolved(tuples, b, addresses, x)
  }
}
