/**
 * The resumable scan of one probe chunk and the join types built on it (src/execution/join_hashtable.cpp:432-1100).
 */
module JoinProbe {
  import opened Common
  import opened JoinBuild
  import opened JoinChains
  import opened JoinHashTable
  import opened JoinResults
  import opened JoinScan
  import opened JoinSemantics

  ghost predicate RowFound(emitted: seq<(nat, nat)>, i: nat) {
    exists x :: 0 <= x < |emitted| && emitted[x].0 == i
  }

  ghost predicate TupleFound(emitted: seq<(nat, nat)>, t: nat) {
    exists x :: 0 <= x < |emitted| && emitted[x].1 == t
  }

  /** The flags of the probe rows that joined something. */
  ghost predicate MarksRows(flags: seq<bool>, emitted: seq<(nat, nat)>) {
    forall i | 0 <= i < |flags| :: flags[i] <==> RowFound(emitted, i)
  }

  /** The flags of the tuples that were joined, in this scan or before it. */
  ghost predicate MarksTuples(flags: seq<bool>, before: seq<bool>, emitted: seq<(nat, nat)>) {
    |flags| == |before| && forall t | 0 <= t < |flags| :: flags[t] <==> before[t] || TupleFound(emitted, t)
  }

  lemma RowFoundAppend(emitted: seq<(nat, nat)>, pointers: seq<Option<nat>>, rows: seq<nat>, i: nat)
    requires Selects(rows, pointers)
    ensures RowFound(emitted + RoundPairs(pointers, rows), i) <==> RowFound(emitted, i) || i in rows
  {
    var pairs := RoundPairs(pointers, rows);
    var all := emitted + pairs;
    if RowFound(emitted, i) {
      var x :| 0 <= x < |emitted| && emitted[x].0 == i;
      assert all[x].0 == i;
    }
    if i in rows {
      var x :| 0 <= x < |rows| && rows[x] == i;
      assert all[|emitted| + x].0 == i;
    }
  }

  lemma TupleFoundAppend(emitted: seq<(nat, nat)>, pairs: seq<(nat, nat)>, hits: seq<nat>, t: nat)
    requires |hits| == |pairs| && forall x | 0 <= x < |pairs| :: hits[x] == pairs[x].1
    ensures TupleFound(emitted + pairs, t) <==> TupleFound(emitted, t) || t in hits
  {
    var all := emitted + pairs;
    if TupleFound(emitted, t) {
      var x :| 0 <= x < |emitted| && emitted[x].1 == t;
      assert all[x].1 == t;
    }
    if t in hits {
      var x :| 0 <= x < |hits| && hits[x] == t;
      assert all[|emitted| + x].1 == t;
    }
    if TupleFound(all, t) && !TupleFound(emitted, t) {
      var x :| 0 <= x < |all| && all[x].1 == t;
      assert x >= |emitted| && hits[x - |emitted|] == t;
    }
  }

  /** The tuples a round's rows point to. */
  function HitTuples(pairs: seq<(nat, nat)>): (hits: seq<nat>)
    ensures |hits| == |pairs| && forall x | 0 <= x < |pairs| :: hits[x] == pairs[x].1
  {
    seq(|pairs|, x requires 0 <= x < |pairs| => pairs[x].1)
  }

  lemma RoundInTable(ops: Operands, buckets: seq<nat>, home: seq<nat>, pointers: seq<Option<nat>>, rows: seq<nat>)
    requires Positioned(ops, buckets, home, pointers) && Selects(rows, pointers)
    ensures forall x | 0 <= x < |rows| :: pointers[rows[x]].value < |ops.stored|
  {
    forall x | 0 <= x < |rows| ensures pointers[rows[x]].value < |ops.stored| {
      assert PointerOk(ops, buckets, home, pointers, rows[x]);
    }
  }

  /** The matches of the next round that finds any, with the flags they raise. */
  method NextMatches(kind: JoinType, ops: Operands, slots: seq<Slot>, pointers: seq<Option<nat>>, sel: seq<nat>,
                     foundMatch: seq<bool>, found: seq<bool>, ghost buckets: seq<nat>, ghost home: seq<nat>,
                     ghost emitted: seq<(nat, nat)>, ghost before: seq<bool>)
    returns (pairs: seq<(nat, nat)>, pointers': seq<Option<nat>>, sel': seq<nat>, foundMatch': seq<bool>,
             found': seq<bool>)
    requires InScan(ops, buckets, home, slots, pointers, sel, emitted) && |found| == |ops.stored|
    requires !kind.Inner? ==> |foundMatch| == |pointers| && MarksRows(foundMatch, emitted)
    requires kind.IsRightOuter() ==> MarksTuples(found, before, emitted)
    ensures InScan(ops, buckets, home, slots, pointers', sel', emitted + pairs)
    ensures |pointers'| == |pointers| && |foundMatch'| == |foundMatch| && |found'| == |found|
    ensures !kind.Inner? ==> MarksRows(foundMatch', emitted + pairs)
    ensures kind.IsRightOuter() ==> MarksTuples(found', before, emitted + pairs)
    ensures !kind.IsRightOuter() ==> found' == found
    ensures pairs == [] ==> sel' == []
    ensures pairs != [] ==> Remaining(pointers') < Remaining(pointers)
    ensures forall x | 0 <= x < |pairs| :: pairs[x].0 < |pointers| && pairs[x].1 < |ops.stored|
  {
    hide Positioned, Chained, Emitted, Advanced, SplitBy, RowFound, TupleFound;
    var rows, current, selected;
    ghost var noMatch;
    rows, current, selected, noMatch := ScanInnerJoin(ops, slots, pointers, sel, buckets, home, emitted);
    ScanLengths(ops, buckets, home, slots, pointers, sel, emitted);
    ScanLengths(ops, buckets, home, slots, current, selected, emitted);
    if |rows| == 0 {
      pairs, pointers', sel', foundMatch', found' := [], current, selected, foundMatch, found;
      assert emitted + pairs == emitted;
      return;
    }
    RoundRowsSelected(ops, current, |ops.conditions|, selected, rows, noMatch);
    RoundInTable(ops, buckets, home, current, rows);
    pairs := RoundPairs(current, rows);
    foundMatch', found' := MarkRound(kind, pointers, foundMatch, found, current, rows, emitted, before);
    pointers', sel' := AdvancePointers(slots, current, selected);
    ScanRound(ops, buckets, home, slots, current, selected, rows, noMatch, pointers', sel', emitted);
    ScanLengths(ops, buckets, home, slots, pointers', sel', emitted + pairs);
  }

  lemma ScanLengths(ops: Operands, buckets: seq<nat>, home: seq<nat>, slots: seq<Slot>, pointers: seq<Option<nat>>,
                    sel: seq<nat>, emitted: seq<(nat, nat)>)
    requires InScan(ops, buckets, home, slots, pointers, sel, emitted)
    ensures |pointers| == |ops.keys| && SelectsAll(sel, pointers)
  {
  }

  /** Raises the flags of the rows and tuples of a round. */
  method MarkRound(kind: JoinType, ghost pointers: seq<Option<nat>>, foundMatch: seq<bool>, found: seq<bool>,
                   current: seq<Option<nat>>, rows: seq<nat>, ghost emitted: seq<(nat, nat)>, ghost before: seq<bool>)
    returns (foundMatch': seq<bool>, found': seq<bool>)
    requires Selects(rows, current) && |pointers| == |current|
    requires forall x | 0 <= x < |rows| :: current[rows[x]].value < |found|
    requires !kind.Inner? ==> |foundMatch| == |pointers| && MarksRows(foundMatch, emitted)
    requires kind.IsRightOuter() ==> MarksTuples(found, before, emitted)
    ensures |foundMatch'| == |foundMatch| && |found'| == |found|
    ensures !kind.Inner? ==> MarksRows(foundMatch', emitted + RoundPairs(current, rows))
    ensures kind.IsRightOuter() ==> MarksTuples(found', before, emitted + RoundPairs(current, rows))
    ensures !kind.IsRightOuter() ==> found' == found
  {
    hide RowFound, TupleFound;
    foundMatch', found' := foundMatch, found;
    var pairs := RoundPairs(current, rows);
    if !kind.Inner? {
      foundMatch' := SetFlags(foundMatch, rows);
      forall i | 0 <= i < |foundMatch'| ensures foundMatch'[i] <==> RowFound(emitted + pairs, i) {
        RowFoundAppend(emitted, current, rows, i);
      }
    }
    if kind.IsRightOuter() {
      var hits := HitTuples(pairs);
      found' := SetFlags(found, hits);
      forall t | 0 <= t < |found'| ensures found'[t] <==> before[t] || TupleFound(emitted + pairs, t) {
        TupleFoundAppend(emitted, pairs, hits, t);
      }
    }
  }

  ghost predicate PairsIn(pairs: seq<(nat, nat)>, n: nat, m: nat) {
    forall x | 0 <= x < |pairs| :: pairs[x].0 < n && pairs[x].1 < m
  }

  /** The result rows of some matches: the left row and the payload gathered from the tuple. */
  function MatchRows<L, R>(left: seq<L>, payloads: seq<R>, pairs: seq<(nat, nat)>): (result: seq<Joined<L, R>>)
    requires forall x | 0 <= x < |pairs| :: pairs[x].0 < |left| && pairs[x].1 < |payloads|
    ensures |result| == |pairs|
  {
    seq(|pairs|, x requires 0 <= x < |pairs| => Joined(Some(left[pairs[x].0]), Some(payloads[pairs[x].1])))
  }

  /** The result rows of left rows without a match: the right side is NULL. */
  function LeftRows<L, R>(left: seq<L>, sel: seq<nat>): (result: seq<Joined<L, R>>)
    requires forall x | 0 <= x < |sel| :: sel[x] < |left|
    ensures |result| == |sel|
  {
    seq(|sel|, x requires 0 <= x < |sel| => Joined(Some(left[sel[x]]), None))
  }

  /** The rows whose flag is `want`, in order. */
  function Flagged(flags: seq<bool>, want: bool, n: nat): (sel: seq<nat>)
    requires n <= |flags|
    ensures forall x | 0 <= x < |sel| :: sel[x] < n
  {
    if n == 0 then [] else AppendIf(Flagged(flags, want, n - 1), n - 1, flags[n - 1] == want)
  }

  lemma {:induction false} FlaggedRows(flags: seq<bool>, want: bool, n: nat)
    requires n <= |flags|
    ensures var sel := Flagged(flags, want, n);
      && NoDuplicates(sel) && (forall x | 0 <= x < |sel| :: sel[x] < n)
      && forall i :: i in sel <==> 0 <= i < n && flags[i] == want
  {
    if n > 0 {
      FlaggedRows(flags, want, n - 1);
    }
  }

  method SelectFlagged(flags: seq<bool>, want: bool) returns (sel: seq<nat>)
    ensures sel == Flagged(flags, want, |flags|)
    ensures forall x | 0 <= x < |sel| :: sel[x] < |flags|
  {
    sel := [];
    for i := 0 to |flags|
      invariant sel == Flagged(flags, want, i)
    {
      if flags[i] == want {
        sel := sel + [i];
      }
    }
    FlaggedRows(flags, want, |flags|);
  }

  lemma SearchLengths(ops: Operands, buckets: seq<nat>, home: seq<nat>, slots: seq<Slot>, pointers: seq<Option<nat>>,
                      sel: seq<nat>, found: seq<bool>)
    requires InSearch(ops, buckets, home, slots, pointers, sel, found)
    ensures |pointers| == |ops.keys| == |found|
  {
  }

  lemma SearchPointers(ops: Operands, buckets: seq<nat>, home: seq<nat>, slots: seq<Slot>, pointers: seq<Option<nat>>,
                       sel: seq<nat>, found: seq<bool>)
    requires InSearch(ops, buckets, home, slots, pointers, sel, found)
    ensures |pointers| == |found|
    ensures forall i | 0 <= i < |found| :: found[i] ==> pointers[i].Some? && pointers[i].value < |ops.stored|
  {
    forall i | 0 <= i < |found| && found[i] ensures pointers[i].Some? && pointers[i].value < |ops.stored| {
      assert SearchAt(ops, pointers, sel, found, i);
    }
  }

  function Slice<L>(left: seq<L>, sel: seq<nat>): (rows: seq<L>)
    requires forall x | 0 <= x < |sel| :: sel[x] < |left|
    ensures |rows| == |sel|
  {
    seq(|sel|, x requires 0 <= x < |sel| => left[sel[x]])
  }

  function MarkOf(valid: bool, found: bool, hasNull: bool): Option<bool> {
    if !valid || (hasNull && !found) then None else Some(found)
  }

  predicate AllValid(keys: seq<Key>, c: nat) {
    forall i | 0 <= i < |keys| :: c < |keys[i]| ==> keys[i][c].Some?
  }

  /** The validity mask after the first `n` key columns: a column that holds NULLs overwrites the whole mask. */
  function ValidMask(cs: seq<Condition>, keys: seq<Key>, n: nat): (mask: seq<bool>)
    requires n <= |cs| && forall i | 0 <= i < |keys| :: |keys[i]| == |cs|
    ensures |mask| == |keys|
  {
    if n == 0 then seq(|keys|, _ => true)
    else if cs[n - 1].nullValuesAreEqual || AllValid(keys, n - 1) then ValidMask(cs, keys, n - 1)
    else seq(|keys|, i requires 0 <= i < |keys| => keys[i][n - 1].Some?)
  }

  method ConstructMarkJoinResult(cs: seq<Condition>, keys: seq<Key>, found: seq<bool>, hasNull: bool)
    returns (marks: seq<Option<bool>>)
    requires |found| == |keys| && forall i | 0 <= i < |keys| :: |keys[i]| == |cs|
    ensures |marks| == |keys|
    ensures forall i | 0 <= i < |keys| :: marks[i] == MarkOf(ValidMask(cs, keys, |cs|)[i], found[i], hasNull)
  {
    var mask: seq<bool> := seq(|keys|, _ => true);
    for c := 0 to |cs|
      invariant mask == ValidMask(cs, keys, c)
    {
      if !cs[c].nullValuesAreEqual && !AllValid(keys, c) {
        mask := seq(|keys|, i requires 0 <= i < |keys| => keys[i][c].Some?);
      }
    }
    if hasNull {
      mask := seq(|keys|, i requires 0 <= i < |keys| => mask[i] && found[i]);
    }
    marks := seq(|keys|, i requires 0 <= i < |keys| => if mask[i] then Some(found[i]) else None);
  }

  /** Filters the probe keys and points the others at their chains. */
  method StartProbe<R(!new)>(ht: JoinHashTable<R>, keys: seq<Key>)
    returns (pointers: seq<Option<nat>>, sel: seq<nat>, ghost home: seq<nat>)
    requires ht.Ready() && KeysOk(ht.conditions, keys)
    ensures |pointers| == |keys| && |ht.payloads| == |ht.stored| == |ht.found|
    ensures InScan(Operands(ht.conditions, keys, ht.stored), ht.buckets, home, ht.slots, pointers, sel, [])
    ensures InSearch(Operands(ht.conditions, keys, ht.stored), ht.buckets, home, ht.slots, pointers, sel,
                     seq(|keys|, _ => false))
  {
    var kept := PrepareKeys(ht.conditions, keys, false);
    PreparedKeysSelect(ht.conditions, keys, false);
    assert forall x | 0 <= x < |kept| :: kept[x] in kept;
    pointers, sel := ProbeHeads(ht.equalities, ht.hashOf, ht.heads, ht.bitmask, keys, kept);
    home := Homes(ht.equalities, ht.hashOf, keys, ht.bitmask);
    hide InRange, SelectsAll, HoldsRows, BucketsOf, Linked, InScan, InSearch, HomesOf, PreparedKeys;
    forall i | 0 <= i < |keys| ensures StartAt(ht.conditions, ht.heads, home, keys, pointers, i) {
      assert PointsAtHeads(ht.heads, home, kept, pointers, i);
    }
    StartScan(ht.conditions, ht.equalities, ht.hashOf, ht.joinType.IsRightOuter(), ht.Tuples(), ht.slots, ht.heads,
              ht.buckets, ht.bitmask, keys, home, pointers, sel);
  }

  class ScanStructure<R(!new)> {
    const ht: JoinHashTable<R>
    const keys: seq<Key>
    var pointers: seq<Option<nat>>
    var sel: seq<nat>
    var foundMatch: seq<bool>
    var finished: bool
    ghost const home: seq<nat>
    // The flags of the tuples when the scan began, the matches found since, and the left rows returned alone
    ghost const before: seq<bool>
    ghost var emitted: seq<(nat, nat)>
    ghost var leftOnly: seq<nat>

    ghost function Ops(): Operands
      reads ht`stored
    {
      Operands(ht.conditions, keys, ht.stored)
    }

    constructor (ht: JoinHashTable<R>, keys: seq<Key>)
      requires ht.Ready() && KeysOk(ht.conditions, keys)
      ensures this.ht == ht && this.keys == keys && !finished && emitted == [] && leftOnly == [] && before == ht.found
      ensures Scanning() && Searching()
    {
      hide InScan, InSearch;
      var p, s;
      ghost var h;
      p, s, h := StartProbe(ht, keys);
      this.ht, this.keys, pointers, sel, home := ht, keys, p, s, h;
      foundMatch, finished := seq(|keys|, _ => false), false;
      before, emitted, leftOnly := ht.found, [], [];
    }

    /** A scan that returns every match: inner and outer joins. */
    ghost predicate Scanning()
      reads this, ht
    {
      && InScan(Ops(), ht.buckets, home, ht.slots, pointers, sel, emitted) && PairsIn(emitted, |keys|, |ht.stored|)
      && |ht.payloads| == |ht.stored| == |ht.found| && (forall x | 0 <= x < |leftOnly| :: leftOnly[x] < |keys|)
      && (!ht.joinType.Inner? ==> |foundMatch| == |keys| && MarksRows(foundMatch, emitted))
      && (ht.joinType.IsRightOuter() ==> MarksTuples(ht.found, before, emitted))
      && (finished ==> sel == [] && ht.joinType.IsLeftOuter())
      && leftOnly == if finished then Flagged(foundMatch, false, |foundMatch|) else []
    }

    /** A scan that looks for one match of every row. */
    ghost predicate Searching()
      reads this, ht
    {
      && InSearch(Ops(), ht.buckets, home, ht.slots, pointers, sel, foundMatch)
      && |foundMatch| == |keys| == |pointers| && |ht.payloads| == |ht.stored|
    }

    /** Follows the chains until every row has a match or its chain has ended. */
    method ScanMatches()
      requires Searching()
      modifies this
      ensures Searching() && sel == [] && finished
    {
      hide InSearch;
      var pointers', foundMatch' := ScanKeyMatches(Operands(ht.conditions, keys, ht.stored), ht.slots, pointers, sel,
                                                   foundMatch, ht.buckets, home);
      SearchLengths(Ops(), ht.buckets, home, ht.slots, pointers', [], foundMatch');
      pointers, foundMatch, sel, finished := pointers', foundMatch', [], true;
    }

    /** The left rows with a match, or those without one. */
    method NextSemiOrAntiJoin<L>(left: seq<L>, want: bool) returns (result: seq<L>)
      requires Searching() && |left| == |keys|
      modifies this
      ensures Searching() && sel == [] && finished && result == Slice(left, Flagged(foundMatch, want, |foundMatch|))
    {
      hide InSearch;
      ScanMatches();
      var selected := SelectFlagged(foundMatch, want);
      result := Slice(left, selected);
    }

    /** The three-valued result of comparing every row's key with the build keys. */
    method NextMarkJoin() returns (marks: seq<Option<bool>>)
      requires Searching() && forall i | 0 <= i < |keys| :: |keys[i]| == |ht.conditions|
      modifies this
      ensures Searching() && sel == [] && finished && |marks| == |keys|
      ensures forall i | 0 <= i < |keys| ::
        marks[i] == MarkOf(ValidMask(ht.conditions, keys, |ht.conditions|)[i], foundMatch[i], ht.hasNull)
    {
      hide InSearch;
      ScanMatches();
      marks := ConstructMarkJoinResult(ht.conditions, keys, foundMatch, ht.hasNull);
    }

    /** Every left row with the payload of one match, or alone. */
    method NextSingleJoin<L>(left: seq<L>) returns (result: seq<Joined<L, R>>)
      requires Searching() && |left| == |keys|
      modifies this
      ensures Searching() && sel == [] && finished && |result| == |left|
      ensures forall i | 0 <= i < |left| :: foundMatch[i] ==> pointers[i].Some? && pointers[i].value < |ht.payloads|
      ensures forall i | 0 <= i < |left| ::
        result[i] == Joined(Some(left[i]), if foundMatch[i] then Some(ht.payloads[pointers[i].value]) else None)
    {
      hide InSearch;
      ScanMatches();
      SearchPointers(Ops(), ht.buckets, home, ht.slots, pointers, [], foundMatch);
      var found, ptrs, payloads := foundMatch, pointers, ht.payloads;
      result := seq(|left|, i requires 0 <= i < |left| =>
        Joined(Some(left[i]), if found[i] then Some(payloads[ptrs[i].value]) else None));
    }

    /** The next matches of an inner join, none when every chain has ended. */
    method NextInnerJoin<L>(left: seq<L>) returns (result: seq<Joined<L, R>>)
      requires Scanning() && |left| == |keys| && !finished
      modifies this, ht`found
      ensures Scanning() && !finished && old(emitted) <= emitted
      ensures result == MatchRows(left, ht.payloads, emitted[|old(emitted)|..])
      ensures result == [] ==> sel == []
      ensures result != [] ==> Remaining(pointers) < old(Remaining(pointers))
    {
      hide InScan, MarksRows, MarksTuples;
      assert |pointers| == |keys| by {
        ScanLengths(Ops(), ht.buckets, home, ht.slots, pointers, sel, emitted);
      }
      var pairs, pointers', sel', foundMatch', found' :=
        NextMatches(ht.joinType, Operands(ht.conditions, keys, ht.stored), ht.slots, pointers, sel, foundMatch,
                    ht.found, ht.buckets, home, emitted, before);
      result := MatchRows(left, ht.payloads, pairs);
      assert (emitted + pairs)[|emitted|..] == pairs;
      pointers, sel, foundMatch, emitted := pointers', sel', foundMatch', emitted + pairs;
      ht.found := found';
    }

    /** Like the inner join, and when it has ended the left rows without a match. */
    method NextLeftJoin<L>(left: seq<L>) returns (result: seq<Joined<L, R>>)
      requires Scanning() && |left| == |keys| && !finished && ht.joinType.IsLeftOuter()
      modifies this, ht`found
      ensures Scanning() && old(emitted) <= emitted
      ensures result == MatchRows(left, ht.payloads, emitted[|old(emitted)|..]) + LeftRows(left, leftOnly)
      ensures if finished then sel == [] else result != [] && Remaining(pointers) < old(Remaining(pointers))
    {
      hide InScan, MarksRows, MarksTuples, Flagged;
      result := NextInnerJoin(left);
      if |result| == 0 {
        var remaining := SelectFlagged(foundMatch, false);
        result := LeftRows(left, remaining);
        leftOnly, finished := remaining, true;
      }
    }

    /** Every chain has ended and, in a left outer join, the rows without a match were returned. */
    ghost predicate Exhausted()
      reads this
    {
      sel == [] && (ht.joinType.IsLeftOuter() ==> finished)
    }

    /** The next rows of an inner or outer join; none only when the scan is exhausted. */
    method Next<L>(left: seq<L>) returns (result: seq<Joined<L, R>>)
      requires Scanning() && |left| == |keys| && Returns(ht.joinType)
      modifies this, ht`found
      ensures Scanning() && old(emitted) <= emitted
      ensures old(finished) ==> result == [] && emitted == old(emitted) && leftOnly == old(leftOnly) && finished
      ensures !old(finished) ==> result == Produced(left, ht.payloads, emitted[|old(emitted)|..], leftOnly)
      ensures result == [] ==> Exhausted()
      ensures result != [] ==> Remaining(pointers) < old(Remaining(pointers)) || (finished && !old(finished))
    {
      hide InScan, MarksRows, MarksTuples, Flagged;
      if finished {
        return [];
      }
      if ht.joinType.Inner? || ht.joinType.Right? {
        result := NextInnerJoin(left);
        assert result + LeftRows(left, leftOnly) == result;
      } else {
        result := NextLeftJoin(left);
      }
    }
  }

  /** The join types whose result pairs rows of both sides. */
  predicate Returns(kind: JoinType) {
    kind.Inner? || kind.Left? || kind.Right? || kind.Outer?
  }

  function Produced<L, R>(left: seq<L>, payloads: seq<R>, pairs: seq<(nat, nat)>,
                          alone: seq<nat>): (result: seq<Joined<L, R>>)
    requires forall x | 0 <= x < |pairs| :: pairs[x].0 < |left| && pairs[x].1 < |payloads|
    requires forall x | 0 <= x < |alone| :: alone[x] < |left|
    ensures |result| == |pairs| + |alone|
  {
    MatchRows(left, payloads, pairs) + LeftRows(left, alone)
  }

  lemma ProducedAppend<L, R>(left: seq<L>, payloads: seq<R>, a: seq<(nat, nat)>, b: seq<(nat, nat)>, alone: seq<nat>)
    requires PairsIn(a, |left|, |payloads|) && PairsIn(b, |left|, |payloads|)
    requires forall x | 0 <= x < |alone| :: alone[x] < |left|
    ensures Produced(left, payloads, a + b, alone) ==
            Produced(left, payloads, a, []) + Produced(left, payloads, b, alone)
  {
    assert MatchRows(left, payloads, a + b) == MatchRows(left, payloads, a) + MatchRows(left, payloads, b);
    assert LeftRows<L, R>(left, []) == [];
  }

  /** All matches of a chunk, once each, and in a left outer join the rows without any. */
  ghost predicate Complete(kind: JoinType, ops: Operands, emitted: seq<(nat, nat)>, alone: seq<nat>) {
    && OperandsOk(ops) && NoDuplicates(emitted) && NoDuplicates(alone)
    && (forall i: nat, t: nat :: (i, t) in emitted <==> Matches(ops, i, t))
    && (forall i: nat :: i in alone <==> kind.IsLeftOuter() && i < |ops.keys| && NoMatchAbove(ops, None, i))
  }
}
