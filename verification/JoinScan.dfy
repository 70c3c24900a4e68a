/**
 * Probing the join hash table with a chunk of keys: every row follows the chain of its bucket, one tuple a round, and
 * the join conditions are decided column by column on selection vectors (src/execution/join_hashtable.cpp:432-690).
 */
module JoinScan {
  import opened Common
  import opened JoinSemantics
  import opened JoinChains

  /** The probe keys and the serialized build keys of a scan. */
  datatype Operands = Operands(conditions: seq<Condition>, keys: seq<Key>, stored: seq<seq<int>>)

  ghost predicate OperandsOk(ops: Operands) {
    && (forall i | 0 <= i < |ops.keys| :: |ops.keys[i]| == |ops.conditions|)
    && (forall t | 0 <= t < |ops.stored| :: |ops.stored[t]| == |ops.conditions|)
  }

  /** Row `i` survived the NULL filter and the table holds that it joins with tuple `t`. */
  ghost predicate Matches(ops: Operands, i: nat, t: nat)
    requires OperandsOk(ops)
  {
    && i < |ops.keys| && t < |ops.stored|
    && Kept(ops.conditions, ops.keys[i]) && GathersAll(ops.conditions, ops.keys[i], ops.stored[t])
  }

  ghost predicate NoDuplicates<T>(s: seq<T>) {
    forall x, y | 0 <= x < y < |s| :: s[x] != s[y]
  }

  ghost predicate PointerOk(ops: Operands, buckets: seq<nat>, home: seq<nat>, pointers: seq<Option<nat>>, i: nat)
    requires OperandsOk(ops) && i < |pointers| == |ops.keys| == |home| && |buckets| == |ops.stored|
  {
    pointers[i].Some? ==>
      pointers[i].value < |buckets| && buckets[pointers[i].value] == home[i] && Kept(ops.conditions, ops.keys[i])
  }

  /** Every pointer is null or at a tuple of its row's bucket, and rows only join tuples of their bucket. */
  ghost predicate Positioned(ops: Operands, buckets: seq<nat>, home: seq<nat>, pointers: seq<Option<nat>>) {
    && OperandsOk(ops) && |pointers| == |ops.keys| == |home| && |buckets| == |ops.stored|
    && (forall i | 0 <= i < |pointers| :: PointerOk(ops, buckets, home, pointers, i))
    && (forall i: nat, t: nat :: Matches(ops, i, t) ==> buckets[t] == home[i])
  }

  /** A selection vector over rows whose pointers are not null. */
  ghost predicate Selects(sel: seq<nat>, pointers: seq<Option<nat>>) {
    NoDuplicates(sel) && forall x | 0 <= x < |sel| :: sel[x] < |pointers| && pointers[sel[x]].Some?
  }

  /** One column's condition at the tuple a row points to. */
  predicate Hit(ops: Operands, pointers: seq<Option<nat>>, c: nat, i: nat) {
    && i < |pointers| && i < |ops.keys| && pointers[i].Some? && pointers[i].value < |ops.stored|
    && c < |ops.conditions| && c < |ops.keys[i]| && c < |ops.stored[pointers[i].value]|
    && Gathers(ops.conditions[c], ops.keys[i][c], ops.stored[pointers[i].value][c])
  }

  function HitRows(ops: Operands, pointers: seq<Option<nat>>, c: nat, sel: seq<nat>, hit: bool): (rows: seq<nat>) {
    if sel == [] then []
    else
      var i := sel[|sel| - 1];
      HitRows(ops, pointers, c, sel[..|sel| - 1], hit) + if Hit(ops, pointers, c, i) == hit then [i] else []
  }

  lemma {:induction false} HitRowsSelect(ops: Operands, pointers: seq<Option<nat>>, c: nat, sel: seq<nat>, hit: bool)
    requires NoDuplicates(sel)
    ensures var rows := HitRows(ops, pointers, c, sel, hit);
      NoDuplicates(rows) && forall i :: i in rows <==> i in sel && Hit(ops, pointers, c, i) == hit
  {
    if sel != [] {
      var rest := sel[..|sel| - 1];
      HitRowsSelect(ops, pointers, c, rest, hit);
      assert sel == rest + [sel[|sel| - 1]];
    }
  }

  lemma {:induction false} HitRowsSplit(ops: Operands, pointers: seq<Option<nat>>, c: nat, sel: seq<nat>)
    ensures |HitRows(ops, pointers, c, sel, true)| + |HitRows(ops, pointers, c, sel, false)| == |sel|
  {
    if sel != [] {
      HitRowsSplit(ops, pointers, c, sel[..|sel| - 1]);
    }
  }

  /** Splits a selection by one column's condition; the rows that fail are appended to `noMatch`. */
  method Gather(ops: Operands, pointers: seq<Option<nat>>, c: nat, sel: seq<nat>, noMatch: seq<nat>)
    returns (match': seq<nat>, noMatch': seq<nat>)
    ensures match' == HitRows(ops, pointers, c, sel, true)
    ensures noMatch' == noMatch + HitRows(ops, pointers, c, sel, false)
  {
    match', noMatch' := [], noMatch;
    for i := 0 to |sel|
      invariant match' == HitRows(ops, pointers, c, sel[..i], true)
      invariant noMatch' == noMatch + HitRows(ops, pointers, c, sel[..i], false)
    {
      assert sel[..i + 1][..i] == sel[..i];
      if Hit(ops, pointers, c, sel[i]) {
        match' := match' + [sel[i]];
      } else {
        noMatch' := noMatch' + [sel[i]];
      }
    }
    assert sel[..|sel|] == sel;
  }

  ghost predicate HitsUpTo(ops: Operands, pointers: seq<Option<nat>>, n: nat, i: nat) {
    forall c | 0 <= c < n :: Hit(ops, pointers, c, i)
  }

  /** `match'` holds the selected rows that pass the first `n` columns and `noMatch` the others. */
  ghost predicate SplitBy(ops: Operands, pointers: seq<Option<nat>>, n: nat, sel: seq<nat>, match': seq<nat>,
                          noMatch: seq<nat>) {
    && NoDuplicates(match') && NoDuplicates(noMatch) && |match'| + |noMatch| == |sel|
    && (forall i :: i in match' <==> i in sel && HitsUpTo(ops, pointers, n, i))
    && (forall i :: i in noMatch <==> i in sel && !HitsUpTo(ops, pointers, n, i))
  }

  lemma HitsNext(ops: Operands, pointers: seq<Option<nat>>, n: nat, i: nat)
    ensures HitsUpTo(ops, pointers, n + 1, i) <==> HitsUpTo(ops, pointers, n, i) && Hit(ops, pointers, n, i)
  {
  }

  lemma AppendDisjoint<T>(a: seq<T>, b: seq<T>)
    requires NoDuplicates(a) && NoDuplicates(b) && forall x | x in b :: x !in a
    ensures NoDuplicates(a + b)
  {
    var s := a + b;
    forall x, y | 0 <= x < y < |s| ensures s[x] != s[y] {
      if |a| <= y {
        assert s[y] == b[y - |a|] && b[y - |a|] in b;
      }
    }
  }

  lemma SplitNext(ops: Operands, pointers: seq<Option<nat>>, n: nat, sel: seq<nat>, match0: seq<nat>,
                  noMatch0: seq<nat>, match1: seq<nat>, noMatch1: seq<nat>)
    requires SplitBy(ops, pointers, n, sel, match0, noMatch0)
    requires match1 == HitRows(ops, pointers, n, match0, true)
    requires noMatch1 == noMatch0 + HitRows(ops, pointers, n, match0, false)
    ensures SplitBy(ops, pointers, n + 1, sel, match1, noMatch1)
  {
    HitRowsSelect(ops, pointers, n, match0, true);
    HitRowsSelect(ops, pointers, n, match0, false);
    HitRowsSplit(ops, pointers, n, match0);
    var rejected := HitRows(ops, pointers, n, match0, false);
    AppendDisjoint(noMatch0, rejected);
    forall i: nat
      ensures HitsUpTo(ops, pointers, n + 1, i) <==> HitsUpTo(ops, pointers, n, i) && Hit(ops, pointers, n, i)
    {
      HitsNext(ops, pointers, n, i);
    }
  }

  lemma NoneLeft(ops: Operands, pointers: seq<Option<nat>>, n: nat, sel: seq<nat>, noMatch: seq<nat>)
    requires SplitBy(ops, pointers, n, sel, [], noMatch) && n <= |ops.conditions|
    ensures SplitBy(ops, pointers, |ops.conditions|, sel, [], noMatch)
  {
    forall i | i in sel ensures !HitsUpTo(ops, pointers, |ops.conditions|, i) {
      var none: seq<nat> := [];
      assert i !in none;
      assert !HitsUpTo(ops, pointers, n, i);
    }
  }

  /** Splits the selected rows by whether they join the tuple they point to. */
  method ResolvePredicates(ops: Operands, pointers: seq<Option<nat>>, sel: seq<nat>)
    returns (match': seq<nat>, noMatch: seq<nat>)
    requires NoDuplicates(sel)
    ensures SplitBy(ops, pointers, |ops.conditions|, sel, match', noMatch)
  {
    match', noMatch := sel, [];
    for c := 0 to |ops.conditions|
      invariant SplitBy(ops, pointers, c, sel, match', noMatch)
    {
      ghost var match0, noMatch0 := match', noMatch;
      match', noMatch := Gather(ops, pointers, c, match', noMatch);
      SplitNext(ops, pointers, c, sel, match0, noMatch0, match', noMatch);
      if |match'| == 0 {
        NoneLeft(ops, pointers, c + 1, sel, noMatch);
        return;
      }
    }
  }

  lemma HitsAreMatches(ops: Operands, buckets: seq<nat>, home: seq<nat>, pointers: seq<Option<nat>>, i: nat)
    requires Positioned(ops, buckets, home, pointers) && i < |pointers| && pointers[i].Some?
    ensures HitsUpTo(ops, pointers, |ops.conditions|, i) <==> Matches(ops, i, pointers[i].value)
  {
    assert PointerOk(ops, buckets, home, pointers, i);
    var t := pointers[i].value;
    if HitsUpTo(ops, pointers, |ops.conditions|, i) {
      forall c | 0 <= c < |ops.conditions| ensures Gathers(ops.conditions[c], ops.keys[i][c], ops.stored[t][c]) {
        assert Hit(ops, pointers, c, i);
      }
    }
  }

  /** The pointer of a selected row moves to the next tuple of its chain. */
  function Moved(slots: seq<Slot>, p: Option<nat>): Option<nat> {
    if p.Some? && p.value < |slots| && slots[p.value].Next? then slots[p.value].next else None
  }

  ghost predicate AdvancedAt(slots: seq<Slot>, sel: seq<nat>, before: seq<Option<nat>>, after: seq<Option<nat>>, i: nat)
    requires i < |before| == |after|
  {
    after[i] == if i in sel then Moved(slots, before[i]) else before[i]
  }

  /** The selected rows moved on; those that did not reach the end of their chain stay selected. */
  ghost predicate Advanced(slots: seq<Slot>, sel: seq<nat>, before: seq<Option<nat>>, after: seq<Option<nat>>,
                           sel': seq<nat>) {
    && |before| == |after| && NoDuplicates(sel') && |sel'| <= |sel|
    && (forall i | 0 <= i < |before| :: AdvancedAt(slots, sel, before, after, i))
    && (forall i :: i in sel' <==> i in sel && i < |after| && after[i].Some?)
  }

  lemma AdvanceNext(slots: seq<Slot>, sel: seq<nat>, n: nat, pointers0: seq<Option<nat>>, pointers: seq<Option<nat>>,
                    sel': seq<nat>, pointers1: seq<Option<nat>>, sel1: seq<nat>)
    requires NoDuplicates(sel) && n < |sel| && sel[n] < |pointers0|
    requires Advanced(slots, sel[..n], pointers0, pointers, sel')
    requires pointers1 == pointers[sel[n] := Moved(slots, pointers[sel[n]])]
    requires sel1 == sel' + if pointers1[sel[n]].Some? then [sel[n]] else []
    ensures Advanced(slots, sel[..n + 1], pointers0, pointers1, sel1)
  {
    var done, next := sel[..n], sel[..n + 1];
    assert next == done + [sel[n]];
    assert sel[n] !in done;
    assert AdvancedAt(slots, done, pointers0, pointers, sel[n]);
    forall i | 0 <= i < |pointers0| ensures AdvancedAt(slots, next, pointers0, pointers1, i) {
      assert AdvancedAt(slots, done, pointers0, pointers, i);
    }
  }

  /** Follows the chains of the selected rows by one tuple. */
  method AdvancePointers(slots: seq<Slot>, pointers: seq<Option<nat>>, sel: seq<nat>)
    returns (pointers': seq<Option<nat>>, sel': seq<nat>)
    requires Selects(sel, pointers)
    ensures Advanced(slots, sel, pointers, pointers', sel')
  {
    pointers', sel' := pointers, [];
    for i := 0 to |sel|
      invariant Advanced(slots, sel[..i], pointers, pointers', sel')
    {
      ghost var before, selected := pointers', sel';
      var idx := sel[i];
      pointers' := pointers'[idx := Moved(slots, pointers'[idx])];
      if pointers'[idx].Some? {
        sel' := sel' + [idx];
      }
      AdvanceNext(slots, sel, i, pointers, before, selected, pointers', sel');
    }
    assert sel[..|sel|] == sel;
  }

  /** Linked chains, as a finalized table has them. */
  ghost predicate Chained(slots: seq<Slot>, buckets: seq<nat>) {
    |slots| == |buckets| && forall t | 0 <= t < |slots| :: LinkedAt(slots, buckets, t)
  }

  lemma AdvanceStaysPositioned(ops: Operands, buckets: seq<nat>, home: seq<nat>, slots: seq<Slot>, sel: seq<nat>,
                               before: seq<Option<nat>>, after: seq<Option<nat>>, sel': seq<nat>)
    requires Positioned(ops, buckets, home, before) && Chained(slots, buckets)
    requires Advanced(slots, sel, before, after, sel')
    ensures Positioned(ops, buckets, home, after) && Selects(sel', after)
  {
    forall i | 0 <= i < |after| ensures PointerOk(ops, buckets, home, after, i) {
      assert PointerOk(ops, buckets, home, before, i);
      assert AdvancedAt(slots, sel, before, after, i);
      if before[i].Some? {
        assert LinkedAt(slots, buckets, before[i].value);
      }
    }
  }

  /** Whether a row's pointer has moved past a tuple. */
  predicate Passed(p: Option<nat>, t: nat) {
    p.None? || t > p.value
  }

  ghost predicate EmittedAt(ops: Operands, pointers: seq<Option<nat>>, emitted: seq<(nat, nat)>, i: nat, t: nat)
    requires OperandsOk(ops) && i < |pointers|
  {
    (i, t) in emitted <==> Matches(ops, i, t) && Passed(pointers[i], t)
  }

  /** The joined pairs found so far: every match a pointer has moved past, once each. */
  ghost predicate Emitted(ops: Operands, pointers: seq<Option<nat>>, emitted: seq<(nat, nat)>)
    requires OperandsOk(ops)
  {
    && NoDuplicates(emitted)
    && (forall x | 0 <= x < |emitted| :: emitted[x].0 < |pointers|)
    && (forall i: nat, t: nat | i < |pointers| :: EmittedAt(ops, pointers, emitted, i, t))
  }

  /** The rows found in a round, paired with the tuples they point to. */
  function RoundPairs(pointers: seq<Option<nat>>, rows: seq<nat>): (pairs: seq<(nat, nat)>)
    requires forall x | 0 <= x < |rows| :: rows[x] < |pointers| && pointers[rows[x]].Some?
    ensures |pairs| == |rows|
    ensures forall x | 0 <= x < |rows| :: pairs[x] == (rows[x], pointers[rows[x]].value)
  {
    seq(|rows|, x requires 0 <= x < |rows| => (rows[x], pointers[rows[x]].value))
  }

  lemma RoundPairsMember(pointers: seq<Option<nat>>, rows: seq<nat>, i: nat, t: nat)
    requires forall x | 0 <= x < |rows| :: rows[x] < |pointers| && pointers[rows[x]].Some?
    ensures (i, t) in RoundPairs(pointers, rows) <==> i in rows && pointers[i] == Some(t)
  {
    var pairs := RoundPairs(pointers, rows);
    if i in rows && pointers[i] == Some(t) {
      var x :| 0 <= x < |rows| && rows[x] == i;
      assert pairs[x] == (i, t);
    }
  }

  /** No tuple between a pointer and the one it moves to is in the row's bucket. */
  lemma NothingSkipped(ops: Operands, buckets: seq<nat>, home: seq<nat>, slots: seq<Slot>, pointers: seq<Option<nat>>,
                       i: nat, t: nat)
    requires Positioned(ops, buckets, home, pointers) && Chained(slots, buckets)
    requires i < |pointers| && pointers[i].Some? && t < pointers[i].value && Passed(Moved(slots, pointers[i]), t)
    ensures !Matches(ops, i, t)
  {
    assert PointerOk(ops, buckets, home, pointers, i);
    assert LinkedAt(slots, buckets, pointers[i].value);
  }

  /** What a round that resolves all selected rows and then advances them adds to the pairs found. */
  ghost predicate Round(ops: Operands, slots: seq<Slot>, before: seq<Option<nat>>, sel: seq<nat>, rows: seq<nat>,
                        noMatch: seq<nat>, after: seq<Option<nat>>, sel': seq<nat>) {
    && SplitBy(ops, before, |ops.conditions|, sel, rows, noMatch)
    && Advanced(slots, sel, before, after, sel')
  }

  /** Every row whose pointer is not null is selected. */
  ghost predicate SelectsAll(sel: seq<nat>, pointers: seq<Option<nat>>) {
    Selects(sel, pointers) && forall i: nat | i < |pointers| && pointers[i].Some? :: i in sel
  }

  lemma RoundEmitsAt(ops: Operands, buckets: seq<nat>, home: seq<nat>, slots: seq<Slot>, before: seq<Option<nat>>,
                     sel: seq<nat>, rows: seq<nat>, noMatch: seq<nat>, after: seq<Option<nat>>, sel': seq<nat>,
                     emitted: seq<(nat, nat)>, i: nat, t: nat)
    requires Positioned(ops, buckets, home, before) && Chained(slots, buckets) && SelectsAll(sel, before)
    requires Round(ops, slots, before, sel, rows, noMatch, after, sel')
    requires i < |before| && EmittedAt(ops, before, emitted, i, t)
    requires forall x | 0 <= x < |rows| :: rows[x] < |before| && before[rows[x]].Some?
    ensures EmittedAt(ops, after, emitted + RoundPairs(before, rows), i, t)
    ensures (i, t) in RoundPairs(before, rows) ==> (i, t) !in emitted
  {
    RoundPairsMember(before, rows, i, t);
    assert AdvancedAt(slots, sel, before, after, i);
    if before[i].Some? {
      HitsAreMatches(ops, buckets, home, before, i);
      assert PointerOk(ops, buckets, home, before, i);
      assert LinkedAt(slots, buckets, before[i].value);
      if t < before[i].value && Passed(after[i], t) {
        NothingSkipped(ops, buckets, home, slots, before, i, t);
      }
    }
  }

  lemma RoundRowsSelected(ops: Operands, pointers: seq<Option<nat>>, n: nat, sel: seq<nat>, rows: seq<nat>,
                          noMatch: seq<nat>)
    requires Selects(sel, pointers) && SplitBy(ops, pointers, n, sel, rows, noMatch)
    ensures Selects(rows, pointers) && Selects(noMatch, pointers)
  {
    forall x | 0 <= x < |rows| ensures rows[x] < |pointers| && pointers[rows[x]].Some? {
      assert rows[x] in rows;
    }
    forall x | 0 <= x < |noMatch| ensures noMatch[x] < |pointers| && pointers[noMatch[x]].Some? {
      assert noMatch[x] in noMatch;
    }
  }

  /** A round finds exactly the matches its rows move past, none of them a second time. */
  lemma RoundEmits(ops: Operands, buckets: seq<nat>, home: seq<nat>, slots: seq<Slot>, before: seq<Option<nat>>,
                   sel: seq<nat>, rows: seq<nat>, noMatch: seq<nat>, after: seq<Option<nat>>, sel': seq<nat>,
                   emitted: seq<(nat, nat)>)
    requires Positioned(ops, buckets, home, before) && Chained(slots, buckets) && SelectsAll(sel, before)
    requires Round(ops, slots, before, sel, rows, noMatch, after, sel') && Emitted(ops, before, emitted)
    ensures Selects(rows, before) && Emitted(ops, after, emitted + RoundPairs(before, rows))
  {
    hide Matches, Passed, Chained, Positioned;
    RoundRowsSelected(ops, before, |ops.conditions|, sel, rows, noMatch);
    var pairs := RoundPairs(before, rows);
    var all := emitted + pairs;
    assert OperandsOk(ops) by {
      AdvanceStaysPositioned(ops, buckets, home, slots, sel, before, after, sel');
    }
    forall x | 0 <= x < |pairs| ensures pairs[x] !in emitted {
      var (i, t) := pairs[x];
      assert EmittedAt(ops, before, emitted, i, t);
      RoundEmitsAt(ops, buckets, home, slots, before, sel, rows, noMatch, after, sel', emitted, i, t);
    }
    AppendDisjoint(emitted, pairs);
    forall i: nat, t: nat | i < |after| ensures EmittedAt(ops, after, all, i, t) {
      assert EmittedAt(ops, before, emitted, i, t);
      RoundEmitsAt(ops, buckets, home, slots, before, sel, rows, noMatch, after, sel', emitted, i, t);
    }
  }

  lemma AdvanceSelectsAll(slots: seq<Slot>, sel: seq<nat>, before: seq<Option<nat>>, after: seq<Option<nat>>,
                          sel': seq<nat>)
    requires SelectsAll(sel, before) && Advanced(slots, sel, before, after, sel')
    ensures SelectsAll(sel', after)
  {
    forall i: nat | i < |after| && after[i].Some? ensures i in sel' {
      assert AdvancedAt(slots, sel, before, after, i);
    }
  }

  /** The work left: how many tuples the pointers may still visit. */
  ghost function Remaining(pointers: seq<Option<nat>>): nat {
    if pointers == [] then 0
    else Remaining(pointers[1..]) + if pointers[0].Some? then pointers[0].value + 1 else 0
  }

  lemma {:induction false} RemainingShrinks(before: seq<Option<nat>>, after: seq<Option<nat>>, x: nat)
    requires |before| == |after| && x <= |before|
    requires forall i | 0 <= i < |before| :: after[i] == before[i] || Lower(before[i], after[i])
    requires x < |before| ==> Lower(before[x], after[x])
    ensures Remaining(after) <= Remaining(before) && (x < |before| ==> Remaining(after) < Remaining(before))
  {
    if before != [] {
      RemainingShrinks(before[1..], after[1..], if x == 0 then |before| - 1 else x - 1);
    }
  }

  predicate Lower(p: Option<nat>, q: Option<nat>) {
    p.Some? && (q.Some? ==> q.value < p.value)
  }

  /** Advancing a selection that is not empty leaves less work. */
  lemma AdvanceShrinks(slots: seq<Slot>, buckets: seq<nat>, sel: seq<nat>, before: seq<Option<nat>>,
                       after: seq<Option<nat>>, sel': seq<nat>)
    requires Chained(slots, buckets) && Selects(sel, before) && sel != [] && Advanced(slots, sel, before, after, sel')
    ensures Remaining(after) < Remaining(before)
  {
    forall i | 0 <= i < |before| ensures after[i] == before[i] || Lower(before[i], after[i]) {
      assert AdvancedAt(slots, sel, before, after, i);
      if i in sel && before[i].Some? && before[i].value < |slots| {
        assert LinkedAt(slots, buckets, before[i].value);
      }
    }
    assert sel[0] in sel && AdvancedAt(slots, sel, before, after, sel[0]);
    if before[sel[0]].value < |slots| {
      assert LinkedAt(slots, buckets, before[sel[0]].value);
    }
    RemainingShrinks(before, after, sel[0]);
  }

  /** A scan that reports every match: all rows not at the end of their chain are selected. */
  ghost predicate InScan(ops: Operands, buckets: seq<nat>, home: seq<nat>, slots: seq<Slot>, pointers: seq<Option<nat>>,
                         sel: seq<nat>, emitted: seq<(nat, nat)>) {
    && Positioned(ops, buckets, home, pointers) && Chained(slots, buckets)
    && SelectsAll(sel, pointers) && Emitted(ops, pointers, emitted)
  }

  lemma ScanRound(ops: Operands, buckets: seq<nat>, home: seq<nat>, slots: seq<Slot>, before: seq<Option<nat>>,
                  sel: seq<nat>, rows: seq<nat>, noMatch: seq<nat>, after: seq<Option<nat>>, sel': seq<nat>,
                  emitted: seq<(nat, nat)>)
    requires InScan(ops, buckets, home, slots, before, sel, emitted) && sel != []
    requires Round(ops, slots, before, sel, rows, noMatch, after, sel')
    ensures Selects(rows, before)
    ensures InScan(ops, buckets, home, slots, after, sel', emitted + RoundPairs(before, rows))
    ensures Remaining(after) < Remaining(before)
  {
    RoundEmits(ops, buckets, home, slots, before, sel, rows, noMatch, after, sel', emitted);
    AdvanceStaysPositioned(ops, buckets, home, slots, sel, before, after, sel');
    AdvanceSelectsAll(slots, sel, before, after, sel');
    AdvanceShrinks(slots, buckets, sel, before, after, sel');
  }

  /** Follows the chains until some rows join the tuples they point to, or every chain has ended. */
  method ScanInnerJoin(ops: Operands, slots: seq<Slot>, pointers: seq<Option<nat>>, sel: seq<nat>,
                       ghost buckets: seq<nat>, ghost home: seq<nat>, ghost emitted: seq<(nat, nat)>)
    returns (rows: seq<nat>, pointers': seq<Option<nat>>, sel': seq<nat>, ghost noMatch: seq<nat>)
    requires InScan(ops, buckets, home, slots, pointers, sel, emitted)
    ensures InScan(ops, buckets, home, slots, pointers', sel', emitted)
    ensures Remaining(pointers') <= Remaining(pointers)
    ensures if sel' == [] then rows == []
            else rows != [] && SplitBy(ops, pointers', |ops.conditions|, sel', rows, noMatch)
  {
    hide Positioned, Chained, Emitted, Advanced, SplitBy;
    rows, noMatch, pointers', sel' := [], [], pointers, sel;
    while |sel'| > 0
      invariant InScan(ops, buckets, home, slots, pointers', sel', emitted)
      invariant Remaining(pointers') <= Remaining(pointers) && rows == []
      decreases Remaining(pointers')
    {
      var rest;
      rows, rest := ResolvePredicates(ops, pointers', sel');
      noMatch := rest;
      if |rows| > 0 {
        return;
      }
      ghost var before, selected := pointers', sel';
      pointers', sel' := AdvancePointers(slots, pointers', sel');
      ScanRound(ops, buckets, home, slots, before, selected, rows, noMatch, pointers', sel', emitted);
      assert emitted + RoundPairs(before, rows) == emitted;
    }
  }

  /** Raises the flags of some rows. */
  method SetFlags(flags: seq<bool>, rows: seq<nat>) returns (flags': seq<bool>)
    requires forall x | 0 <= x < |rows| :: rows[x] < |flags|
    ensures |flags'| == |flags|
    ensures forall i | 0 <= i < |flags| :: flags'[i] <==> flags[i] || i in rows
  {
    flags' := flags;
    for x := 0 to |rows|
      invariant |flags'| == |flags|
      invariant forall i | 0 <= i < |flags| :: flags'[i] <==> flags[i] || i in rows[..x]
    {
      flags' := flags'[rows[x] := true];
      assert rows[..x + 1] == rows[..x] + [rows[x]];
    }
    assert rows[..|rows|] == rows;
  }

  /** Tuple `t` is the last one that row `i` joins. */
  ghost predicate LastMatch(ops: Operands, i: nat, t: nat)
    requires OperandsOk(ops)
  {
    Matches(ops, i, t) && forall u: nat | u > t :: !Matches(ops, i, u)
  }

  ghost predicate NoMatchAbove(ops: Operands, p: Option<nat>, i: nat)
    requires OperandsOk(ops)
  {
    forall t: nat | Passed(p, t) :: !Matches(ops, i, t)
  }

  /** Row `i` is still looking, or found the last tuple it joins and stopped there, or joins nothing. */
  ghost predicate SearchAt(ops: Operands, pointers: seq<Option<nat>>, sel: seq<nat>, found: seq<bool>, i: nat)
    requires OperandsOk(ops) && i < |pointers| == |found|
  {
    if i in sel then !found[i] && NoMatchAbove(ops, pointers[i], i)
    else if found[i] then pointers[i].Some? && LastMatch(ops, i, pointers[i].value)
    else NoMatchAbove(ops, None, i)
  }

  /** A scan that stops a row at its first match. */
  ghost predicate InSearch(ops: Operands, buckets: seq<nat>, home: seq<nat>, slots: seq<Slot>,
                           pointers: seq<Option<nat>>, sel: seq<nat>, found: seq<bool>) {
    && Positioned(ops, buckets, home, pointers) && Chained(slots, buckets) && Selects(sel, pointers)
    && |found| == |pointers|
    && (forall i | 0 <= i < |pointers| :: SearchAt(ops, pointers, sel, found, i))
  }

  lemma SearchRoundAt(ops: Operands, buckets: seq<nat>, home: seq<nat>, slots: seq<Slot>, before: seq<Option<nat>>,
                      sel: seq<nat>, rows: seq<nat>, noMatch: seq<nat>, after: seq<Option<nat>>, sel': seq<nat>,
                      found: seq<bool>, found': seq<bool>, i: nat)
    requires Positioned(ops, buckets, home, before) && Chained(slots, buckets) && Selects(sel, before)
    requires i < |before| == |found| == |found'| && SearchAt(ops, before, sel, found, i)
    requires SplitBy(ops, before, |ops.conditions|, sel, rows, noMatch)
    requires Advanced(slots, noMatch, before, after, sel')
    requires found'[i] <==> found[i] || i in rows
    ensures SearchAt(ops, after, sel', found', i)
  {
    assert AdvancedAt(slots, noMatch, before, after, i);
    if i in sel {
      assert before[i].Some?;
      HitsAreMatches(ops, buckets, home, before, i);
      if i in noMatch {
        forall t: nat | Passed(after[i], t) ensures !Matches(ops, i, t) {
          if t < before[i].value {
            NothingSkipped(ops, buckets, home, slots, before, i, t);
          }
        }
      } else {
        assert LastMatch(ops, i, before[i].value);
      }
    }
  }

  lemma SearchRound(ops: Operands, buckets: seq<nat>, home: seq<nat>, slots: seq<Slot>, before: seq<Option<nat>>,
                    sel: seq<nat>, rows: seq<nat>, noMatch: seq<nat>, after: seq<Option<nat>>, sel': seq<nat>,
                    found: seq<bool>, found': seq<bool>)
    requires InSearch(ops, buckets, home, slots, before, sel, found)
    requires SplitBy(ops, before, |ops.conditions|, sel, rows, noMatch)
    requires Advanced(slots, noMatch, before, after, sel')
    requires |found'| == |found| && forall i | 0 <= i < |found| :: found'[i] <==> found[i] || i in rows
    ensures InSearch(ops, buckets, home, slots, after, sel', found')
  {
    AdvanceStaysPositioned(ops, buckets, home, slots, noMatch, before, after, sel');
    forall i | 0 <= i < |after| ensures SearchAt(ops, after, sel', found', i) {
      assert SearchAt(ops, before, sel, found, i);
      SearchRoundAt(ops, buckets, home, slots, before, sel, rows, noMatch, after, sel', found, found', i);
    }
  }

  /** Looks for one match of every selected row. */
  method ScanKeyMatches(ops: Operands, slots: seq<Slot>, pointers: seq<Option<nat>>, sel: seq<nat>, found: seq<bool>,
                        ghost buckets: seq<nat>, ghost home: seq<nat>)
    returns (pointers': seq<Option<nat>>, found': seq<bool>)
    requires InSearch(ops, buckets, home, slots, pointers, sel, found)
    ensures InSearch(ops, buckets, home, slots, pointers', [], found')
  {
    hide Positioned, Chained, Advanced, SplitBy;
    pointers', found' := pointers, found;
    var current := sel;
    while |current| > 0
      invariant InSearch(ops, buckets, home, slots, pointers', current, found')
      decreases Remaining(pointers'), |current|
    {
      var rows, noMatch := ResolvePredicates(ops, pointers', current);
      RoundRowsSelected(ops, pointers', |ops.conditions|, current, rows, noMatch);
      ghost var before, selected, flags := pointers', current, found';
      found' := SetFlags(found', rows);
      pointers', current := AdvancePointers(slots, pointers', noMatch);
      SearchRound(ops, buckets, home, slots, before, selected, rows, noMatch, pointers', current, flags, found');
      SearchProgress(slots, buckets, noMatch, before, pointers', current);
    }
  }

  lemma SearchProgress(slots: seq<Slot>, buckets: seq<nat>, sel: seq<nat>, before: seq<Option<nat>>,
                       after: seq<Option<nat>>, sel': seq<nat>)
    requires Chained(slots, buckets) && Selects(sel, before) && Advanced(slots, sel, before, after, sel')
    ensures Remaining(after) < Remaining(before) || (after == before && sel' == [])
  {
    if sel != [] {
      AdvanceShrinks(slots, buckets, sel, before, after, sel');
    } else {
      forall i | 0 <= i < |before| ensures after[i] == before[i] {
        assert AdvancedAt(slots, sel, before, after, i);
      }
    }
  }
}
