/**
 * Joins that ask whether a left row has a match: SEMI, ANTI, MARK and SINGLE
 * (src/execution/join_hashtable.cpp:806-909, 1013-1058;
 * src/execution/operator/join/physical_comparison_join.cpp:34-74).
 */
module ExistenceJoins {
  import opened Common
  import opened HashJoin
  import opened JoinBuild
  import opened JoinChains
  import opened JoinHashTable
  import opened JoinProbe
  import opened JoinResults
  import opened JoinScan
  import opened JoinSemantics

  /** Whether row `i` was found, and where. */
  ghost predicate FoundAt<L, R>(cs: seq<Condition>, left: seq<ProbeRow<L>>, c: Content<R>, pointers: seq<Option<nat>>,
                                found: seq<bool>, i: nat)
    requires SidesOk(cs, left, c.rows) && i < |found| == |pointers|
  {
    && (found[i] <==> !LeftAlone(cs, left, c.rows, i))
    && (found[i] ==> pointers[i].Some? && pointers[i].value < |c.origin|)
    && (found[i] ==> Joins(cs, left, c.rows, i, c.origin[pointers[i].value]))
  }

  lemma SearchFinds<L, R>(kind: JoinType, cs: seq<Condition>, eq: nat, hashOf: Key -> nat, c: Content<R>,
                          chunk: seq<ProbeRow<L>>, ops: Operands, buckets: seq<nat>, home: seq<nat>, slots: seq<Slot>,
                          pointers: seq<Option<nat>>, found: seq<bool>, i: nat)
    requires ConditionsOk(cs, eq) && HoldsRows(cs, eq, hashOf, kind.IsRightOuter(), c) && Decides(kind, cs)
    requires SidesOk(cs, chunk, c.rows) && KeysOk(cs, Keys(chunk)) && ops == Operands(cs, Keys(chunk), c.stored)
    requires InSearch(ops, buckets, home, slots, pointers, [], found) && i < |chunk|
    ensures |found| == |pointers| == |chunk| && FoundAt(cs, chunk, c, pointers, found, i)
  {
    hide HoldsRows, KeysOk, ConditionsOk, KeysMatch, Chained;
    assert SearchAt(ops, pointers, [], found, i);
    HoldsShape(cs, eq, hashOf, kind.IsRightOuter(), c);
    DecisiveRows(kind, cs, eq, hashOf, c);
    hide Decisive;
    assert EndsWith(chunk, 0, chunk);
    if found[i] {
      MatchIsJoin(kind, cs, c, chunk, 0, chunk, ops, i, pointers[i].value);
      assert Joins(cs, chunk, c.rows, i, c.origin[pointers[i].value]);
    } else {
      forall j: nat ensures !Joins(cs, chunk, c.rows, i, j) {
        if Joins(cs, chunk, c.rows, i, j) {
          JoinedRowHasTuple(kind, cs, c, chunk, i, j);
          var t :| 0 <= t < |c.origin| && c.origin[t] == j;
          MatchIsJoin(kind, cs, c, chunk, 0, chunk, ops, i, t);
        }
      }
    }
  }

  ghost predicate AllFound<L, R>(cs: seq<Condition>, left: seq<ProbeRow<L>>, c: Content<R>, pointers: seq<Option<nat>>,
                                 found: seq<bool>)
    requires SidesOk(cs, left, c.rows)
  {
    |found| == |pointers| == |left| && forall i | 0 <= i < |found| :: FoundAt(cs, left, c, pointers, found, i)
  }

  /** A finished search of the table knows which rows of the chunk join a build row. */
  lemma SearchFindsAll<L, R(!new)>(ss: ScanStructure<R>, chunk: seq<ProbeRow<L>>)
    requires ss.ht.Ready() && ss.Searching() && ss.sel == [] && ss.keys == Keys(chunk)
    requires !ss.ht.joinType.IsRightOuter() && KeysOk(ss.ht.conditions, Keys(chunk))
    ensures SidesOk(ss.ht.conditions, chunk, ss.ht.rows)
    ensures AllFound(ss.ht.conditions, chunk, ss.ht.Tuples(), ss.pointers, ss.foundMatch)
  {
    hide HoldsRows, ConditionsOk, InSearch, Built, FoundAt;
    var ht := ss.ht;
    BuiltHolds(ht.conditions, ht.equalities, ht.hashOf, ht.joinType, ht.Tuples(), ht.slots, ht.found, ht.blocks,
               ht.hasNull, ht.heads, ht.bitmask, ht.buckets);
    ChunkSides(ht.conditions, ht.equalities, ht.hashOf, ht.joinType.IsRightOuter(), ht.Tuples(), chunk);
    forall i | 0 <= i < |chunk| ensures FoundAt(ht.conditions, chunk, ht.Tuples(), ss.pointers, ss.foundMatch, i) {
      SearchFinds(ht.joinType, ht.conditions, ht.equalities, ht.hashOf, ht.Tuples(), chunk, ss.Ops(), ht.buckets,
                  ss.home, ht.slots, ss.pointers, ss.foundMatch, i);
    }
  }

  lemma ChunkSides<L, R>(cs: seq<Condition>, eq: nat, hashOf: Key -> nat, keepNulls: bool, c: Content<R>,
                         chunk: seq<ProbeRow<L>>)
    requires HoldsRows(cs, eq, hashOf, keepNulls, c) && KeysOk(cs, Keys(chunk))
    ensures SidesOk(cs, chunk, c.rows)
  {
    forall i | 0 <= i < |chunk| ensures |chunk[i].key| == |cs| {
      assert Keys(chunk)[i] == chunk[i].key;
    }
  }

  /** The rows of a chunk below `n` that have a match, or those that have none, in order. */
  ghost function RowsWhere<L, R>(cs: seq<Condition>, left: seq<ProbeRow<L>>, rows: seq<BuildRow<R>>, want: bool,
                                 n: nat): (result: seq<L>)
    requires SidesOk(cs, left, rows) && n <= |left|
  {
    if n == 0 then []
    else
      var before := RowsWhere(cs, left, rows, want, n - 1);
      if LeftAlone(cs, left, rows, n - 1) == want then before else before + [left[n - 1].row]
  }

  lemma {:induction false} FlaggedAreRows<L, R>(cs: seq<Condition>, left: seq<ProbeRow<L>>, rows: seq<BuildRow<R>>,
                                                found: seq<bool>, want: bool, n: nat)
    requires SidesOk(cs, left, rows) && n <= |left| == |found|
    requires forall i | 0 <= i < |found| :: found[i] <==> !LeftAlone(cs, left, rows, i)
    ensures Slice(LeftOf(left), Flagged(found, want, n)) == RowsWhere(cs, left, rows, want, n)
  {
    if n > 0 {
      FlaggedAreRows(cs, left, rows, found, want, n - 1);
      var before := Flagged(found, want, n - 1);
      assert Slice(LeftOf(left), before + [n - 1]) == Slice(LeftOf(left), before) + [left[n - 1].row];
    }
  }

  /** An empty table has no row that matches. */
  lemma EmptyTableMatchesNothing<L, R>(cs: seq<Condition>, eq: nat, hashOf: Key -> nat, c: Content<R>,
                                       left: seq<ProbeRow<L>>, i: nat)
    requires HoldsRows(cs, eq, hashOf, false, c) && SidesOk(cs, left, c.rows) && c.origin == []
    ensures LeftAlone(cs, left, c.rows, i)
  {
    forall j: nat ensures !Joins(cs, left, c.rows, i, j) {
      if Joins(cs, left, c.rows, i, j) {
        JoinedRowHasTuple(Semi, cs, c, left, i, j);
      }
    }
  }

  lemma {:induction false} AllAlone<L, R>(cs: seq<Condition>, left: seq<ProbeRow<L>>, rows: seq<BuildRow<R>>,
                                          want: bool, n: nat)
    requires SidesOk(cs, left, rows) && n <= |left| && forall i: nat :: LeftAlone(cs, left, rows, i)
    ensures RowsWhere(cs, left, rows, want, n) == if want then [] else LeftOf(left)[..n]
  {
    if n > 0 {
      AllAlone(cs, left, rows, want, n - 1);
    }
  }

  /** A SEMI join returns the left rows with a match, an ANTI join the others. */
  method SemiOrAntiJoin<L, R(!new)>(ht: JoinHashTable<R>, chunk: seq<ProbeRow<L>>) returns (result: seq<L>)
    requires ht.Ready() && (ht.joinType.Semi? || ht.joinType.Anti?) && KeysOk(ht.conditions, Keys(chunk))
    ensures SidesOk(ht.conditions, chunk, ht.rows)
    ensures result == RowsWhere(ht.conditions, chunk, ht.rows, ht.joinType.Semi?, |chunk|)
  {
    hide Built, HoldsRows, ConditionsOk, LeftAlone, InSearch, InScan;
    BuiltHolds(ht.conditions, ht.equalities, ht.hashOf, ht.joinType, ht.Tuples(), ht.slots, ht.found, ht.blocks,
               ht.hasNull, ht.heads, ht.bitmask, ht.buckets);
    ChunkSides(ht.conditions, ht.equalities, ht.hashOf, false, ht.Tuples(), chunk);
    HoldsShape(ht.conditions, ht.equalities, ht.hashOf, false, ht.Tuples());
    if |ht.stored| == 0 {
      result := if ht.joinType.Anti? then LeftOf(chunk) else [];
      forall i: nat ensures LeftAlone(ht.conditions, chunk, ht.rows, i) {
        EmptyTableMatchesNothing(ht.conditions, ht.equalities, ht.hashOf, ht.Tuples(), chunk, i);
      }
      AllAlone(ht.conditions, chunk, ht.rows, ht.joinType.Semi?, |chunk|);
    } else {
      var ss := new ScanStructure(ht, Keys(chunk));
      result := ss.NextSemiOrAntiJoin(LeftOf(chunk), ht.joinType.Semi?);
      SearchFindsAll(ss, chunk);
      forall i | 0 <= i < |ss.foundMatch| ensures ss.foundMatch[i] <==> !LeftAlone(ht.conditions, chunk, ht.rows, i) {
        assert FoundAt(ht.conditions, chunk, ht.Tuples(), ss.pointers, ss.foundMatch, i);
      }
      FlaggedAreRows(ht.conditions, chunk, ht.rows, ss.foundMatch, ht.joinType.Semi?, |chunk|);
    }
  }

  ghost predicate Splits<T>(s: seq<T>, a: seq<T>, b: seq<T>) {
    multiset(a) + multiset(b) == multiset(s)
  }

  lemma SplitNothing<T>()
    ensures Splits<T>([], [], [])
  {
  }

  lemma SplitMore<T>(s: seq<T>, a: seq<T>, b: seq<T>, x: T)
    requires Splits(s, a, b)
    ensures Splits(s + [x], a + [x], b) && Splits(s + [x], a, b + [x])
  {
  }

  /** The SEMI and the ANTI join together return every left row once. */
  lemma {:induction false} SemiAndAntiPartition<L, R>(cs: seq<Condition>, left: seq<ProbeRow<L>>,
                                                      rows: seq<BuildRow<R>>, n: nat)
    requires SidesOk(cs, left, rows) && n <= |left|
    ensures Splits(LeftOf(left)[..n], RowsWhere(cs, left, rows, true, n), RowsWhere(cs, left, rows, false, n))
  {
    hide Splits, LeftAlone;
    if n == 0 {
      SplitNothing<L>();
    } else {
      SemiAndAntiPartition(cs, left, rows, n - 1);
      var x, before := left[n - 1].row, LeftOf(left)[..n - 1];
      assert LeftOf(left)[..n] == before + [x];
      SplitMore(before, RowsWhere(cs, left, rows, true, n - 1), RowsWhere(cs, left, rows, false, n - 1), x);
    }
  }

  /** The truth value of an equality comparison, None standing for unknown. */
  function EqualTo(l: Option<int>, r: Option<int>): Option<bool> {
    if l.None? || r.None? then None else Some(l == r)
  }

  function Or3(a: Option<bool>, b: Option<bool>): Option<bool> {
    if a == Some(true) || b == Some(true) then Some(true) else if a.None? || b.None? then None else Some(false)
  }

  /** The truth value of `x IN (values)`: the disjunction of the comparisons with every value. */
  function In(x: Option<int>, values: seq<Option<int>>): Option<bool> {
    if values == [] then Some(false) else Or3(In(x, values[..|values| - 1]), EqualTo(x, values[|values| - 1]))
  }

  /** What decides the truth value: whether a value is equal, whether one is NULL, whether there is any. */
  ghost predicate Decided(x: Option<int>, values: seq<Option<int>>, r: Option<bool>) {
    && (r == Some(true) <==> x.Some? && x in values)
    && (r == Some(false) <==> values == [] || (x.Some? && x !in values && None !in values))
  }

  lemma DecidedMore(x: Option<int>, rest: seq<Option<int>>, last: Option<int>, r: Option<bool>)
    requires Decided(x, rest, r)
    ensures Decided(x, rest + [last], Or3(r, EqualTo(x, last)))
  {
    var values := rest + [last];
    assert x in values <==> x in rest || x == last;
    assert None in values <==> None in rest || last.None?;
    assert |values| > 0 && (rest == [] ==> x !in rest && None !in rest);
    if r.Some? {
      assert r == if r.value then Some(true) else Some(false);
    }
  }

  lemma {:induction false} InCases(x: Option<int>, values: seq<Option<int>>)
    ensures Decided(x, values, In(x, values))
  {
    if values != [] {
      hide Decided, Or3, EqualTo;
      var rest, last := values[..|values| - 1], values[|values| - 1];
      InCases(x, rest);
      DecidedMore(x, rest, last, In(x, rest));
      assert values == rest + [last];
    }
  }

  /** The build side of a single-key join as a list of values. */
  ghost function Values<R>(rows: seq<BuildRow<R>>): (values: seq<Option<int>>)
    requires forall j | 0 <= j < |rows| :: |rows[j].key| == 1
    ensures |values| == |rows| && forall j | 0 <= j < |rows| :: values[j] == rows[j].key[0]
  {
    seq(|rows|, j requires 0 <= j < |rows| => rows[j].key[0])
  }

  /** One equality that does not treat NULLs as equal. */
  predicate SingleKey(cs: seq<Condition>) {
    cs == [Condition(Equal, false)]
  }

  lemma SingleKeyAlone<L, R>(cs: seq<Condition>, left: seq<ProbeRow<L>>, rows: seq<BuildRow<R>>, i: nat)
    requires SingleKey(cs) && SidesOk(cs, left, rows) && i < |left|
    ensures LeftAlone(cs, left, rows, i) <==> left[i].key[0].None? || left[i].key[0] !in Values(rows)
  {
    var l, values := left[i].key[0], Values(rows);
    forall j: nat | j < |rows| ensures Joins(cs, left, rows, i, j) <==> l.Some? && l == values[j] {
      assert KeysMatch(cs, left[i].key, rows[j].key) <==> Holds(cs[0], l, values[j]);
    }
    if l.Some? && l in values {
      var j :| 0 <= j < |values| && values[j] == l;
      assert Joins(cs, left, rows, i, j);
    }
  }

  /** Rows are dropped exactly when a value is NULL. */
  lemma SingleKeyDrops<R>(cs: seq<Condition>, eq: nat, hashOf: Key -> nat, c: Content<R>)
    requires SingleKey(cs) && HoldsRows(cs, eq, hashOf, false, c)
    ensures forall j | 0 <= j < |c.rows| :: |c.rows[j].key| == 1
    ensures Drops(|c.rows|, c.origin) <==> None in Values(c.rows)
  {
    var values := Values(c.rows);
    forall j | 0 <= j < |c.rows| ensures j in c.origin <==> values[j].Some? {
      assert Kept(cs, c.rows[j].key) <==> c.rows[j].key[0].Some?;
    }
  }

  /** A mark is the truth value of IN. */
  lemma MarkIsIn<R>(cs: seq<Condition>, eq: nat, hashOf: Key -> nat, c: Content<R>, x: Option<int>, found: bool,
                    hasNull: bool)
    requires SingleKey(cs) && HoldsRows(cs, eq, hashOf, false, c) && c.rows != []
    requires hasNull <==> Drops(|c.rows|, c.origin)
    requires forall j | 0 <= j < |c.rows| :: |c.rows[j].key| == 1
    requires found <==> x.Some? && x in Values(c.rows)
    ensures MarkOf(x.Some?, found, hasNull) == In(x, Values(c.rows))
  {
    SingleKeyDrops(cs, eq, hashOf, c);
    InCases(x, Values(c.rows));
  }

  /** A table that stored nothing was given nothing or only NULLs. */
  lemma EmptyTableMark<R>(cs: seq<Condition>, eq: nat, hashOf: Key -> nat, c: Content<R>, x: Option<int>, hasNull: bool)
    requires SingleKey(cs) && HoldsRows(cs, eq, hashOf, false, c) && c.origin == []
    requires hasNull <==> Drops(|c.rows|, c.origin)
    requires forall j | 0 <= j < |c.rows| :: |c.rows[j].key| == 1
    ensures (if hasNull then None else Some(false)) == In(x, Values(c.rows))
  {
    SingleKeyDrops(cs, eq, hashOf, c);
    InCases(x, Values(c.rows));
    var values := Values(c.rows);
    forall j | 0 <= j < |values| ensures values[j].None? {
      assert j !in c.origin;
      assert Kept(cs, c.rows[j].key) <==> c.rows[j].key[0].Some?;
    }
    assert c.rows != [] ==> values[0] in values;
  }

  /** With one key column the mask is the validity of the key. */
  lemma SingleKeyMask(cs: seq<Condition>, keys: seq<Key>, i: nat)
    requires SingleKey(cs) && i < |keys| && forall i | 0 <= i < |keys| :: |keys[i]| == 1
    ensures ValidMask(cs, keys, 1)[i] == keys[i][0].Some?
  {
    assert ValidMask(cs, keys, 0)[i];
  }

  /** A row's truth value against the whole build side. */
  ghost predicate MarksIn<L, R>(cs: seq<Condition>, chunk: seq<ProbeRow<L>>, rows: seq<BuildRow<R>>,
                                marks: seq<Option<bool>>) {
    && SingleKey(cs) && SidesOk(cs, chunk, rows) && |marks| == |chunk|
    && forall i | 0 <= i < |chunk| :: marks[i] == In(chunk[i].key[0], Values(rows))
  }

  /** A MARK join on one key computes the three-valued IN of every left row. */
  method MarkJoin<L, R(!new)>(ht: JoinHashTable<R>, chunk: seq<ProbeRow<L>>) returns (marks: seq<Option<bool>>)
    requires ht.Ready() && ht.joinType.Mark? && SingleKey(ht.conditions) && KeysOk(ht.conditions, Keys(chunk))
    ensures MarksIn(ht.conditions, chunk, ht.rows, marks)
  {
    hide Built, HoldsRows, ConditionsOk, LeftAlone, InSearch, InScan, In, Drops, InRange;
    BuiltHolds(ht.conditions, ht.equalities, ht.hashOf, ht.joinType, ht.Tuples(), ht.slots, ht.found, ht.blocks,
               ht.hasNull, ht.heads, ht.bitmask, ht.buckets);
    ChunkSides(ht.conditions, ht.equalities, ht.hashOf, false, ht.Tuples(), chunk);
    HoldsShape(ht.conditions, ht.equalities, ht.hashOf, false, ht.Tuples());
    if |ht.stored| == 0 {
      var mark := if ht.hasNull then None else Some(false);
      marks := seq(|chunk|, _ => mark);
      forall i | 0 <= i < |chunk| ensures marks[i] == In(chunk[i].key[0], Values(ht.rows)) {
        EmptyTableMark(ht.conditions, ht.equalities, ht.hashOf, ht.Tuples(), chunk[i].key[0], ht.hasNull);
      }
    } else {
      var ss := new ScanStructure(ht, Keys(chunk));
      marks := ss.NextMarkJoin();
      assert ht.origin[0] < |ht.rows|;
      SearchFindsAll(ss, chunk);
      forall i | 0 <= i < |chunk| ensures marks[i] == In(chunk[i].key[0], Values(ht.rows)) {
        assert FoundAt(ht.conditions, chunk, ht.Tuples(), ss.pointers, ss.foundMatch, i);
        SingleKeyAlone(ht.conditions, chunk, ht.rows, i);
        SingleKeyMask(ht.conditions, Keys(chunk), i);
        MarkIsIn(ht.conditions, ht.equalities, ht.hashOf, ht.Tuples(), chunk[i].key[0], ss.foundMatch[i], ht.hasNull);
      }
    }
  }

  /** A SINGLE join's row: alone if it has no match, otherwise with the payload of a row it joins. */
  ghost predicate SingleAt<L, R>(cs: seq<Condition>, chunk: seq<ProbeRow<L>>, rows: seq<BuildRow<R>>, out: Joined<L, R>,
                                 i: nat)
    requires SidesOk(cs, chunk, rows) && i < |chunk|
  {
    && out.left == Some(chunk[i].row)
    && (if LeftAlone(cs, chunk, rows, i) then out.right == None
        else exists j: nat :: Joins(cs, chunk, rows, i, j) && out.right == Some(rows[j].payload))
  }

  /** A SINGLE join returns every left row exactly once. */
  method SingleJoin<L, R(!new)>(ht: JoinHashTable<R>, chunk: seq<ProbeRow<L>>) returns (result: seq<Joined<L, R>>)
    requires ht.Ready() && ht.joinType.Single? && KeysOk(ht.conditions, Keys(chunk))
    ensures SidesOk(ht.conditions, chunk, ht.rows) && |result| == |chunk|
    ensures forall i | 0 <= i < |chunk| :: SingleAt(ht.conditions, chunk, ht.rows, result[i], i)
  {
    hide Built, HoldsRows, ConditionsOk, LeftAlone, InSearch, InScan, KeysOk, Joins;
    BuiltHolds(ht.conditions, ht.equalities, ht.hashOf, ht.joinType, ht.Tuples(), ht.slots, ht.found, ht.blocks,
               ht.hasNull, ht.heads, ht.bitmask, ht.buckets);
    ChunkSides(ht.conditions, ht.equalities, ht.hashOf, false, ht.Tuples(), chunk);
    HoldsShape(ht.conditions, ht.equalities, ht.hashOf, false, ht.Tuples());
    if |ht.stored| == 0 {
      result := seq(|chunk|, i requires 0 <= i < |chunk| => Joined(Some(chunk[i].row), None));
      forall i | 0 <= i < |chunk| ensures SingleAt(ht.conditions, chunk, ht.rows, result[i], i) {
        EmptyTableMatchesNothing(ht.conditions, ht.equalities, ht.hashOf, ht.Tuples(), chunk, i);
      }
    } else {
      var ss := new ScanStructure(ht, Keys(chunk));
      result := ss.NextSingleJoin(LeftOf(chunk));
      SearchFindsAll(ss, chunk);
      forall i | 0 <= i < |chunk| ensures SingleAt(ht.conditions, chunk, ht.rows, result[i], i) {
        assert FoundAt(ht.conditions, chunk, ht.Tuples(), ss.pointers, ss.foundMatch, i);
      }
    }
  }
}
