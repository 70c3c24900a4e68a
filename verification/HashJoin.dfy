/**
 * The hash join operator: it drives the scan of every probe chunk to exhaustion and then returns the build rows that
 * found no match (src/execution/operator/join/physical_hash_join.cpp:172-265).
 */
module HashJoin {
  import opened Common
  import opened JoinBuild
  import opened JoinChains
  import opened JoinHashTable
  import opened JoinProbe
  import opened JoinResults
  import opened JoinScan
  import opened JoinSemantics

  lemma NoPointersLeft(pointers: seq<Option<nat>>, i: nat)
    requires SelectsAll([], pointers) && i < |pointers|
    ensures pointers[i] == None
  {
    var none: seq<nat> := [];
    assert i !in none;
  }

  lemma FoundIffMatches(ops: Operands, emitted: seq<(nat, nat)>, i: nat)
    requires OperandsOk(ops) && forall i: nat, t: nat :: (i, t) in emitted <==> Matches(ops, i, t)
    ensures RowFound(emitted, i) <==> !NoMatchAbove(ops, None, i)
  {
    hide Matches;
    if RowFound(emitted, i) {
      var x :| 0 <= x < |emitted| && emitted[x].0 == i;
      assert emitted[x] == (i, emitted[x].1);
      assert Passed(None, emitted[x].1);
    }
    if !NoMatchAbove(ops, None, i) {
      var t: nat :| Passed(None, t) && Matches(ops, i, t);
      assert (i, t) in emitted;
      var x :| 0 <= x < |emitted| && emitted[x] == (i, t);
      assert emitted[x].0 == i;
    }
  }

  /** A scan whose chains have all ended has found every match. */
  lemma ScanFoundAll(ops: Operands, buckets: seq<nat>, home: seq<nat>, slots: seq<Slot>, pointers: seq<Option<nat>>,
                     emitted: seq<(nat, nat)>)
    requires InScan(ops, buckets, home, slots, pointers, [], emitted)
    ensures OperandsOk(ops) && NoDuplicates(emitted)
    ensures forall i: nat, t: nat :: (i, t) in emitted <==> Matches(ops, i, t)
  {
    forall i: nat, t: nat ensures (i, t) in emitted <==> Matches(ops, i, t) {
      if i < |pointers| {
        NoPointersLeft(pointers, i);
        assert EmittedAt(ops, pointers, emitted, i, t);
      }
    }
  }

  lemma ScanIsComplete(kind: JoinType, ops: Operands, buckets: seq<nat>, home: seq<nat>, slots: seq<Slot>,
                       pointers: seq<Option<nat>>, emitted: seq<(nat, nat)>, foundMatch: seq<bool>, alone: seq<nat>)
    requires InScan(ops, buckets, home, slots, pointers, [], emitted)
    requires kind.IsLeftOuter() ==> |foundMatch| == |ops.keys| && MarksRows(foundMatch, emitted)
    requires alone == if kind.IsLeftOuter() then Flagged(foundMatch, false, |foundMatch|) else []
    ensures Complete(kind, ops, emitted, alone)
  {
    ScanFoundAll(ops, buckets, home, slots, pointers, emitted);
    hide InScan, Matches, NoMatchAbove, OperandsOk;
    if kind.IsLeftOuter() {
      FlaggedRows(foundMatch, false, |foundMatch|);
      forall i: nat | i < |ops.keys| ensures i in alone <==> NoMatchAbove(ops, None, i) {
        FoundIffMatches(ops, emitted, i);
      }
    }
  }

  function Keys<L>(chunk: seq<ProbeRow<L>>): (keys: seq<Key>)
    ensures |keys| == |chunk| && forall i | 0 <= i < |chunk| :: keys[i] == chunk[i].key
  {
    seq(|chunk|, i requires 0 <= i < |chunk| => chunk[i].key)
  }

  function LeftOf<L>(chunk: seq<ProbeRow<L>>): (left: seq<L>)
    ensures |left| == |chunk| && forall i | 0 <= i < |chunk| :: left[i] == chunk[i].row
  {
    seq(|chunk|, i requires 0 <= i < |chunk| => chunk[i].row)
  }

  /** Probes the table with a chunk until the scan returns nothing more. */
  method ProbeChunk<L, R(!new)>(ht: JoinHashTable<R>, keys: seq<Key>, left: seq<L>)
    returns (out: seq<Joined<L, R>>, ghost emitted: seq<(nat, nat)>, ghost alone: seq<nat>)
    requires ht.Ready() && KeysOk(ht.conditions, keys) && |left| == |keys| && Returns(ht.joinType)
    modifies ht`found
    ensures ht.Ready() && PairsIn(emitted, |left|, |ht.payloads|) && forall x | 0 <= x < |alone| :: alone[x] < |left|
    ensures out == Produced(left, ht.payloads, emitted, alone)
    ensures Complete(ht.joinType, Operands(ht.conditions, keys, ht.stored), emitted, alone)
    ensures ht.joinType.IsRightOuter() ==> MarksTuples(ht.found, old(ht.found), emitted)
  {
    hide Built;
    ghost var flags := ht.found;
    var ss := new ScanStructure(ht, keys);
    out := DriveScan(ss, left);
    emitted, alone := ss.emitted, ss.leftOnly;
    ScanIsComplete(ht.joinType, ss.Ops(), ht.buckets, ss.home, ht.slots, ss.pointers, emitted, ss.foundMatch, alone);
    FlagsDoNotMatter(ht.conditions, ht.equalities, ht.hashOf, ht.joinType, ht.Tuples(), ht.slots, flags, ht.found,
                     ht.blocks, ht.hasNull, ht.heads, ht.bitmask, ht.buckets);
  }

  lemma FlagsDoNotMatter<R>(cs: seq<Condition>, eq: nat, hashOf: Key -> nat, kind: JoinType, c: Content<R>,
                            slots: seq<Slot>, found: seq<bool>, found': seq<bool>, blocks: seq<nat>, hasNull: bool,
                            heads: seq<Option<nat>>, bitmask: nat, buckets: seq<nat>)
    requires Built(cs, eq, hashOf, kind, c, slots, found, blocks, hasNull, heads, bitmask, buckets)
    requires |found'| == |c.stored|
    ensures Built(cs, eq, hashOf, kind, c, slots, found', blocks, hasNull, heads, bitmask, buckets)
  {
  }

  method DriveScan<L, R(!new)>(ss: ScanStructure<R>, left: seq<L>) returns (out: seq<Joined<L, R>>)
    requires ss.Scanning() && |left| == |ss.keys| && Returns(ss.ht.joinType) && !ss.finished && ss.emitted == []
    modifies ss, ss.ht`found
    ensures ss.Scanning() && ss.Exhausted() && out == Produced(left, ss.ht.payloads, ss.emitted, ss.leftOnly)
  {
    hide InScan, MarksRows, MarksTuples, Flagged, Produced;
    out := [];
    var more := true;
    while more
      invariant ss.Scanning() && out == Produced(left, ss.ht.payloads, ss.emitted, ss.leftOnly)
      invariant !more ==> ss.Exhausted()
      decreases more, !ss.finished, Remaining(ss.pointers)
    {
      ghost var emitted, finished, payloads := ss.emitted, ss.finished, ss.ht.payloads;
      var result := ss.Next(left);
      if |result| == 0 {
        more := false;
      }
      if !finished {
        assert ss.emitted == emitted + ss.emitted[|emitted|..];
        ProducedAppend(left, payloads, emitted, ss.emitted[|emitted|..], ss.leftOnly);
      }
      out := out + result;
    }
  }

  /** The serialized comparison decides the conditions on the keys the table holds. */
  ghost predicate Decides(kind: JoinType, cs: seq<Condition>) {
    kind.Right? || kind.Outer? ==> forall i | 0 <= i < |cs| :: RejectsNull(cs[i])
  }

  /** A probe chunk appended to the left rows seen before it. */
  ghost predicate EndsWith<L>(left: seq<ProbeRow<L>>, n: nat, chunk: seq<ProbeRow<L>>) {
    |left| == n + |chunk| && forall i | 0 <= i < |chunk| :: left[n + i] == chunk[i]
  }

  /** The serialized comparison of a key with a tuple decides whether the key matches the tuple's row. */
  ghost predicate DecidesAt<R>(cs: seq<Condition>, c: Content<R>, t: nat, l: Key)
    requires t < |c.origin| == |c.stored| && c.origin[t] < |c.rows|
    requires |c.rows[c.origin[t]].key| == |c.stored[t]| == |l| == |cs|
  {
    KeysMatch(cs, l, c.rows[c.origin[t]].key) <==> Kept(cs, l) && GathersAll(cs, l, c.stored[t])
  }

  ghost predicate TuplesOk<R>(cs: seq<Condition>, c: Content<R>) {
    && |c.origin| == |c.stored| == |c.payloads| && Increasing(c.origin)
    && (forall j | 0 <= j < |c.rows| :: |c.rows[j].key| == |cs|)
    && (forall t | 0 <= t < |c.origin| ::
          c.origin[t] < |c.rows| && c.payloads[t] == c.rows[c.origin[t]].payload && |c.stored[t]| == |cs|)
  }

  /** The tuples stand for the rows: every row that matches anything, or is returned anyway, has one that decides it. */
  ghost predicate Decisive<R>(kind: JoinType, cs: seq<Condition>, c: Content<R>) {
    && TuplesOk(cs, c)
    && (forall t: nat, l: Key | t < |c.origin| && InRange(l, |cs|) :: DecidesAt(cs, c, t, l))
    && (forall j: nat, l: Key | j < |c.rows| && |l| == |cs| && KeysMatch(cs, l, c.rows[j].key) :: j in c.origin)
    && (kind.IsRightOuter() ==> forall j: nat | j < |c.rows| :: j in c.origin)
  }

  lemma HoldsShape<R>(cs: seq<Condition>, eq: nat, hashOf: Key -> nat, keepNulls: bool, c: Content<R>)
    requires HoldsRows(cs, eq, hashOf, keepNulls, c)
    ensures Increasing(c.origin) && |c.origin| == |c.stored| == |c.payloads| && KeysInRange(cs, c.rows)
    ensures forall t | 0 <= t < |c.origin| :: c.origin[t] < |c.rows| && c.payloads[t] == c.rows[c.origin[t]].payload
  {
    forall t | 0 <= t < |c.origin| ensures c.origin[t] < |c.rows| && c.payloads[t] == c.rows[c.origin[t]].payload {
      assert TupleAt(cs, eq, hashOf, c, t);
    }
  }

  lemma DecisiveShape<R>(kind: JoinType, cs: seq<Condition>, c: Content<R>)
    requires Decisive(kind, cs, c)
    ensures TuplesOk(cs, c)
  {
  }

  /** The tuples stand for the rows as they are, where the serialized comparison decides the conditions. */
  lemma DecisiveRows<R>(kind: JoinType, cs: seq<Condition>, eq: nat, hashOf: Key -> nat, c: Content<R>)
    requires ConditionsOk(cs, eq) && HoldsRows(cs, eq, hashOf, kind.IsRightOuter(), c) && Decides(kind, cs)
    ensures Decisive(kind, cs, c)
  {
    HoldsShape(cs, eq, hashOf, kind.IsRightOuter(), c);
    forall t | 0 <= t < |c.origin| ensures |c.stored[t]| == |cs| {
      assert TupleAt(cs, eq, hashOf, c, t);
    }
    forall t: nat, l: Key | t < |c.origin| && InRange(l, |cs|) ensures DecidesAt(cs, c, t, l) {
      assert TupleAt(cs, eq, hashOf, c, t) && c.origin[t] in c.origin;
      var r := c.rows[c.origin[t]].key;
      if Kept(cs, l) {
        GatherIsMatch(cs, eq, l, r);
      } else {
        DroppedNeverMatches(cs, l, r);
      }
    }
    forall j: nat, l: Key | j < |c.rows| && |l| == |cs| && KeysMatch(cs, l, c.rows[j].key) ensures j in c.origin {
      if !Kept(cs, c.rows[j].key) {
        DroppedNeverMatches(cs, l, c.rows[j].key);
      }
    }
  }

  /** Build rows with NULL as the sentinel where the table compares it. */
  function SentinelRows<R>(cs: seq<Condition>, rows: seq<BuildRow<R>>): (rows': seq<BuildRow<R>>)
    requires forall j | 0 <= j < |rows| :: |rows[j].key| == |cs|
    ensures |rows'| == |rows| && forall j | 0 <= j < |rows| ::
              rows'[j].payload == rows[j].payload && rows'[j].key == SentinelKey(cs, rows[j].key)
  {
    seq(|rows|, j requires 0 <= j < |rows| => BuildRow(SentinelKey(cs, rows[j].key), rows[j].payload))
  }

  /** The build rows as a join compares them: right and full outer joins keep those with NULL keys. */
  function Compared<R>(kind: JoinType, cs: seq<Condition>, rows: seq<BuildRow<R>>): (rows': seq<BuildRow<R>>)
    requires forall j | 0 <= j < |rows| :: |rows[j].key| == |cs|
  {
    if kind.Right? || kind.Outer? then SentinelRows(cs, rows) else rows
  }

  /** Whatever the conditions, the tuples stand for the rows with the sentinel for NULL. */
  lemma DecisiveSentinels<R>(kind: JoinType, cs: seq<Condition>, eq: nat, hashOf: Key -> nat, c: Content<R>)
    requires ConditionsOk(cs, eq) && HoldsRows(cs, eq, hashOf, true, c) && kind.IsRightOuter()
    ensures (forall j | 0 <= j < |c.rows| :: |c.rows[j].key| == |cs|)
    ensures Decisive(kind, cs, c.(rows := SentinelRows(cs, c.rows)))
  {
    HoldsShape(cs, eq, hashOf, true, c);
    var c' := c.(rows := SentinelRows(cs, c.rows));
    forall t | 0 <= t < |c.origin| ensures |c.stored[t]| == |cs| {
      assert TupleAt(cs, eq, hashOf, c, t);
    }
    forall t: nat, l: Key | t < |c.origin| && InRange(l, |cs|) ensures DecidesAt(cs, c', t, l) {
      assert TupleAt(cs, eq, hashOf, c, t);
      SentinelMatches(cs, eq, l, c.rows[c.origin[t]].key);
    }
  }

  lemma DecisiveCompared<R>(kind: JoinType, cs: seq<Condition>, eq: nat, hashOf: Key -> nat, c: Content<R>)
    requires ConditionsOk(cs, eq) && HoldsRows(cs, eq, hashOf, kind.IsRightOuter(), c)
    ensures (forall j | 0 <= j < |c.rows| :: |c.rows[j].key| == |cs|)
    ensures Decisive(kind, cs, c.(rows := Compared(kind, cs, c.rows)))
  {
    if kind.IsRightOuter() {
      DecisiveSentinels(kind, cs, eq, hashOf, c);
    } else {
      HoldsShape(cs, eq, hashOf, false, c);
      DecisiveRows(kind, cs, eq, hashOf, c);
      assert c.(rows := c.rows) == c;
    }
  }

  /** Finding a match in the table is joining the row the tuple was made from. */
  lemma MatchIsJoin<L, R>(kind: JoinType, cs: seq<Condition>, c: Content<R>, left: seq<ProbeRow<L>>, n: nat,
                          chunk: seq<ProbeRow<L>>, ops: Operands, i: nat, t: nat)
    requires Decisive(kind, cs, c)
    requires EndsWith(left, n, chunk) && SidesOk(cs, left, c.rows) && KeysOk(cs, Keys(chunk))
    requires ops == Operands(cs, Keys(chunk), c.stored) && OperandsOk(ops) && i < |chunk| && t < |c.origin|
    ensures c.origin[t] < |c.rows| && (Matches(ops, i, t) <==> Joins(cs, left, c.rows, n + i, c.origin[t]))
  {
    hide KeysMatch, GathersAll, Kept, InRange;
    assert Keys(chunk)[i] == chunk[i].key == left[n + i].key;
    assert DecidesAt(cs, c, t, chunk[i].key);
  }

  /** A row that joins anything has a tuple. */
  lemma JoinedRowHasTuple<L, R>(kind: JoinType, cs: seq<Condition>, c: Content<R>, left: seq<ProbeRow<L>>, i: nat,
                                j: nat)
    requires Decisive(kind, cs, c) && SidesOk(cs, left, c.rows) && Joins(cs, left, c.rows, i, j)
    ensures j in c.origin
  {
    hide KeysMatch, GathersAll, Kept, InRange;
  }

  /** The pairs a chunk adds to the result. */
  ghost function ChunkMatches(emitted: seq<(nat, nat)>, origin: seq<nat>, n: nat): (ps: seq<Pair>)
    requires forall x | 0 <= x < |emitted| :: emitted[x].1 < |origin|
    ensures |ps| == |emitted| && forall x | 0 <= x < |ps| :: ps[x] == Match(n + emitted[x].0, origin[emitted[x].1])
  {
    seq(|emitted|, x requires 0 <= x < |emitted| => Match(n + emitted[x].0, origin[emitted[x].1]))
  }

  ghost function ChunkAlone(alone: seq<nat>, n: nat): (ps: seq<Pair>)
    ensures |ps| == |alone| && forall x | 0 <= x < |ps| :: ps[x] == LeftOnly(n + alone[x])
  {
    seq(|alone|, x requires 0 <= x < |alone| => LeftOnly(n + alone[x]))
  }

  /** What a chunk has to enumerate. */
  ghost predicate FromChunk<L, R>(kind: JoinType, cs: seq<Condition>, left: seq<ProbeRow<L>>, rows: seq<BuildRow<R>>,
                                  n: nat, p: Pair)
    requires SidesOk(cs, left, rows)
  {
    !p.RightOnly? && n <= p.left && InJoin(kind, cs, left, rows, p)
  }

  lemma ChunkMatchMember(emitted: seq<(nat, nat)>, origin: seq<nat>, n: nat, i: nat, t: nat)
    requires (forall x | 0 <= x < |emitted| :: emitted[x].1 < |origin|) && Increasing(origin) && t < |origin|
    ensures Match(n + i, origin[t]) in ChunkMatches(emitted, origin, n) <==> (i, t) in emitted
  {
    var ps := ChunkMatches(emitted, origin, n);
    if (i, t) in emitted {
      var x :| 0 <= x < |emitted| && emitted[x] == (i, t);
      assert ps[x] == Match(n + i, origin[t]);
    }
    if Match(n + i, origin[t]) in ps {
      var x :| 0 <= x < |ps| && ps[x] == Match(n + i, origin[t]);
      assert emitted[x].1 == t;
      assert emitted[x] == (i, t);
    }
  }

  lemma ChunkMatchesDistinct(emitted: seq<(nat, nat)>, origin: seq<nat>, n: nat)
    requires (forall x | 0 <= x < |emitted| :: emitted[x].1 < |origin|) && Increasing(origin) && NoDuplicates(emitted)
    ensures NoDuplicates(ChunkMatches(emitted, origin, n))
  {
    var ps := ChunkMatches(emitted, origin, n);
    forall x, y | 0 <= x < y < |ps| ensures ps[x] != ps[y] {
      assert emitted[x] != emitted[y];
    }
  }

  lemma ChunkAloneMember(alone: seq<nat>, n: nat, i: nat)
    ensures LeftOnly(n + i) in ChunkAlone(alone, n) <==> i in alone
  {
    var ps := ChunkAlone(alone, n);
    if i in alone {
      var x :| 0 <= x < |alone| && alone[x] == i;
      assert ps[x] == LeftOnly(n + i);
    }
  }

  /** A finished scan, seen from the rows it joins. */
  ghost predicate ChunkDone<L, R>(kind: JoinType, cs: seq<Condition>, c: Content<R>,
                                  left: seq<ProbeRow<L>>, n: nat, chunk: seq<ProbeRow<L>>, emitted: seq<(nat, nat)>,
                                  alone: seq<nat>) {
    && Decisive(kind, cs, c)
    && EndsWith(left, n, chunk) && SidesOk(cs, left, c.rows) && KeysOk(cs, Keys(chunk))
    && PairsIn(emitted, |chunk|, |c.origin|) && Complete(kind, Operands(cs, Keys(chunk), c.stored), emitted, alone)
  }

  lemma ChunkMatchAt<L, R>(kind: JoinType, cs: seq<Condition>, c: Content<R>,
                           left: seq<ProbeRow<L>>, n: nat, chunk: seq<ProbeRow<L>>, emitted: seq<(nat, nat)>,
                           alone: seq<nat>, i: nat, j: nat)
    requires ChunkDone(kind, cs, c, left, n, chunk, emitted, alone)
    ensures Match(i, j) in ChunkMatches(emitted, c.origin, n) <==> n <= i && Joins(cs, left, c.rows, i, j)
  {
    hide Decisive, KeysOk, Kept, GathersAll, KeysMatch, InRange;
    var ops := Operands(cs, Keys(chunk), c.stored);
    var ps := ChunkMatches(emitted, c.origin, n);
    assert Increasing(c.origin) && |c.origin| == |c.stored| by {
      DecisiveShape(kind, cs, c);
    }
    if n <= i && Joins(cs, left, c.rows, i, j) {
      JoinedRowHasTuple(kind, cs, c, left, i, j);
      var t :| 0 <= t < |c.origin| && c.origin[t] == j;
      MatchIsJoin(kind, cs, c, left, n, chunk, ops, i - n, t);
      ChunkMatchMember(emitted, c.origin, n, i - n, t);
    }
    if Match(i, j) in ps {
      var x :| 0 <= x < |ps| && ps[x] == Match(i, j);
      var (a, t) := emitted[x];
      assert (a, t) in emitted;
      MatchIsJoin(kind, cs, c, left, n, chunk, ops, a, t);
    }
  }

  lemma ChunkAloneAt<L, R>(kind: JoinType, cs: seq<Condition>, c: Content<R>,
                           left: seq<ProbeRow<L>>, n: nat, chunk: seq<ProbeRow<L>>, emitted: seq<(nat, nat)>,
                           alone: seq<nat>, i: nat)
    requires ChunkDone(kind, cs, c, left, n, chunk, emitted, alone) && i < |chunk|
    ensures i in alone <==> kind.IsLeftOuter() && LeftAlone(cs, left, c.rows, n + i)
  {
    hide Decisive, KeysOk, Kept, GathersAll, KeysMatch, InRange, ConditionsOk;
    var ops := Operands(cs, Keys(chunk), c.stored);
    DecisiveShape(kind, cs, c);
    var k := n + i;
    if NoMatchAbove(ops, None, i) {
      forall j: nat ensures !Joins(cs, left, c.rows, k, j) {
        if Joins(cs, left, c.rows, k, j) {
          JoinedRowHasTuple(kind, cs, c, left, k, j);
          var t :| 0 <= t < |c.origin| && c.origin[t] == j;
          MatchIsJoin(kind, cs, c, left, n, chunk, ops, i, t);
        }
      }
    } else {
      var t: nat :| Passed(None, t) && Matches(ops, i, t);
      MatchIsJoin(kind, cs, c, left, n, chunk, ops, i, t);
      assert Joins(cs, left, c.rows, k, c.origin[t]);
    }
  }

  /** A finished scan enumerates the result rows of its chunk, none twice. */
  lemma ChunkEnumerates<L, R>(kind: JoinType, cs: seq<Condition>, c: Content<R>,
                              left: seq<ProbeRow<L>>, n: nat, chunk: seq<ProbeRow<L>>, emitted: seq<(nat, nat)>,
                              alone: seq<nat>)
    requires ChunkDone(kind, cs, c, left, n, chunk, emitted, alone)
    requires forall x | 0 <= x < |alone| :: alone[x] < |chunk|
    ensures var ps := ChunkMatches(emitted, c.origin, n) + ChunkAlone(alone, n);
      NoDuplicates(ps) && forall p :: p in ps <==> FromChunk(kind, cs, left, c.rows, n, p)
  {
    hide Decisive, KeysOk, ConditionsOk, Joins, LeftAlone, Alone, OperandsOk, Matches, NoMatchAbove;
    DecisiveShape(kind, cs, c);
    ChunkMatchesDistinct(emitted, c.origin, n);
    var matches, rest := ChunkMatches(emitted, c.origin, n), ChunkAlone(alone, n);
    AppendDisjoint(matches, rest);
    forall p ensures p in matches + rest <==> FromChunk(kind, cs, left, c.rows, n, p) {
      match p
      case Match(i, j) =>
        ChunkMatchAt(kind, cs, c, left, n, chunk, emitted, alone, i, j);
      case LeftOnly(i) =>
        if n <= i {
          ChunkAloneMember(alone, n, i - n);
          if i < |left| {
            ChunkAloneAt(kind, cs, c, left, n, chunk, emitted, alone, i - n);
          }
        }
      case RightOnly(j) =>
    }
  }

  /** The rows a scan returns are the ones its pairs stand for. */
  lemma ChunkRendered<L, R>(c: Content<R>, left: seq<ProbeRow<L>>, n: nat, chunk: seq<ProbeRow<L>>,
                            emitted: seq<(nat, nat)>, alone: seq<nat>)
    requires EndsWith(left, n, chunk) && |c.payloads| == |c.origin|
    requires forall t | 0 <= t < |c.origin| :: c.origin[t] < |c.rows| && c.payloads[t] == c.rows[c.origin[t]].payload
    requires PairsIn(emitted, |chunk|, |c.origin|) && forall x | 0 <= x < |alone| :: alone[x] < |chunk|
    ensures Produced(LeftOf(chunk), c.payloads, emitted, alone) ==
            RenderAll(left, c.rows, ChunkMatches(emitted, c.origin, n) + ChunkAlone(alone, n))
  {
    var matches, rest := ChunkMatches(emitted, c.origin, n), ChunkAlone(alone, n);
    RenderAppend(left, c.rows, matches, rest);
    assert MatchRows(LeftOf(chunk), c.payloads, emitted) == RenderAll(left, c.rows, matches);
    assert LeftRows(LeftOf(chunk), alone) == RenderAll(left, c.rows, rest);
  }

  /** The pairs found for the left rows so far, and the rows returned for them. */
  ghost predicate Enumerated<L, R>(kind: JoinType, cs: seq<Condition>, left: seq<ProbeRow<L>>, rows: seq<BuildRow<R>>,
                                   out: seq<Joined<L, R>>, ps: seq<Pair>) {
    && SidesOk(cs, left, rows) && NoDuplicates(ps) && out == RenderAll(left, rows, ps)
    && forall p :: p in ps <==> InOuterLoop(kind, cs, left, rows, |left|, p)
  }

  /** Left rows that come later change nothing about a row's matches. */
  lemma EarlierRows<L, R>(kind: JoinType, cs: seq<Condition>, left: seq<ProbeRow<L>>, more: seq<ProbeRow<L>>,
                          rows: seq<BuildRow<R>>, p: Pair)
    requires SidesOk(cs, left, rows) && SidesOk(cs, left + more, rows) && !p.RightOnly? && p.left < |left|
    ensures InJoin(kind, cs, left, rows, p) <==> InJoin(kind, cs, left + more, rows, p)
    ensures Render(left, rows, p) == Render(left + more, rows, p)
  {
    forall j: nat ensures Joins(cs, left, rows, p.left, j) <==> Joins(cs, left + more, rows, p.left, j) {
    }
    assert LeftAlone(cs, left, rows, p.left) <==> LeftAlone(cs, left + more, rows, p.left);
  }

  lemma RenderEarlier<L, R>(kind: JoinType, cs: seq<Condition>, left: seq<ProbeRow<L>>, more: seq<ProbeRow<L>>,
                            rows: seq<BuildRow<R>>, out: seq<Joined<L, R>>, ps: seq<Pair>)
    requires Enumerated(kind, cs, left, rows, out, ps) && SidesOk(cs, left + more, rows)
    ensures out == RenderAll(left + more, rows, ps)
  {
    hide InJoin, Render;
    forall x | 0 <= x < |ps| ensures Render(left, rows, ps[x]) == Render(left + more, rows, ps[x]) {
      assert ps[x] in ps;
      EarlierRows(kind, cs, left, more, rows, ps[x]);
    }
  }

  /** The chunk's rows complete the result of the left rows seen before it. */
  lemma EnumeratedMore<L, R>(kind: JoinType, cs: seq<Condition>, left: seq<ProbeRow<L>>, chunk: seq<ProbeRow<L>>,
                             rows: seq<BuildRow<R>>, out: seq<Joined<L, R>>, ps: seq<Pair>, more: seq<Pair>)
    requires Enumerated(kind, cs, left, rows, out, ps) && SidesOk(cs, left + chunk, rows) && NoDuplicates(more)
    requires forall p :: p in more <==> FromChunk(kind, cs, left + chunk, rows, |left|, p)
    ensures Enumerated(kind, cs, left + chunk, rows, out + RenderAll(left + chunk, rows, more), ps + more)
  {
    hide InJoin, RenderAll;
    var all := left + chunk;
    RenderEarlier(kind, cs, left, chunk, rows, out, ps);
    RenderAppend(all, rows, ps, more);
    AppendDisjoint(ps, more);
    forall p ensures p in ps + more <==> InOuterLoop(kind, cs, all, rows, |all|, p) {
      if !p.RightOnly? && p.left < |left| {
        EarlierRows(kind, cs, left, chunk, rows, p);
      }
      assert InJoin(kind, cs, all, rows, p) && !p.RightOnly? ==> p.left < |all| by {
        JoinInRange(kind, cs, all, rows, p);
      }
    }
  }

  lemma JoinInRange<L, R>(kind: JoinType, cs: seq<Condition>, left: seq<ProbeRow<L>>, rows: seq<BuildRow<R>>, p: Pair)
    requires SidesOk(cs, left, rows)
    ensures InJoin(kind, cs, left, rows, p) && !p.RightOnly? ==> p.left < |left|
  {
  }

  /** The flags tell which tuples' rows joined a left row. */
  ghost predicate FlagsTell<L, R>(cs: seq<Condition>, left: seq<ProbeRow<L>>, c: Content<R>, found: seq<bool>)
    requires SidesOk(cs, left, c.rows)
  {
    |found| == |c.origin| && forall t | 0 <= t < |found| :: found[t] <==> !Alone(cs, left, c.rows, c.origin[t])
  }

  lemma FlagAt<L, R>(kind: JoinType, cs: seq<Condition>, c: Content<R>,
                     left: seq<ProbeRow<L>>, chunk: seq<ProbeRow<L>>, emitted: seq<(nat, nat)>, alone: seq<nat>, t: nat)
    requires SidesOk(cs, left, c.rows) && t < |c.origin|
    requires ChunkDone(kind, cs, c, left + chunk, |left|, chunk, emitted, alone)
    ensures Alone(cs, left + chunk, c.rows, c.origin[t]) <==>
            Alone(cs, left, c.rows, c.origin[t]) && !TupleFound(emitted, t)
  {
    hide Decisive, KeysOk, ConditionsOk, GathersAll, Kept, KeysMatch, Decides;
    var all, j := left + chunk, c.origin[t];
    var ops := Operands(cs, Keys(chunk), c.stored);
    forall i: nat | i < |left| ensures Joins(cs, left, c.rows, i, j) <==> Joins(cs, all, c.rows, i, j) {
    }
    DecisiveShape(kind, cs, c);
    if TupleFound(emitted, t) {
      var x :| 0 <= x < |emitted| && emitted[x].1 == t;
      var i := emitted[x].0;
      assert emitted[x] == (i, t) && Matches(ops, i, t);
      MatchIsJoin(kind, cs, c, all, |left|, chunk, ops, i, t);
    }
    if !Alone(cs, all, c.rows, j) && Alone(cs, left, c.rows, j) {
      var i: nat :| Joins(cs, all, c.rows, i, j);
      MatchIsJoin(kind, cs, c, all, |left|, chunk, ops, i - |left|, t);
      assert (i - |left|, t) in emitted;
      var x :| 0 <= x < |emitted| && emitted[x] == (i - |left|, t);
      assert emitted[x].1 == t;
    }
  }

  lemma FlagsTellMore<L, R>(kind: JoinType, cs: seq<Condition>, c: Content<R>,
                            left: seq<ProbeRow<L>>, chunk: seq<ProbeRow<L>>, emitted: seq<(nat, nat)>, alone: seq<nat>,
                            found: seq<bool>, found': seq<bool>)
    requires SidesOk(cs, left, c.rows) && FlagsTell(cs, left, c, found) && MarksTuples(found', found, emitted)
    requires ChunkDone(kind, cs, c, left + chunk, |left|, chunk, emitted, alone)
    ensures FlagsTell(cs, left + chunk, c, found')
  {
    hide Alone, TupleFound, Decisive;
    forall t | 0 <= t < |found'| ensures found'[t] <==> !Alone(cs, left + chunk, c.rows, c.origin[t]) {
      FlagAt(kind, cs, c, left, chunk, emitted, alone, t);
    }
  }

  /** The result rows are those of the nested-loop join. */
  ghost predicate IsJoin<L, R>(kind: JoinType, cs: seq<Condition>, left: seq<ProbeRow<L>>, rows: seq<BuildRow<R>>,
                               out: seq<Joined<L, R>>) {
    SidesOk(cs, left, rows) && multiset(out) == multiset(RenderAll(left, rows, NestedLoop(kind, cs, left, rows)))
  }

  /** The nested-loop join, join type by join type. */
  lemma JoinHasRows<L, R>(kind: JoinType, cs: seq<Condition>, left: seq<ProbeRow<L>>, rows: seq<BuildRow<R>>,
                          out: seq<Joined<L, R>>)
    requires IsJoin(kind, cs, left, rows, out) && Returns(kind)
    ensures SidesOk(cs, left, rows) && HasRowsOf(kind, cs, left, rows, out)
  {
    hide NestedLoop;
    NestedLoopRows(kind, cs, left, rows);
  }

  lemma {:induction false} EmptyLoop<L, R>(kind: JoinType, cs: seq<Condition>, left: seq<ProbeRow<L>>, n: nat)
    requires SidesOk<L, R>(cs, left, []) && n <= |left|
    ensures OuterLoop<L, R>(kind, cs, left, [], n) == if kind.IsLeftOuter() then seq(n, (i: nat) => LeftOnly(i)) else []
  {
    if n > 0 {
      EmptyLoop<L, R>(kind, cs, left, n - 1);
    }
  }

  lemma EmptyIsComplete(kind: JoinType, ops: Operands, alone: seq<nat>)
    requires OperandsOk(ops) && ops.stored == [] && alone == if kind.IsLeftOuter() then seq(|ops.keys|, i => i) else []
    ensures Complete(kind, ops, [], alone)
  {
    if kind.IsLeftOuter() {
      forall i: nat | i < |ops.keys| ensures i in alone {
        assert alone[i] == i;
      }
    }
  }

  lemma EmptyIsJoin<L, R>(kind: JoinType, cs: seq<Condition>, chunk: seq<ProbeRow<L>>, alone: seq<nat>)
    requires SidesOk<L, R>(cs, chunk, []) && alone == if kind.IsLeftOuter() then seq(|chunk|, i => i) else []
    ensures IsJoin<L, R>(kind, cs, chunk, [], LeftRows(LeftOf(chunk), alone))
  {
    hide RenderAll, OuterLoop, Joins, Alone;
    EmptyLoop<L, R>(kind, cs, chunk, |chunk|);
    var ps := OuterLoop<L, R>(kind, cs, chunk, [], |chunk|);
    assert NestedLoop<L, R>(kind, cs, chunk, []) == ps;
    hide NestedLoop;
    assert LeftRows<L, R>(LeftOf(chunk), alone) == RenderAll<L, R>(chunk, [], NestedLoop<L, R>(kind, cs, chunk, []));
  }

  /** The join of a chunk with an empty table is the join with no rows at all, and a complete scan of no tuples. */
  method ConstructEmptyJoinResult<L, R(!new)>(kind: JoinType, chunk: seq<ProbeRow<L>>, ghost cs: seq<Condition>)
    returns (out: seq<Joined<L, R>>, ghost alone: seq<nat>)
    requires Returns(kind) && KeysOk(cs, Keys(chunk))
    ensures IsJoin<L, R>(kind, cs, chunk, [], out)
    ensures Complete(kind, Operands(cs, Keys(chunk), []), [], alone)
    ensures (forall x | 0 <= x < |alone| :: alone[x] < |chunk|) && out == LeftRows(LeftOf(chunk), alone)
  {
    hide IsJoin, Complete;
    var left := LeftOf(chunk);
    var rows := if kind.IsLeftOuter() then seq(|left|, i => i) else [];
    out, alone := LeftRows(left, rows), rows;
    ChunkKeys(cs, chunk);
    EmptyIsJoin<L, R>(kind, cs, chunk, alone);
    EmptyIsComplete(kind, Operands(cs, Keys(chunk), []), alone);
  }

  lemma ChunkKeys<L>(cs: seq<Condition>, chunk: seq<ProbeRow<L>>)
    requires KeysOk(cs, Keys(chunk))
    ensures forall i | 0 <= i < |chunk| :: |chunk[i].key| == |cs|
  {
    forall i | 0 <= i < |chunk| ensures |chunk[i].key| == |cs| {
      assert Keys(chunk)[i] == chunk[i].key;
    }
  }

  /** The tuples of a table, with the rows as the join compares them. */
  ghost function ComparedTuples<R(!new)>(ht: JoinHashTable<R>): Content<R>
    requires forall j | 0 <= j < |ht.rows| :: |ht.rows[j].key| == |ht.conditions|
    reads ht
  {
    ht.Tuples().(rows := Compared(ht.joinType, ht.conditions, ht.rows))
  }

  /** The rows returned so far are the result so far. */
  ghost predicate InProgress<L, R(!new)>(ht: JoinHashTable<R>, left: seq<ProbeRow<L>>, out: seq<Joined<L, R>>,
                                         ps: seq<Pair>)
    reads ht
  {
    && ht.Ready() && Returns(ht.joinType) && (forall j | 0 <= j < |ht.rows| :: |ht.rows[j].key| == |ht.conditions|)
    && Decisive(ht.joinType, ht.conditions, ComparedTuples(ht))
    && Enumerated(ht.joinType, ht.conditions, left, ComparedTuples(ht).rows, out, ps)
    && (ht.joinType.IsRightOuter() ==> FlagsTell(ht.conditions, left, ComparedTuples(ht), ht.found))
  }

  /** Joins one chunk, through the table or around an empty one. */
  method JoinChunk<L, R(!new)>(ht: JoinHashTable<R>, chunk: seq<ProbeRow<L>>)
    returns (out: seq<Joined<L, R>>, ghost emitted: seq<(nat, nat)>, ghost alone: seq<nat>)
    requires ht.Ready() && Returns(ht.joinType) && KeysOk(ht.conditions, Keys(chunk))
    modifies ht`found
    ensures ht.Ready() && PairsIn(emitted, |chunk|, |ht.payloads|) && forall x | 0 <= x < |alone| :: alone[x] < |chunk|
    ensures out == Produced(LeftOf(chunk), ht.payloads, emitted, alone)
    ensures Complete(ht.joinType, Operands(ht.conditions, Keys(chunk), ht.stored), emitted, alone)
    ensures ht.joinType.IsRightOuter() ==> MarksTuples(ht.found, old(ht.found), emitted)
  {
    hide Complete, MarksTuples, Built;
    assert |ht.stored| == |ht.slots| && OperandsOk(Operands(ht.conditions, Keys(chunk), ht.stored)) by {
      ReadyLengths(ht.conditions, ht.equalities, ht.hashOf, ht.joinType, ht.Tuples(), ht.slots, ht.found, ht.blocks,
                   ht.hasNull, ht.heads, ht.bitmask, ht.buckets, Keys(chunk));
    }
    if |ht.slots| == 0 {
      emitted := [];
      out, alone := ConstructEmptyJoinResult(ht.joinType, chunk, ht.conditions);
      assert MatchRows(LeftOf(chunk), ht.payloads, emitted) + out == out;
      NothingMarked(ht.found);
    } else {
      out, emitted, alone := ProbeChunk(ht, Keys(chunk), LeftOf(chunk));
    }
  }

  lemma ReadyLengths<R>(cs: seq<Condition>, eq: nat, hashOf: Key -> nat, kind: JoinType, c: Content<R>,
                        slots: seq<Slot>, found: seq<bool>, blocks: seq<nat>, hasNull: bool, heads: seq<Option<nat>>,
                        bitmask: nat, buckets: seq<nat>, keys: seq<Key>)
    requires Built(cs, eq, hashOf, kind, c, slots, found, blocks, hasNull, heads, bitmask, buckets) && KeysOk(cs, keys)
    ensures |c.stored| == |slots| == |c.payloads| && OperandsOk(Operands(cs, keys, c.stored))
  {
    StoredLengths(cs, eq, hashOf, kind.IsRightOuter(), c, keys);
  }

  lemma NothingMarked(found: seq<bool>)
    ensures MarksTuples(found, found, [])
  {
  }

  /** The result grows by exactly the rows of the chunk. */
  method AddChunk<L, R(!new)>(ht: JoinHashTable<R>, chunk: seq<ProbeRow<L>>, out: seq<Joined<L, R>>,
                              ghost left: seq<ProbeRow<L>>, ghost ps: seq<Pair>)
    returns (out': seq<Joined<L, R>>, ghost ps': seq<Pair>)
    requires InProgress(ht, left, out, ps) && KeysOk(ht.conditions, Keys(chunk))
    modifies ht`found
    ensures InProgress(ht, left + chunk, out', ps')
  {
    hide Complete, MarksTuples, Built, Enumerated, Decisive, FlagsTell, Produced, Compared;
    ghost var flags, c := ht.found, ComparedTuples(ht);
    var rows;
    ghost var emitted, alone;
    rows, emitted, alone := JoinChunk(ht, chunk);
    out' := out + rows;
    ps' := ChunkAdds(ht.joinType, ht.conditions, c, left, chunk, out, ps, emitted, alone, rows, flags, ht.found);
  }

  lemma BuiltHolds<R>(cs: seq<Condition>, eq: nat, hashOf: Key -> nat, kind: JoinType, c: Content<R>, slots: seq<Slot>,
                      found: seq<bool>, blocks: seq<nat>, hasNull: bool, heads: seq<Option<nat>>, bitmask: nat,
                      buckets: seq<nat>)
    requires Built(cs, eq, hashOf, kind, c, slots, found, blocks, hasNull, heads, bitmask, buckets)
    ensures ConditionsOk(cs, eq) && HoldsRows(cs, eq, hashOf, kind.IsRightOuter(), c)
    ensures |slots| == |found| == Total(blocks)
    ensures |slots| == |c.hashes| && (hasNull <==> Drops(|c.rows|, c.origin))
  {
  }

  lemma SidesGrow<L, R>(cs: seq<Condition>, left: seq<ProbeRow<L>>, chunk: seq<ProbeRow<L>>, rows: seq<BuildRow<R>>)
    requires SidesOk(cs, left, rows) && KeysOk(cs, Keys(chunk))
    ensures SidesOk(cs, left + chunk, rows) && EndsWith(left + chunk, |left|, chunk)
  {
    forall i | 0 <= i < |chunk| ensures |chunk[i].key| == |cs| {
      assert Keys(chunk)[i] == chunk[i].key;
    }
  }

  lemma ChunkAdds<L, R>(kind: JoinType, cs: seq<Condition>, c: Content<R>,
                        left: seq<ProbeRow<L>>, chunk: seq<ProbeRow<L>>, out: seq<Joined<L, R>>, ps: seq<Pair>,
                        emitted: seq<(nat, nat)>, alone: seq<nat>, rows: seq<Joined<L, R>>, found: seq<bool>,
                        found': seq<bool>) returns (ps': seq<Pair>)
    requires Decisive(kind, cs, c)
    requires Enumerated(kind, cs, left, c.rows, out, ps) && KeysOk(cs, Keys(chunk))
    requires PairsIn(emitted, |chunk|, |c.payloads|) && forall x | 0 <= x < |alone| :: alone[x] < |chunk|
    requires rows == Produced(LeftOf(chunk), c.payloads, emitted, alone)
    requires Complete(kind, Operands(cs, Keys(chunk), c.stored), emitted, alone)
    requires kind.IsRightOuter() ==> FlagsTell(cs, left, c, found) && MarksTuples(found', found, emitted)
    ensures Enumerated(kind, cs, left + chunk, c.rows, out + rows, ps')
    ensures kind.IsRightOuter() ==> FlagsTell(cs, left + chunk, c, found')
  {
    hide Decisive, ConditionsOk, KeysOk, Decides, Complete, FlagsTell, MarksTuples, Produced, InJoin;
    DecisiveShape(kind, cs, c);
    SidesGrow(cs, left, chunk, c.rows);
    ChunkEnumerates(kind, cs, c, left + chunk, |left|, chunk, emitted, alone);
    ChunkRendered(c, left + chunk, |left|, chunk, emitted, alone);
    var more := ChunkMatches(emitted, c.origin, |left|) + ChunkAlone(alone, |left|);
    EnumeratedMore(kind, cs, left, chunk, c.rows, out, ps, more);
    ps' := ps + more;
    if kind.IsRightOuter() {
      FlagsTellMore(kind, cs, c, left, chunk, emitted, alone, found, found');
    }
  }

  lemma {:induction false} UnmatchedTuples(found: seq<bool>, n: nat)
    requires n <= |found|
    ensures var tuples := Unmatched(found, 0, n);
      NoDuplicates(tuples) && forall t :: t in tuples <==> 0 <= t < n && !found[t]
  {
    if n > 0 {
      UnmatchedTuples(found, n - 1);
    }
  }

  /** Scans the table for build rows without a match until there are no more. */
  method ScanRemaining<L, R(!new)>(ht: JoinHashTable<R>) returns (out: seq<Joined<L, R>>)
    requires Total(ht.blocks) == |ht.found| == |ht.payloads|
    ensures out == RightRows(ht.payloads, Unmatched(ht.found, 0, |ht.found|))
  {
    hide RightRows, Total;
    out := [];
    var state := ScanPosition(0, 0);
    StartOfScan(ht.blocks);
    assert out == RightRows(ht.payloads, Unmatched(ht.found, 0, 0)) by {
      RightRowsEmpty<L, R>(ht.payloads);
    }
    var more := true;
    while more
      invariant PositionOk(ht.blocks, state) && Flat(ht.blocks, state) <= |ht.found|
      invariant out == RightRows(ht.payloads, Unmatched(ht.found, 0, Flat(ht.blocks, state)))
      invariant !more ==> Flat(ht.blocks, state) == |ht.found|
      decreases more, |ht.found| - Flat(ht.blocks, state)
    {
      ghost var from := Flat(ht.blocks, state);
      var result: seq<Joined<L, R>>;
      result, state := ht.ScanFullOuter(state);
      ghost var end := Flat(ht.blocks, state);
      UnmatchedSplit(ht.found, 0, from, end);
      RightRowsAppend<L, R>(ht.payloads, Unmatched(ht.found, 0, from), Unmatched(ht.found, from, end));
      if |result| == 0 {
        more := false;
      }
      out := out + result;
    }
  }

  lemma StartOfScan(blocks: seq<nat>)
    ensures PositionOk(blocks, ScanPosition(0, 0)) && Flat(blocks, ScanPosition(0, 0)) == 0
  {
  }

  lemma RightRowsEmpty<L, R>(payloads: seq<R>)
    ensures RightRows<L, R>(payloads, []) == []
  {
  }

  lemma RightRowsAppend<L, R>(payloads: seq<R>, a: seq<nat>, b: seq<nat>)
    ensures RightRows<L, R>(payloads, a + b) == RightRows<L, R>(payloads, a) + RightRows<L, R>(payloads, b)
  {
  }

  ghost function LeftoverTuples(tuples: seq<nat>, origin: seq<nat>): (ps: seq<Pair>)
    requires forall x | 0 <= x < |tuples| :: tuples[x] < |origin|
    ensures |ps| == |tuples| && forall x | 0 <= x < |ps| :: ps[x] == RightOnly(origin[tuples[x]])
  {
    seq(|tuples|, x requires 0 <= x < |tuples| => RightOnly(origin[tuples[x]]))
  }

  /** The tuples without a match are the build rows that no left row joins. */
  lemma LeftoverMember<L, R>(kind: JoinType, cs: seq<Condition>, c: Content<R>, left: seq<ProbeRow<L>>,
                             found: seq<bool>, tuples: seq<nat>, p: Pair)
    requires kind.IsRightOuter() && Decisive(kind, cs, c) && SidesOk(cs, left, c.rows) && FlagsTell(cs, left, c, found)
    requires forall t :: t in tuples <==> 0 <= t < |found| && !found[t]
    requires forall x | 0 <= x < |tuples| :: tuples[x] < |c.origin|
    ensures p in LeftoverTuples(tuples, c.origin) <==> p.RightOnly? && InJoin(Right, cs, left, c.rows, p)
  {
    hide Joins, Alone, LeftAlone, Kept;
    var ps := LeftoverTuples(tuples, c.origin);
    if p in ps {
      var x :| 0 <= x < |ps| && ps[x] == p;
      assert tuples[x] in tuples && c.origin[tuples[x]] < |c.rows|;
    }
    if p.RightOnly? && InJoin(Right, cs, left, c.rows, p) {
      assert p.right in c.origin;
      var t :| 0 <= t < |c.origin| && c.origin[t] == p.right;
      assert t in tuples;
      var x :| 0 <= x < |tuples| && tuples[x] == t;
      assert ps[x] == p;
    }
  }

  lemma LeftoversDistinct(tuples: seq<nat>, origin: seq<nat>)
    requires NoDuplicates(tuples) && Increasing(origin) && forall x | 0 <= x < |tuples| :: tuples[x] < |origin|
    ensures NoDuplicates(LeftoverTuples(tuples, origin))
  {
    var ps := LeftoverTuples(tuples, origin);
    forall x, y | 0 <= x < y < |ps| ensures ps[x] != ps[y] {
      assert tuples[x] != tuples[y];
    }
  }

  lemma LeftoversRendered<L, R>(c: Content<R>, left: seq<ProbeRow<L>>, tuples: seq<nat>)
    requires |c.payloads| == |c.origin| && forall x | 0 <= x < |tuples| :: tuples[x] < |c.origin|
    requires forall t | 0 <= t < |c.origin| :: c.origin[t] < |c.rows| && c.payloads[t] == c.rows[c.origin[t]].payload
    ensures RightRows<L, R>(c.payloads, tuples) == RenderAll(left, c.rows, LeftoverTuples(tuples, c.origin))
  {
  }

  /** Without unmatched build rows to return, the rows of all chunks are the result. */
  lemma ProbesAreJoin<L, R>(kind: JoinType, cs: seq<Condition>, left: seq<ProbeRow<L>>, rows: seq<BuildRow<R>>,
                            out: seq<Joined<L, R>>, ps: seq<Pair>)
    requires !kind.IsRightOuter() && Enumerated(kind, cs, left, rows, out, ps)
    ensures IsJoin(kind, cs, left, rows, out)
  {
    hide NestedLoop, RenderAll;
    EnumerationIsJoin(kind, cs, left, rows, ps);
  }

  /** With them, the unmatched tuples complete it. */
  lemma LeftoversCompleteJoin<L, R>(kind: JoinType, cs: seq<Condition>, c: Content<R>,
                                    left: seq<ProbeRow<L>>, out: seq<Joined<L, R>>, ps: seq<Pair>, found: seq<bool>)
    requires kind.IsRightOuter() && Decisive(kind, cs, c) && Enumerated(kind, cs, left, c.rows, out, ps)
    requires FlagsTell(cs, left, c, found)
    ensures IsJoin(kind, cs, left, c.rows, out + RightRows(c.payloads, Unmatched(found, 0, |found|)))
  {
    hide NestedLoop, RenderAll, Decisive, FlagsTell, Unmatched, RightRows, InJoin, IsJoin;
    var rest := LeftoversEnumerate(kind, cs, c, left, found);
    RenderAppend(left, c.rows, ps, rest);
    CompleteWithLeftovers(kind, cs, left, c.rows, ps, rest);
    assert IsJoin(kind, cs, left, c.rows, RenderAll(left, c.rows, ps + rest));
  }

  lemma LeftoversEnumerate<L, R>(kind: JoinType, cs: seq<Condition>, c: Content<R>, left: seq<ProbeRow<L>>,
                                 found: seq<bool>) returns (rest: seq<Pair>)
    requires kind.IsRightOuter() && Decisive(kind, cs, c) && SidesOk(cs, left, c.rows) && FlagsTell(cs, left, c, found)
    ensures NoDuplicates(rest) && forall p :: p in rest <==> p.RightOnly? && InJoin(Right, cs, left, c.rows, p)
    ensures RightRows(c.payloads, Unmatched(found, 0, |found|)) == RenderAll(left, c.rows, rest)
  {
    hide RenderAll, Decisive, FlagsTell, Unmatched, RightRows, InJoin;
    DecisiveShape(kind, cs, c);
    FlagsLength(cs, left, c, found);
    UnmatchedTuples(found, |found|);
    var tuples := Unmatched(found, 0, |found|);
    assert forall x | 0 <= x < |tuples| :: tuples[x] in tuples;
    rest := LeftoverTuples(tuples, c.origin);
    LeftoversDistinct(tuples, c.origin);
    LeftoversRendered(c, left, tuples);
    forall p ensures p in rest <==> p.RightOnly? && InJoin(Right, cs, left, c.rows, p) {
      LeftoverMember(kind, cs, c, left, found, tuples, p);
    }
  }

  lemma CompleteWithLeftovers<L, R>(kind: JoinType, cs: seq<Condition>, left: seq<ProbeRow<L>>, rows: seq<BuildRow<R>>,
                                    ps: seq<Pair>, rest: seq<Pair>)
    requires kind.IsRightOuter() && SidesOk(cs, left, rows) && NoDuplicates(ps) && NoDuplicates(rest)
    requires forall p :: p in ps <==> InOuterLoop(kind, cs, left, rows, |left|, p)
    requires forall p :: p in rest <==> p.RightOnly? && InJoin(Right, cs, left, rows, p)
    ensures IsJoin(kind, cs, left, rows, RenderAll(left, rows, ps + rest))
  {
    hide NestedLoop, RenderAll, Joins, Alone, LeftAlone;
    AppendDisjoint(ps, rest);
    forall p ensures p in ps + rest <==> InJoin(kind, cs, left, rows, p) {
      JoinInRange(kind, cs, left, rows, p);
    }
    EnumerationIsJoin(kind, cs, left, rows, ps + rest);
  }

  lemma FlagsLength<L, R>(cs: seq<Condition>, left: seq<ProbeRow<L>>, c: Content<R>, found: seq<bool>)
    requires SidesOk(cs, left, c.rows) && FlagsTell(cs, left, c, found)
    ensures |found| == |c.origin|
  {
  }

  /** All left rows, chunk after chunk. */
  ghost function AllRows<L>(chunks: seq<seq<ProbeRow<L>>>): seq<ProbeRow<L>> {
    if chunks == [] then [] else AllRows(chunks[..|chunks| - 1]) + chunks[|chunks| - 1]
  }

  lemma NothingJoined<L, R>(kind: JoinType, cs: seq<Condition>, rows: seq<BuildRow<R>>)
    requires forall j | 0 <= j < |rows| :: |rows[j].key| == |cs|
    ensures Enumerated<L, R>(kind, cs, [], rows, [], [])
  {
  }

  lemma NothingFound<L, R>(cs: seq<Condition>, c: Content<R>, found: seq<bool>)
    requires forall j | 0 <= j < |c.rows| :: |c.rows[j].key| == |cs|
    requires |found| == |c.origin| && forall t | 0 <= t < |found| :: !found[t]
    ensures SidesOk<L, R>(cs, [], c.rows) && FlagsTell<L, R>(cs, [], c, found)
  {
  }

  /** Probes with all chunks in turn. */
  method ProbeChunks<L, R(!new)>(ht: JoinHashTable<R>, chunks: seq<seq<ProbeRow<L>>>)
    returns (out: seq<Joined<L, R>>, ghost ps: seq<Pair>)
    requires InProgress<L, R>(ht, [], [], [])
    requires forall x | 0 <= x < |chunks| :: KeysOk(ht.conditions, Keys(chunks[x]))
    modifies ht`found
    ensures InProgress(ht, AllRows(chunks), out, ps)
  {
    hide InProgress;
    out, ps := [], [];
    for x := 0 to |chunks|
      invariant InProgress(ht, AllRows(chunks[..x]), out, ps)
    {
      out, ps := AddChunk(ht, chunks[x], out, AllRows(chunks[..x]), ps);
      assert chunks[..x + 1][..x] == chunks[..x];
    }
    assert chunks[..|chunks|] == chunks;
  }

  /** Rows that match the same rows and have the same payload give the same join. */
  lemma SameJoin<L, R>(kind: JoinType, cs: seq<Condition>, left: seq<ProbeRow<L>>, rows: seq<BuildRow<R>>,
                       rows': seq<BuildRow<R>>, out: seq<Joined<L, R>>)
    requires SidesOk(cs, left, rows) && SidesOk(cs, left, rows') && |rows| == |rows'|
    requires forall j | 0 <= j < |rows| :: rows'[j].payload == rows[j].payload
    requires forall i: nat, j: nat :: Joins(cs, left, rows, i, j) <==> Joins(cs, left, rows', i, j)
    ensures IsJoin(kind, cs, left, rows, out) <==> IsJoin(kind, cs, left, rows', out)
  {
    var ps := NestedLoop(kind, cs, left, rows');
    NestedLoopPairs(kind, cs, left, rows');
    hide NestedLoop, Joins;
    forall i: nat ensures LeftAlone(cs, left, rows, i) <==> LeftAlone(cs, left, rows', i) {
    }
    forall j: nat ensures Alone(cs, left, rows, j) <==> Alone(cs, left, rows', j) {
    }
    forall p ensures InJoin(kind, cs, left, rows, p) <==> InJoin(kind, cs, left, rows', p) {
    }
    EnumerationIsJoin(kind, cs, left, rows, ps);
    assert RenderAll(left, rows, ps) == RenderAll(left, rows', ps);
  }

  /** Where every condition rejects the sentinel, comparing it makes no difference. */
  lemma ComparedIsJoin<L, R>(kind: JoinType, cs: seq<Condition>, eq: nat, left: seq<ProbeRow<L>>,
                             rows: seq<BuildRow<R>>, out: seq<Joined<L, R>>)
    requires ConditionsOk(cs, eq) && Decides(kind, cs) && KeysInRange(cs, rows) && KeysOk(cs, Keys(left))
    ensures IsJoin(kind, cs, left, Compared(kind, cs, rows), out) <==> IsJoin(kind, cs, left, rows, out)
  {
    if kind.IsRightOuter() {
      ChunkKeys(cs, left);
      var rows' := SentinelRows(cs, rows);
      forall i: nat, j: nat ensures Joins(cs, left, rows, i, j) <==> Joins(cs, left, rows', i, j) {
        if i < |left| && j < |rows| {
          assert Keys(left)[i] == left[i].key;
          SentinelMatches(cs, eq, left[i].key, rows[j].key);
        }
      }
      SameJoin(kind, cs, left, rows, rows', out);
    }
  }

  lemma {:induction false} AllKeysOk<L>(cs: seq<Condition>, chunks: seq<seq<ProbeRow<L>>>)
    requires forall x | 0 <= x < |chunks| :: KeysOk(cs, Keys(chunks[x]))
    ensures KeysOk(cs, Keys(AllRows(chunks)))
  {
    if chunks != [] {
      var front, last := chunks[..|chunks| - 1], chunks[|chunks| - 1];
      AllKeysOk(cs, front);
      assert KeysOk(cs, Keys(last));
      var keys := Keys(AllRows(chunks));
      assert keys == Keys(AllRows(front)) + Keys(last);
    }
  }

  /**
   * The hash join of all rows given to Build with all probe chunks is the nested-loop join with the build rows as they
   * are compared: in a right or full outer join NULL is the sentinel. Where every condition rejects the sentinel, that
   * is the nested-loop join with the build rows as they are.
   */
  method Join<L, R(!new)>(ht: JoinHashTable<R>, chunks: seq<seq<ProbeRow<L>>>) returns (out: seq<Joined<L, R>>)
    requires ht.Ready() && (forall t | 0 <= t < |ht.found| :: !ht.found[t]) && Returns(ht.joinType)
    requires forall x | 0 <= x < |chunks| :: KeysOk(ht.conditions, Keys(chunks[x]))
    modifies ht`found
    ensures forall j | 0 <= j < |ht.rows| :: |ht.rows[j].key| == |ht.conditions|
    ensures IsJoin(ht.joinType, ht.conditions, AllRows(chunks), Compared(ht.joinType, ht.conditions, ht.rows), out)
    ensures HasRowsOf(ht.joinType, ht.conditions, AllRows(chunks), Compared(ht.joinType, ht.conditions, ht.rows), out)
    ensures Decides(ht.joinType, ht.conditions) ==> IsJoin(ht.joinType, ht.conditions, AllRows(chunks), ht.rows, out)
    ensures Decides(ht.joinType, ht.conditions) ==>
            HasRowsOf(ht.joinType, ht.conditions, AllRows(chunks), ht.rows, out)
  {
    hide Built, HoldsRows, FlagsTell, Enumerated, IsJoin, Total, RightRows, Decides, Unmatched, ConditionsOk, Decisive,
         Compared, InRange, HasRowsOf;
    BuiltHolds(ht.conditions, ht.equalities, ht.hashOf, ht.joinType, ht.Tuples(), ht.slots, ht.found, ht.blocks,
               ht.hasNull, ht.heads, ht.bitmask, ht.buckets);
    HoldsShape(ht.conditions, ht.equalities, ht.hashOf, ht.joinType.IsRightOuter(), ht.Tuples());
    DecisiveCompared(ht.joinType, ht.conditions, ht.equalities, ht.hashOf, ht.Tuples());
    DecisiveShape(ht.joinType, ht.conditions, ComparedTuples(ht));
    NothingJoined<L, R>(ht.joinType, ht.conditions, ComparedTuples(ht).rows);
    NothingFound<L, R>(ht.conditions, ComparedTuples(ht), ht.found);
    ghost var ps;
    out, ps := ProbeChunks(ht, chunks);
    if ht.joinType.IsRightOuter() {
      BuiltHolds(ht.conditions, ht.equalities, ht.hashOf, ht.joinType, ht.Tuples(), ht.slots, ht.found, ht.blocks,
                 ht.hasNull, ht.heads, ht.bitmask, ht.buckets);
      LeftoversCompleteJoin(ht.joinType, ht.conditions, ComparedTuples(ht), AllRows(chunks), out, ps, ht.found);
      var rest := ScanRemaining<L, R>(ht);
      out := out + rest;
    } else {
      ProbesAreJoin(ht.joinType, ht.conditions, AllRows(chunks), ComparedTuples(ht).rows, out, ps);
    }
    JoinHasRows(ht.joinType, ht.conditions, AllRows(chunks), ComparedTuples(ht).rows, out);
    if Decides(ht.joinType, ht.conditions) {
      AllKeysOk(ht.conditions, chunks);
      ComparedIsJoin(ht.joinType, ht.conditions, ht.equalities, AllRows(chunks), ht.rows, out);
      JoinHasRows(ht.joinType, ht.conditions, AllRows(chunks), ht.rows, out);
    }
  }

  /** The join of two rows that do not match has no row with both sides, and that of two rows that do has one. */
  lemma PairInJoin<L, R>(kind: JoinType, cs: seq<Condition>, left: ProbeRow<L>, right: BuildRow<R>,
                         out: seq<Joined<L, R>>)
    requires |left.key| == |cs| == |right.key| && IsJoin(kind, cs, [left], [right], out)
    ensures Joined(Some(left.row), Some(right.payload)) in out <==> KeysMatch(cs, left.key, right.key)
  {
    var pair, ps := Joined(Some(left.row), Some(right.payload)), NestedLoop(kind, cs, [left], [right]);
    NestedLoopPairs(kind, cs, [left], [right]);
    var rendered := RenderAll([left], [right], ps);
    assert pair in out <==> pair in multiset(out);
    assert pair in rendered <==> pair in multiset(rendered);
    hide NestedLoop, IsJoin;
    if KeysMatch(cs, left.key, right.key) {
      assert Joins(cs, [left], [right], 0, 0);
      assert Match(0, 0) in ps;
      var x :| 0 <= x < |ps| && ps[x] == Match(0, 0);
      assert rendered[x] == pair;
    } else {
      forall x | 0 <= x < |rendered| ensures rendered[x] != pair {
        assert ps[x] in ps;
      }
    }
  }

  lemma {:induction false} IncreasingIndex(s: seq<nat>, t: nat)
    requires Increasing(s) && t < |s|
    ensures t <= s[t]
  {
    if t > 0 {
      IncreasingIndex(s, t - 1);
    }
  }

  /** The table of one row of a right or full outer join holds that row. */
  lemma OneTuple<R>(cs: seq<Condition>, eq: nat, hashOf: Key -> nat, c: Content<R>, right: BuildRow<R>)
    requires HoldsRows(cs, eq, hashOf, true, c) && c.rows == [right]
    ensures |c.stored| == |c.payloads| == |c.hashes| == 1 && c.stored[0] == StoredKey(right.key)
    ensures c.payloads[0] == right.payload
  {
    assert 0 in c.origin;
    var last := |c.origin| - 1;
    assert TupleAt(cs, eq, hashOf, c, last);
    IncreasingIndex(c.origin, last);
  }

  lemma FillingHolds<R>(cs: seq<Condition>, eq: nat, hashOf: Key -> nat, kind: JoinType, c: Content<R>,
                        slots: seq<Slot>, found: seq<bool>, blocks: seq<nat>, capacity: nat, hasNull: bool)
    requires Filling(cs, eq, hashOf, kind, c, slots, found, blocks, capacity, hasNull)
    ensures HoldsRows(cs, eq, hashOf, kind.IsRightOuter(), c) && |slots| == |c.hashes|
    ensures forall t | 0 <= t < |found| :: !found[t]
  {
  }

  method OneRowTable<R(!new)>(kind: JoinType, cs: seq<Condition>, eq: nat, hashOf: Key -> nat, right: BuildRow<R>)
    returns (ht: JoinHashTable<R>)
    requires ConditionsOk(cs, eq) && kind.IsRightOuter() && InRange(right.key, |cs|)
    ensures fresh(ht) && ht.Ready() && ht.conditions == cs && ht.joinType == kind && ht.rows == [right]
    ensures |ht.stored| == |ht.payloads| == 1 && ht.stored[0] == StoredKey(right.key) && ht.payloads[0] == right.payload
    ensures forall t | 0 <= t < |ht.found| :: !ht.found[t]
  {
    hide Filling, Built, HoldsRows, ConditionsOk, StoredKey;
    ht := new JoinHashTable(cs, eq, hashOf, kind, 1);
    ht.Build([right.key], [right.payload]);
    assert ht.rows == [right];
    FillingHolds(cs, eq, hashOf, kind, ht.Tuples(), ht.slots, ht.found, ht.blocks, ht.blockCapacity, ht.hasNull);
    OneTuple(cs, eq, hashOf, ht.Tuples(), right);
    ht.Finalize();
  }

  /** A right or full outer join with a condition that holds of the sentinel: one row on each side, wrongly joined. */
  method JoinsNull<L, R(!new)>(kind: JoinType, cs: seq<Condition>, eq: nat, hashOf: Key -> nat, x: nat, l: L, r: R)
    returns (left: ProbeRow<L>, right: BuildRow<R>, out: seq<Joined<L, R>>)
    requires ConditionsOk(cs, eq) && kind.IsRightOuter() && x < |cs| && !RejectsNull(cs[x])
    ensures InRange(left.key, |cs|) && InRange(right.key, |cs|) && !IsJoin(kind, cs, [left], [right], out)
  {
    hide IsJoin, Built, ProbeKey, NullKey, Kept, GathersAll, StoredKey, KeysMatch, Decides;
    NullBuildKeyMatches(cs, eq, x);
    left, right := ProbeRow(ProbeKey(cs), l), BuildRow(NullKey(cs, x), r);
    SentinelMatches(cs, eq, left.key, right.key);
    hide ConditionsOk;
    var ht := OneRowTable(kind, cs, eq, hashOf, right);
    out := Join(ht, [[left]]);
    OneRow(left);
    ghost var stored := BuildRow(SentinelKey(cs, right.key), r);
    assert Compared(kind, cs, [right]) == [stored];
    PairInJoin(kind, cs, left, stored, out);
    if IsJoin(kind, cs, [left], [right], out) {
      PairInJoin(kind, cs, left, right, out);
    }
  }

  lemma OneRow<L>(left: ProbeRow<L>)
    ensures AllRows([[left]]) == [left]
  {
    assert AllRows<L>([]) == [];
    assert [[left]][..0] == [];
  }
}
