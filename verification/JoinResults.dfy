/**
 * The result of a join as a multiset of rows: the nested-loop reference, and how an enumeration of joined pairs without
 * repetition amounts to it.
 */
module JoinResults {
  import opened Common
  import opened JoinBuild
  import opened JoinScan
  import opened JoinSemantics

  datatype ProbeRow<+L> = ProbeRow(key: Key, row: L)

  /** A result row; a side is NULL where an outer join found no partner. */
  datatype Joined<+L, +R> = Joined(left: Option<L>, right: Option<R>)

  /** A result row by the positions of the rows it comes from. */
  datatype Pair = Match(left: nat, right: nat) | LeftOnly(left: nat) | RightOnly(right: nat)

  ghost predicate SidesOk<L, R>(cs: seq<Condition>, left: seq<ProbeRow<L>>, rows: seq<BuildRow<R>>) {
    && (forall i | 0 <= i < |left| :: |left[i].key| == |cs|)
    && (forall j | 0 <= j < |rows| :: |rows[j].key| == |cs|)
  }

  ghost predicate Joins<L, R>(cs: seq<Condition>, left: seq<ProbeRow<L>>, rows: seq<BuildRow<R>>, i: nat, j: nat)
    requires SidesOk(cs, left, rows)
  {
    i < |left| && j < |rows| && KeysMatch(cs, left[i].key, rows[j].key)
  }

  /** Left row `i` joins no build row. */
  ghost predicate LeftAlone<L, R>(cs: seq<Condition>, left: seq<ProbeRow<L>>, rows: seq<BuildRow<R>>, i: nat)
    requires SidesOk(cs, left, rows)
  {
    forall j: nat :: !Joins(cs, left, rows, i, j)
  }

  /** No left row joins build row `j`. */
  ghost predicate Alone<L, R>(cs: seq<Condition>, left: seq<ProbeRow<L>>, rows: seq<BuildRow<R>>, j: nat)
    requires SidesOk(cs, left, rows)
  {
    forall i: nat :: !Joins(cs, left, rows, i, j)
  }

  /** The pairs that make up the result of a join. */
  ghost predicate InJoin<L, R>(kind: JoinType, cs: seq<Condition>, left: seq<ProbeRow<L>>, rows: seq<BuildRow<R>>,
                               p: Pair)
    requires SidesOk(cs, left, rows)
  {
    match p
    case Match(i, j) => Joins(cs, left, rows, i, j)
    case LeftOnly(i) => kind.IsLeftOuter() && i < |left| && LeftAlone(cs, left, rows, i)
    case RightOnly(j) => kind.IsRightOuter() && j < |rows| && Alone(cs, left, rows, j)
  }

  ghost function AddIf(ps: seq<Pair>, p: Pair, b: bool): seq<Pair> {
    if b then ps + [p] else ps
  }

  /** The inner loop: row `i` against the first `m` build rows. */
  ghost function InnerLoop<L, R>(cs: seq<Condition>, left: seq<ProbeRow<L>>, rows: seq<BuildRow<R>>, i: nat,
                                 m: nat): seq<Pair>
    requires SidesOk(cs, left, rows)
  {
    if m == 0 then [] else AddIf(InnerLoop(cs, left, rows, i, m - 1), Match(i, m - 1), Joins(cs, left, rows, i, m - 1))
  }

  /** The outer loop, emitting a row for a left row without a match if asked to. */
  ghost function OuterLoop<L, R>(kind: JoinType, cs: seq<Condition>, left: seq<ProbeRow<L>>, rows: seq<BuildRow<R>>,
                                 n: nat): seq<Pair>
    requires SidesOk(cs, left, rows)
  {
    if n == 0 then []
    else
      var matches := InnerLoop(cs, left, rows, n - 1, |rows|);
      OuterLoop(kind, cs, left, rows, n - 1) + AddIf(matches, LeftOnly(n - 1), kind.IsLeftOuter() && matches == [])
  }

  /** The build rows below `m` that no left row joins. */
  ghost function Leftovers<L, R>(cs: seq<Condition>, left: seq<ProbeRow<L>>, rows: seq<BuildRow<R>>, m: nat): seq<Pair>
    requires SidesOk(cs, left, rows)
  {
    if m == 0 then []
    else AddIf(Leftovers(cs, left, rows, m - 1), RightOnly(m - 1), Alone(cs, left, rows, m - 1))
  }

  ghost function NestedLoop<L, R>(kind: JoinType, cs: seq<Condition>, left: seq<ProbeRow<L>>,
                                  rows: seq<BuildRow<R>>): seq<Pair>
    requires SidesOk(cs, left, rows)
  {
    OuterLoop(kind, cs, left, rows, |left|) + if kind.IsRightOuter() then Leftovers(cs, left, rows, |rows|) else []
  }

  lemma AddIfDistinct(ps: seq<Pair>, p: Pair, b: bool)
    requires NoDuplicates(ps) && p !in ps
    ensures NoDuplicates(AddIf(ps, p, b)) && forall q :: q in AddIf(ps, p, b) <==> q in ps || (b && q == p)
  {
  }

  lemma {:induction false} InnerLoopPairs<L, R>(cs: seq<Condition>, left: seq<ProbeRow<L>>, rows: seq<BuildRow<R>>,
                                                i: nat, m: nat)
    requires SidesOk(cs, left, rows)
    ensures var ps := InnerLoop(cs, left, rows, i, m);
      && NoDuplicates(ps)
      && forall p :: p in ps <==> p.Match? && p.left == i && p.right < m && Joins(cs, left, rows, i, p.right)
  {
    if m > 0 {
      InnerLoopPairs(cs, left, rows, i, m - 1);
      AddIfDistinct(InnerLoop(cs, left, rows, i, m - 1), Match(i, m - 1), Joins(cs, left, rows, i, m - 1));
    }
  }

  ghost predicate InOuterLoop<L, R>(kind: JoinType, cs: seq<Condition>, left: seq<ProbeRow<L>>, rows: seq<BuildRow<R>>,
                                    n: nat, p: Pair)
    requires SidesOk(cs, left, rows)
  {
    !p.RightOnly? && p.left < n && InJoin(kind, cs, left, rows, p)
  }

  /** What one step of the outer loop adds. */
  lemma OuterStep<L, R>(kind: JoinType, cs: seq<Condition>, left: seq<ProbeRow<L>>, rows: seq<BuildRow<R>>, i: nat)
    requires SidesOk(cs, left, rows) && i < |left|
    ensures var matches := InnerLoop(cs, left, rows, i, |rows|);
      var ps := AddIf(matches, LeftOnly(i), kind.IsLeftOuter() && matches == []);
      NoDuplicates(ps) && forall p :: p in ps <==> !p.RightOnly? && p.left == i && InJoin(kind, cs, left, rows, p)
  {
    InnerLoopPairs(cs, left, rows, i, |rows|);
    var matches := InnerLoop(cs, left, rows, i, |rows|);
    AddIfDistinct(matches, LeftOnly(i), kind.IsLeftOuter() && matches == []);
    if matches == [] {
      forall j: nat ensures !Joins(cs, left, rows, i, j) {
        assert Match(i, j) !in matches;
      }
    } else {
      assert matches[0] in matches;
      assert Joins(cs, left, rows, i, matches[0].right);
    }
  }

  lemma {:induction false} OuterLoopPairs<L, R>(kind: JoinType, cs: seq<Condition>, left: seq<ProbeRow<L>>,
                                                rows: seq<BuildRow<R>>, n: nat)
    requires SidesOk(cs, left, rows) && n <= |left|
    ensures var ps := OuterLoop(kind, cs, left, rows, n);
      NoDuplicates(ps) && forall p :: p in ps <==> InOuterLoop(kind, cs, left, rows, n, p)
  {
    hide InJoin, InnerLoop;
    if n > 0 {
      OuterLoopPairs(kind, cs, left, rows, n - 1);
      OuterStep(kind, cs, left, rows, n - 1);
      var matches := InnerLoop(cs, left, rows, n - 1, |rows|);
      var ps := AddIf(matches, LeftOnly(n - 1), kind.IsLeftOuter() && matches == []);
      AppendDisjoint(OuterLoop(kind, cs, left, rows, n - 1), ps);
    }
  }

  lemma {:induction false} LeftoverPairs<L, R>(cs: seq<Condition>, left: seq<ProbeRow<L>>, rows: seq<BuildRow<R>>,
                                               m: nat)
    requires SidesOk(cs, left, rows) && m <= |rows|
    ensures var ps := Leftovers(cs, left, rows, m);
      && NoDuplicates(ps)
      && forall p :: p in ps <==> p.RightOnly? && p.right < m && InJoin(Right, cs, left, rows, p)
  {
    if m > 0 {
      LeftoverPairs(cs, left, rows, m - 1);
      AddIfDistinct(Leftovers(cs, left, rows, m - 1), RightOnly(m - 1), Alone(cs, left, rows, m - 1));
    }
  }

  /** The nested loop emits every pair of the join once. */
  lemma NestedLoopPairs<L, R>(kind: JoinType, cs: seq<Condition>, left: seq<ProbeRow<L>>, rows: seq<BuildRow<R>>)
    requires SidesOk(cs, left, rows)
    ensures NoDuplicates(NestedLoop(kind, cs, left, rows))
    ensures forall p :: p in NestedLoop(kind, cs, left, rows) <==> InJoin(kind, cs, left, rows, p)
  {
    OuterLoopPairs(kind, cs, left, rows, |left|);
    LeftoverPairs(cs, left, rows, |rows|);
    if kind.IsRightOuter() {
      AppendDisjoint(OuterLoop(kind, cs, left, rows, |left|), Leftovers(cs, left, rows, |rows|));
    }
  }

  lemma {:induction false} Multiplicity<T>(s: seq<T>, x: T)
    requires NoDuplicates(s)
    ensures multiset(s)[x] == if x in s then 1 else 0
  {
    if s != [] {
      var rest := s[..|s| - 1];
      assert s == rest + [s[|s| - 1]];
      Multiplicity(rest, x);
    }
  }

  lemma SameElementsSameMultiset<T>(a: seq<T>, b: seq<T>)
    requires NoDuplicates(a) && NoDuplicates(b) && forall x :: x in a <==> x in b
    ensures multiset(a) == multiset(b)
  {
    forall x: T ensures multiset(a)[x] == multiset(b)[x] {
      Multiplicity(a, x);
      Multiplicity(b, x);
    }
  }

  ghost function Render<L, R>(left: seq<ProbeRow<L>>, rows: seq<BuildRow<R>>, p: Pair): Joined<L, R> {
    match p
    case Match(i, j) =>
      Joined(if i < |left| then Some(left[i].row) else None, if j < |rows| then Some(rows[j].payload) else None)
    case LeftOnly(i) => Joined(if i < |left| then Some(left[i].row) else None, None)
    case RightOnly(j) => Joined(None, if j < |rows| then Some(rows[j].payload) else None)
  }

  ghost function RenderAll<L, R>(left: seq<ProbeRow<L>>, rows: seq<BuildRow<R>>,
                                 ps: seq<Pair>): (out: seq<Joined<L, R>>)
    ensures |out| == |ps| && forall x | 0 <= x < |ps| :: out[x] == Render(left, rows, ps[x])
  {
    seq(|ps|, x requires 0 <= x < |ps| => Render(left, rows, ps[x]))
  }

  lemma RenderAppend<L, R>(left: seq<ProbeRow<L>>, rows: seq<BuildRow<R>>, a: seq<Pair>, b: seq<Pair>)
    ensures RenderAll(left, rows, a + b) == RenderAll(left, rows, a) + RenderAll(left, rows, b)
  {
  }

  lemma Without<T>(s: seq<T>, k: nat)
    requires k < |s|
    ensures multiset(s) == multiset(s[..k] + s[k + 1..]) + multiset{s[k]}
  {
    assert s == s[..k] + [s[k]] + s[k + 1..];
  }

  lemma RenderWithout<L, R>(left: seq<ProbeRow<L>>, rows: seq<BuildRow<R>>, ps: seq<Pair>, k: nat)
    requires k < |ps|
    ensures multiset(RenderAll(left, rows, ps)) ==
            multiset(RenderAll(left, rows, ps[..k] + ps[k + 1..])) + multiset{Render(left, rows, ps[k])}
  {
    var a, b := ps[..k], ps[k + 1..];
    assert ps == a + [ps[k]] + b;
    RenderAppend(left, rows, a + [ps[k]], b);
    RenderAppend(left, rows, a, [ps[k]]);
    RenderAppend(left, rows, a, b);
    assert RenderAll(left, rows, [ps[k]]) == [Render(left, rows, ps[k])];
  }

  lemma Occurrence<T>(a: seq<T>, b: seq<T>) returns (k: nat)
    requires a != [] && multiset(a) == multiset(b)
    ensures k < |b| && b[k] == a[|a| - 1]
  {
    assert a[|a| - 1] in multiset(b);
    k :| 0 <= k < |b| && b[k] == a[|a| - 1];
  }

  lemma RemoveFromBoth<T>(a: seq<T>, b: seq<T>, k: nat)
    requires a != [] && multiset(a) == multiset(b) && k < |b| && b[k] == a[|a| - 1]
    ensures multiset(a[..|a| - 1]) == multiset(b[..k] + b[k + 1..])
  {
    var last := a[|a| - 1];
    Without(a, |a| - 1);
    Without(b, k);
    assert a[..|a| - 1] + a[|a|..] == a[..|a| - 1];
    assert multiset(a[..|a| - 1]) == multiset(a) - multiset{last};
  }

  lemma {:induction false} RenderSameMultiset<L, R>(left: seq<ProbeRow<L>>, rows: seq<BuildRow<R>>, a: seq<Pair>,
                                                    b: seq<Pair>)
    requires multiset(a) == multiset(b)
    ensures multiset(RenderAll(left, rows, a)) == multiset(RenderAll(left, rows, b))
    decreases |a|
  {
    hide RenderAll, Render;
    if a == [] {
      assert |multiset(a)| == |multiset(b)|;
    } else {
      var k := Occurrence(a, b);
      var a', b' := a[..|a| - 1], b[..k] + b[k + 1..];
      RemoveFromBoth(a, b, k);
      RenderSameMultiset(left, rows, a', b');
      assert a[..|a| - 1] + a[|a|..] == a';
      RenderWithout(left, rows, a, |a| - 1);
      RenderWithout(left, rows, b, k);
    }
  }

  /** An enumeration of the joined pairs without repetition has the rows of the nested-loop join. */
  lemma EnumerationIsJoin<L, R>(kind: JoinType, cs: seq<Condition>, left: seq<ProbeRow<L>>, rows: seq<BuildRow<R>>,
                                ps: seq<Pair>)
    requires SidesOk(cs, left, rows) && NoDuplicates(ps)
    requires forall p :: p in ps <==> InJoin(kind, cs, left, rows, p)
    ensures multiset(RenderAll(left, rows, ps)) == multiset(RenderAll(left, rows, NestedLoop(kind, cs, left, rows)))
  {
    NestedLoopPairs(kind, cs, left, rows);
    SameElementsSameMultiset(ps, NestedLoop(kind, cs, left, rows));
    RenderSameMultiset(left, rows, ps, NestedLoop(kind, cs, left, rows));
  }

  // ---------- the result by join type ----------

  /** The left rows below `n`, each with the payload of every build row it joins. */
  ghost function PairedRows<L, R>(cs: seq<Condition>, left: seq<ProbeRow<L>>, rows: seq<BuildRow<R>>,
                                  n: nat): seq<Joined<L, R>>
    requires SidesOk(cs, left, rows) && n <= |left|
  {
    if n == 0 then [] else PairedRows(cs, left, rows, n - 1) + PartnersOf(cs, left, rows, n - 1, |rows|)
  }

  /** Left row `i` with the payloads of the build rows below `m` it joins. */
  ghost function PartnersOf<L, R>(cs: seq<Condition>, left: seq<ProbeRow<L>>, rows: seq<BuildRow<R>>, i: nat,
                                  m: nat): seq<Joined<L, R>>
    requires SidesOk(cs, left, rows) && i < |left| && m <= |rows|
  {
    if m == 0 then []
    else if KeysMatch(cs, left[i].key, rows[m - 1].key) then
      PartnersOf(cs, left, rows, i, m - 1) + [Joined(Some(left[i].row), Some(rows[m - 1].payload))]
    else PartnersOf(cs, left, rows, i, m - 1)
  }

  /** The left rows below `n` that match no build row, each once and with NULL. */
  ghost function LonelyLeft<L, R>(cs: seq<Condition>, left: seq<ProbeRow<L>>, rows: seq<BuildRow<R>>,
                                  n: nat): seq<Joined<L, R>>
    requires SidesOk(cs, left, rows) && n <= |left|
  {
    if n == 0 then []
    else if exists j | 0 <= j < |rows| :: KeysMatch(cs, left[n - 1].key, rows[j].key) then
      LonelyLeft(cs, left, rows, n - 1)
    else LonelyLeft(cs, left, rows, n - 1) + [Joined(Some(left[n - 1].row), None)]
  }

  /** The build rows below `m` that match no left row, each once and with NULL. */
  ghost function LonelyRight<L, R>(cs: seq<Condition>, left: seq<ProbeRow<L>>, rows: seq<BuildRow<R>>,
                                   m: nat): seq<Joined<L, R>>
    requires SidesOk(cs, left, rows) && m <= |rows|
  {
    if m == 0 then []
    else if exists i | 0 <= i < |left| :: KeysMatch(cs, left[i].key, rows[m - 1].key) then
      LonelyRight(cs, left, rows, m - 1)
    else LonelyRight(cs, left, rows, m - 1) + [Joined(None, Some(rows[m - 1].payload))]
  }

  /** What each join type returns: the pairs, and the rows without a partner of the left side, the right or both. */
  ghost predicate HasRowsOf<L, R>(kind: JoinType, cs: seq<Condition>, left: seq<ProbeRow<L>>, rows: seq<BuildRow<R>>,
                                  out: seq<Joined<L, R>>)
    requires SidesOk(cs, left, rows)
  {
    var pairs := multiset(PairedRows(cs, left, rows, |left|));
    var lefts, rights := multiset(LonelyLeft(cs, left, rows, |left|)), multiset(LonelyRight(cs, left, rows, |rows|));
    match kind
    case Inner => multiset(out) == pairs
    case Left => multiset(out) == pairs + lefts
    case Right => multiset(out) == pairs + rights
    case Outer => multiset(out) == pairs + lefts + rights
    case _ => false
  }

  lemma {:induction false} InnerLoopRows<L, R>(cs: seq<Condition>, left: seq<ProbeRow<L>>, rows: seq<BuildRow<R>>,
                                               i: nat, m: nat)
    requires SidesOk(cs, left, rows) && i < |left| && m <= |rows|
    ensures RenderAll(left, rows, InnerLoop(cs, left, rows, i, m)) == PartnersOf(cs, left, rows, i, m)
  {
    if m > 0 {
      InnerLoopRows(cs, left, rows, i, m - 1);
      hide KeysMatch;
      RenderAppend(left, rows, InnerLoop(cs, left, rows, i, m - 1), [Match(i, m - 1)]);
      assert RenderAll(left, rows, [Match(i, m - 1)]) == [Render(left, rows, Match(i, m - 1))];
    }
  }

  lemma NoMatchIsAlone<L, R>(cs: seq<Condition>, left: seq<ProbeRow<L>>, rows: seq<BuildRow<R>>, i: nat)
    requires SidesOk(cs, left, rows) && i < |left|
    ensures InnerLoop(cs, left, rows, i, |rows|) == [] <==>
            forall j | 0 <= j < |rows| :: !KeysMatch(cs, left[i].key, rows[j].key)
  {
    InnerLoopPairs(cs, left, rows, i, |rows|);
    hide KeysMatch;
    var ps := InnerLoop(cs, left, rows, i, |rows|);
    if ps != [] {
      assert ps[0] in ps && Joins(cs, left, rows, i, ps[0].right);
    } else {
      forall j | 0 <= j < |rows| ensures !KeysMatch(cs, left[i].key, rows[j].key) {
        assert Match(i, j) !in ps;
      }
    }
  }

  /** What one step of the outer loop adds to the rows. */
  lemma OuterStepRows<L, R>(kind: JoinType, cs: seq<Condition>, left: seq<ProbeRow<L>>, rows: seq<BuildRow<R>>, i: nat)
    requires SidesOk(cs, left, rows) && i < |left|
    ensures var matches := InnerLoop(cs, left, rows, i, |rows|);
      RenderAll(left, rows, AddIf(matches, LeftOnly(i), kind.IsLeftOuter() && matches == [])) ==
      PartnersOf(cs, left, rows, i, |rows|) +
      if (kind.Left? || kind.Outer?) && (forall j | 0 <= j < |rows| :: !KeysMatch(cs, left[i].key, rows[j].key))
      then [Joined(Some(left[i].row), None)] else []
  {
    InnerLoopRows(cs, left, rows, i, |rows|);
    NoMatchIsAlone(cs, left, rows, i);
    hide InnerLoop, KeysMatch, PartnersOf;
    var matches := InnerLoop(cs, left, rows, i, |rows|);
    if matches == [] {
      assert [] + [LeftOnly(i)] == [LeftOnly(i)];
      assert RenderAll(left, rows, [LeftOnly(i)]) == [Joined(Some(left[i].row), None)];
    }
  }

  lemma AddRows<T>(before: seq<T>, pairs: seq<T>, lonely: seq<T>, more: seq<T>, one: seq<T>)
    requires multiset(before) == multiset(pairs) + multiset(lonely)
    ensures multiset(before + (more + one)) == multiset(pairs + more) + multiset(lonely + one)
  {
  }

  /** The left rows below `n` that a join type returns alone. */
  ghost function ReturnedAlone<L, R>(kind: JoinType, cs: seq<Condition>, left: seq<ProbeRow<L>>,
                                     rows: seq<BuildRow<R>>, n: nat): seq<Joined<L, R>>
    requires SidesOk(cs, left, rows) && n <= |left|
  {
    if kind.Left? || kind.Outer? then LonelyLeft(cs, left, rows, n) else []
  }

  lemma AloneStep<L, R>(kind: JoinType, cs: seq<Condition>, left: seq<ProbeRow<L>>, rows: seq<BuildRow<R>>, i: nat)
    requires SidesOk(cs, left, rows) && i < |left|
    ensures ReturnedAlone(kind, cs, left, rows, i + 1) ==
      ReturnedAlone(kind, cs, left, rows, i) +
      if (kind.Left? || kind.Outer?) && (forall j | 0 <= j < |rows| :: !KeysMatch(cs, left[i].key, rows[j].key))
      then [Joined(Some(left[i].row), None)] else []
  {
    hide KeysMatch;
  }

  lemma {:induction false} OuterLoopRows<L, R>(kind: JoinType, cs: seq<Condition>, left: seq<ProbeRow<L>>,
                                               rows: seq<BuildRow<R>>, n: nat)
    requires SidesOk(cs, left, rows) && n <= |left|
    ensures multiset(RenderAll(left, rows, OuterLoop(kind, cs, left, rows, n))) ==
            multiset(PairedRows(cs, left, rows, n)) + multiset(ReturnedAlone(kind, cs, left, rows, n))
  {
    if n > 0 {
      OuterLoopRows(kind, cs, left, rows, n - 1);
      OuterStepRows(kind, cs, left, rows, n - 1);
      AloneStep(kind, cs, left, rows, n - 1);
      hide RenderAll, InnerLoop, KeysMatch, PartnersOf, AddIf, ReturnedAlone;
      var matches := InnerLoop(cs, left, rows, n - 1, |rows|);
      var before := OuterLoop(kind, cs, left, rows, n - 1);
      RenderAppend(left, rows, before, AddIf(matches, LeftOnly(n - 1), kind.IsLeftOuter() && matches == []));
      var one :=
        if (kind.Left? || kind.Outer?) && (forall j | 0 <= j < |rows| :: !KeysMatch(cs, left[n - 1].key, rows[j].key))
        then [Joined(Some(left[n - 1].row), None)] else [];
      AddRows(RenderAll(left, rows, before), PairedRows(cs, left, rows, n - 1),
              ReturnedAlone(kind, cs, left, rows, n - 1), PartnersOf(cs, left, rows, n - 1, |rows|), one);
    }
  }

  lemma {:induction false} LeftoverRows<L, R>(cs: seq<Condition>, left: seq<ProbeRow<L>>, rows: seq<BuildRow<R>>,
                                              m: nat)
    requires SidesOk(cs, left, rows) && m <= |rows|
    ensures RenderAll(left, rows, Leftovers(cs, left, rows, m)) == LonelyRight(cs, left, rows, m)
  {
    if m > 0 {
      LeftoverRows(cs, left, rows, m - 1);
      hide KeysMatch;
      assert Alone(cs, left, rows, m - 1) <==>
             !exists i | 0 <= i < |left| :: KeysMatch(cs, left[i].key, rows[m - 1].key)
      by {
        assert forall i: nat :: Joins(cs, left, rows, i, m - 1) <==>
                                i < |left| && KeysMatch(cs, left[i].key, rows[m - 1].key);
      }
      RenderAppend(left, rows, Leftovers(cs, left, rows, m - 1), [RightOnly(m - 1)]);
      assert RenderAll(left, rows, [RightOnly(m - 1)]) == [Joined(None, Some(rows[m - 1].payload))];
    }
  }

  /** The nested-loop join, join type by join type. */
  lemma NestedLoopRows<L, R>(kind: JoinType, cs: seq<Condition>, left: seq<ProbeRow<L>>, rows: seq<BuildRow<R>>)
    requires SidesOk(cs, left, rows) && (kind.Inner? || kind.Left? || kind.Right? || kind.Outer?)
    ensures HasRowsOf(kind, cs, left, rows, RenderAll(left, rows, NestedLoop(kind, cs, left, rows)))
  {
    OuterLoopRows(kind, cs, left, rows, |left|);
    LeftoverRows(cs, left, rows, |rows|);
    hide RenderAll, OuterLoop, Leftovers, PairedRows, LonelyLeft, LonelyRight;
    var outer, rest := OuterLoop(kind, cs, left, rows, |left|), Leftovers(cs, left, rows, |rows|);
    RenderAppend(left, rows, outer, rest);
    assert outer + [] == outer;
  }
}
