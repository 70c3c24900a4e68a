/**
 * Common subexpression elimination: expressions that occur more than once under a projection or an aggregation move to
 * a projection below it (src/optimizer/cse_optimizer.cpp:46-144).
 */
module CseOptimizer {

  datatype Binding = Binding(table: nat, column: nat)

  /** Bound expressions; comparisons, casts, cases and operators are functions without side effects. */
  datatype Expression =
    | ColumnRef(binding: Binding)
    | Constant(value: int)
    | Parameter(index: nat)
    | Function(id: nat, sideEffects: bool, args: seq<Expression>)
    | Aggregate(id: nat, args: seq<Expression>)

  /** What functions, aggregates and parameters stand for. */
  datatype Meaning<!V> = Meaning(call: (nat, seq<V>) -> V, aggregate: (nat, seq<V>) -> V, constant: int -> V,
                                 parameter: nat -> V)

  function Children(e: Expression): (args: seq<Expression>)
    ensures forall i | 0 <= i < |args| :: args[i] < e
  {
    if e.Function? || e.Aggregate? then e.args else []
  }

  /** The value of an expression on a row. */
  function Eval<V>(m: Meaning<V>, e: Expression, row: Binding -> V): V
    decreases e
  {
    match e
    case ColumnRef(b) => row(b)
    case Constant(c) => (m.constant)(c)
    case Parameter(i) => (m.parameter)(i)
    case Function(id, _, args) => (m.call)(id, seq(|args|, i requires 0 <= i < |args| => Eval(m, args[i], row)))
    case Aggregate(id, args) => (m.aggregate)(id, seq(|args|, i requires 0 <= i < |args| => Eval(m, args[i], row)))
  }

  predicate HasSideEffects(e: Expression)
    decreases e
  {
    var args := Children(e);
    (e.Function? && e.sideEffects) || exists i | 0 <= i < |args| :: HasSideEffects(args[i])
  }

  /** Every column an expression reads is one of the first `n` of a table. */
  ghost predicate ReadsOnly(e: Expression, table: nat, n: nat)
    decreases e
  {
    var args := Children(e);
    && (e.ColumnRef? ==> e.binding.table == table && e.binding.column < n)
    && forall i | 0 <= i < |args| :: ReadsOnly(args[i], table, n)
  }

  /** The row a projection makes of a row; columns it does not have read as the row's own. */
  function Project<V>(m: Meaning<V>, table: nat, expressions: seq<Expression>, row: Binding -> V): Binding -> V {
    (b: Binding) => if b.table == table && b.column < |expressions| then Eval(m, expressions[b.column], row) else row(b)
  }

  lemma {:induction false} ReadsOnlyMore(e: Expression, table: nat, n: nat, n': nat)
    requires ReadsOnly(e, table, n) && n <= n'
    ensures ReadsOnly(e, table, n')
    decreases e
  {
    forall i | 0 <= i < |Children(e)| ensures ReadsOnly(Children(e)[i], table, n') {
      ReadsOnlyMore(Children(e)[i], table, n, n');
    }
  }

  /** More columns in the projection change nothing for an expression that does not read them. */
  lemma {:induction false} ProjectMore<V>(m: Meaning<V>, e: Expression, table: nat, expressions: seq<Expression>,
                                          more: seq<Expression>, row: Binding -> V)
    requires ReadsOnly(e, table, |expressions|) && expressions <= more
    ensures Eval(m, e, Project(m, table, more, row)) == Eval(m, e, Project(m, table, expressions, row))
    decreases e
  {
    var args := Children(e);
    forall i | 0 <= i < |args|
      ensures Eval(m, args[i], Project(m, table, more, row)) == Eval(m, args[i], Project(m, table, expressions, row))
    {
      ProjectMore(m, args[i], table, expressions, more, row);
    }
    if e.Function? || e.Aggregate? {
      SameArguments(m, e, e, Project(m, table, more, row), Project(m, table, expressions, row));
    }
  }

  /** The same node over arguments of the same values. */
  ghost predicate SameNode(e: Expression, e': Expression) {
    || (e.Function? && e'.Function? && e.id == e'.id && |e.args| == |e'.args| && e.sideEffects == e'.sideEffects)
    || (e.Aggregate? && e'.Aggregate? && e.id == e'.id && |e.args| == |e'.args|)
  }

  lemma SameArguments<V>(m: Meaning<V>, e: Expression, e': Expression, row: Binding -> V, row': Binding -> V)
    requires SameNode(e, e') && forall i | 0 <= i < |e.args| :: Eval(m, e.args[i], row) == Eval(m, e'.args[i], row')
    ensures Eval(m, e, row) == Eval(m, e', row')
  {
    var a := seq(|e.args|, i requires 0 <= i < |e.args| => Eval(m, e.args[i], row));
    var b := seq(|e'.args|, i requires 0 <= i < |e'.args| => Eval(m, e'.args[i], row'));
    assert a == b;
  }

  /** How often evaluating an expression calls a function with side effects. */
  function Calls(e: Expression): nat
    decreases e, 1
  {
    CallsBelow(e, |Children(e)|) + if e.Function? && e.sideEffects then 1 else 0
  }

  function CallsBelow(e: Expression, n: nat): nat
    requires n <= |Children(e)|
    decreases e, 0, n
  {
    if n == 0 then 0 else CallsBelow(e, n - 1) + Calls(Children(e)[n - 1])
  }

  lemma {:induction false} NoCalls(e: Expression)
    requires !HasSideEffects(e)
    ensures Calls(e) == 0
    decreases e, 1
  {
    NoCallsBelow(e, |Children(e)|);
  }

  lemma {:induction false} NoCallsBelow(e: Expression, n: nat)
    requires !HasSideEffects(e) && n <= |Children(e)|
    ensures CallsBelow(e, n) == 0
    decreases e, 0, n
  {
    if n > 0 {
      NoCallsBelow(e, n - 1);
      NoCalls(Children(e)[n - 1]);
    }
  }

  /** Whether an expression has side effects is whether evaluating it calls a function that has them. */
  lemma SideEffectsAreCalls(e: Expression)
    ensures HasSideEffects(e) <==> Calls(e) > 0
  {
    if !HasSideEffects(e) {
      NoCalls(e);
    } else {
      SomeCalls(e);
    }
  }

  lemma {:induction false} SomeCalls(e: Expression)
    requires HasSideEffects(e)
    ensures Calls(e) > 0
    decreases e
  {
    var args := Children(e);
    if !(e.Function? && e.sideEffects) {
      var i :| 0 <= i < |args| && HasSideEffects(args[i]);
      SomeCalls(args[i]);
      CallsOfChild(e, |args|, i);
    }
  }

  lemma {:induction false} CallsOfChild(e: Expression, n: nat, i: nat)
    requires i < n <= |Children(e)|
    ensures CallsBelow(e, n) >= Calls(Children(e)[i])
  {
    if i < n - 1 {
      CallsOfChild(e, n - 1, i);
    }
  }

  /** How often an expression occurs in another. */
  function Occurrences(sub: Expression, e: Expression): nat
    decreases e, 1
  {
    OccurrencesBelow(sub, e, |Children(e)|) + if sub == e then 1 else 0
  }

  function OccurrencesBelow(sub: Expression, e: Expression, n: nat): nat
    requires n <= |Children(e)|
    decreases e, 0, n
  {
    if n == 0 then 0 else OccurrencesBelow(sub, e, n - 1) + Occurrences(sub, Children(e)[n - 1])
  }

  function OccurrencesIn(sub: Expression, es: seq<Expression>): nat {
    if es == [] then 0 else OccurrencesIn(sub, es[..|es| - 1]) + Occurrences(sub, es[|es| - 1])
  }

  /** Expressions that may be shared: not leaves, not aggregates, and without side effects. */
  predicate Counted(e: Expression) {
    e.Function? && !HasSideEffects(e)
  }

  /** A function node that calls nothing with side effects. */
  ghost predicate Sharable(e: Expression) {
    e.Function? && Calls(e) == 0
  }

  lemma CountedIsSharable(e: Expression)
    ensures Counted(e) <==> Sharable(e)
  {
    SideEffectsAreCalls(e);
  }

  /** What replacing has put into the projection so far. */
  ghost predicate StateOk(expressions: seq<Expression>, columnMap: map<Binding, nat>, columnIndex: map<Expression, nat>)
  {
    && (forall b | b in columnMap :: columnMap[b] < |expressions| && expressions[columnMap[b]] == ColumnRef(b))
    && (forall e | e in columnIndex ::
          columnIndex[e] < |expressions| && expressions[columnIndex[e]] == e && !e.ColumnRef?)
    && (forall k | 0 <= k < |expressions| :: Known(expressions[k], columnMap, columnIndex, k))
  }

  /** Column `k` of the projection is the one its expression is known by. */
  ghost predicate Known(e: Expression, columnMap: map<Binding, nat>, columnIndex: map<Expression, nat>, k: nat) {
    if e.ColumnRef? then e.binding in columnMap && columnMap[e.binding] == k
    else e in columnIndex && columnIndex[e] == k
  }

  /** Every shared expression is one that may be, and occurred more than once. */
  ghost predicate SharesOnly(expressions: seq<Expression>, counts: map<Expression, nat>) {
    forall k | 0 <= k < |expressions| ::
      expressions[k].ColumnRef? || (expressions[k] in counts && counts[expressions[k]] > 1 && Counted(expressions[k]))
  }

  ghost predicate SameValue<V>(m: Meaning<V>, table: nat, expressions: seq<Expression>, e: Expression, e': Expression,
                               row: Binding -> V) {
    Eval(m, e', Project(m, table, expressions, row)) == Eval(m, e, row)
  }

  /** The rewritten expression over the projection means what the original did over the row below it. */
  ghost predicate Replaces<V(!new)>(table: nat, expressions: seq<Expression>, e: Expression, e': Expression) {
    && ReadsOnly(e', table, |expressions|) && Calls(e') == Calls(e)
    && forall m: Meaning<V>, row: Binding -> V :: SameValue(m, table, expressions, e, e', row)
  }

  lemma ReplacesMore<V(!new)>(table: nat, expressions: seq<Expression>, more: seq<Expression>, e: Expression,
                              e': Expression)
    requires Replaces<V>(table, expressions, e, e') && expressions <= more
    ensures Replaces<V>(table, more, e, e')
  {
    hide Calls;
    ReadsOnlyMore(e', table, |expressions|, |more|);
    forall m: Meaning<V>, row: Binding -> V ensures SameValue(m, table, more, e, e', row) {
      assert SameValue(m, table, expressions, e, e', row);
      ProjectMore(m, e', table, expressions, more, row);
    }
  }

  /** A reference to a column of the projection replaces the expression in that column. */
  lemma ReferenceReplaces<V(!new)>(table: nat, expressions: seq<Expression>, e: Expression, k: nat)
    requires k < |expressions| && expressions[k] == e && Calls(e) == 0
    ensures Replaces<V>(table, expressions, e, ColumnRef(Binding(table, k)))
  {
  }

  lemma LeafReplaces<V(!new)>(table: nat, expressions: seq<Expression>, e: Expression)
    requires e.Constant? || e.Parameter?
    ensures Replaces<V>(table, expressions, e, e)
  {
  }

  /** A node over replaced arguments. */
  lemma NodeReplaces<V(!new)>(table: nat, expressions: seq<Expression>, e: Expression, e': Expression)
    requires SameNode(e, e') && forall i | 0 <= i < |e.args| :: Replaces<V>(table, expressions, e.args[i], e'.args[i])
    ensures Replaces<V>(table, expressions, e, e')
  {
    SameCalls<V>(table, expressions, e, e', |e.args|);
    hide Calls;
    forall m: Meaning<V>, row: Binding -> V ensures SameValue(m, table, expressions, e, e', row) {
      forall i | 0 <= i < |e.args|
        ensures Eval(m, e'.args[i], Project(m, table, expressions, row)) == Eval(m, e.args[i], row)
      {
        assert Replaces<V>(table, expressions, e.args[i], e'.args[i]);
        assert SameValue(m, table, expressions, e.args[i], e'.args[i], row);
      }
      SameArguments(m, e', e, Project(m, table, expressions, row), row);
    }
  }

  lemma {:induction false} SameCalls<V(!new)>(table: nat, expressions: seq<Expression>, e: Expression, e': Expression,
                                              n: nat)
    requires SameNode(e, e') && n <= |e.args|
    requires forall i | 0 <= i < |e.args| :: Replaces<V>(table, expressions, e.args[i], e'.args[i])
    ensures CallsBelow(e, n) == CallsBelow(e', n)
  {
    if n > 0 {
      SameCalls<V>(table, expressions, e, e', n - 1);
      assert Replaces<V>(table, expressions, e.args[n - 1], e'.args[n - 1]);
    }
  }

  /** No column of a table is read. */
  ghost predicate Avoids(e: Expression, table: nat)
    decreases e
  {
    var args := Children(e);
    (e.ColumnRef? ==> e.binding.table != table) && forall i | 0 <= i < |args| :: Avoids(args[i], table)
  }

  ghost predicate Shared(counts: map<Expression, nat>, x: Expression) {
    x in counts && counts[x] > 1 && Counted(x)
  }

  /**
   * Nothing shared is left of an expression after replacing; the new projection's index is one no expression reads yet.
   */
  ghost predicate Eliminated(counts: map<Expression, nat>, table: nat, e: Expression, e': Expression) {
    && (Avoids(e', table) ==> e' == e)
    && forall x | Shared(counts, x) && Avoids(x, table) :: Occurrences(x, e') == 0
  }

  lemma LeafEliminated(counts: map<Expression, nat>, table: nat, e: Expression, e': Expression)
    requires e' == e || (e'.ColumnRef? && e'.binding.table == table)
    requires e'.ColumnRef? || e'.Constant? || e'.Parameter?
    ensures Eliminated(counts, table, e, e')
  {
  }

  /** What occurs in none of the first arguments does not occur below them. */
  lemma {:induction false} NotBelow(x: Expression, e: Expression, n: nat)
    requires n <= |Children(e)| && forall i | 0 <= i < n :: Occurrences(x, Children(e)[i]) == 0
    ensures OccurrencesBelow(x, e, n) == 0
  {
    if n > 0 {
      NotBelow(x, e, n - 1);
    }
  }

  lemma NodeEliminated(counts: map<Expression, nat>, table: nat, e: Expression, e': Expression)
    requires SameNode(e, e') && !Shared(counts, e)
    requires forall i | 0 <= i < |e.args| :: Eliminated(counts, table, e.args[i], e'.args[i])
    ensures Eliminated(counts, table, e, e')
  {
    hide Shared;
    if Avoids(e', table) {
      assert e'.args == e.args;
    }
    forall x | Shared(counts, x) && Avoids(x, table) ensures Occurrences(x, e') == 0 {
      NotBelow(x, e', |e'.args|);
    }
  }

  lemma LeafNotShared(e: Expression)
    requires e.ColumnRef? || e.Constant? || e.Parameter?
    ensures forall x :: SharedIn(x, e) == 0
  {
    forall x ensures SharedIn(x, e) == 0 {
      assert OccurrencesBelow(x, e, 0) == 0;
    }
  }

  function CountOf(counts: map<Expression, nat>, e: Expression): nat {
    if e in counts then counts[e] else 0
  }

  /** Occurrences of an expression that may be shared. */
  ghost function SharedIn(x: Expression, e: Expression): nat {
    if Counted(x) then Occurrences(x, e) else 0
  }

  ghost function SharedBelow(x: Expression, e: Expression, n: nat): nat
    requires n <= |Children(e)|
  {
    if Counted(x) then OccurrencesBelow(x, e, n) else 0
  }

  /** Whatever was added to the projection from some place on occurs in the expressions. */
  ghost predicate AddsFrom(n: nat, added: seq<Expression>, es: seq<Expression>) {
    forall k | n <= k < |added| :: OccurrencesIn(added[k], es) > 0
  }

  lemma OnlyOne(x: Expression, e: Expression)
    ensures OccurrencesIn(x, [e]) == Occurrences(x, e)
  {
    assert OccurrencesIn(x, [e][..0]) == 0;
  }

  lemma OccursInItself(e: Expression)
    ensures OccurrencesIn(e, [e]) > 0
  {
    OnlyOne(e, e);
  }

  lemma {:induction false} OccursInChild(x: Expression, e: Expression, i: nat, n: nat)
    requires i < n <= |Children(e)|
    ensures OccurrencesBelow(x, e, n) >= Occurrences(x, Children(e)[i])
  {
    if i < n - 1 {
      OccursInChild(x, e, i, n - 1);
    }
  }

  lemma AddsToParent(n: nat, m: nat, added: seq<Expression>, e: Expression, i: nat)
    requires i < |Children(e)| && n <= m <= |added|
    requires AddsFrom(n, added[..m], [e]) && AddsFrom(m, added, [Children(e)[i]])
    ensures AddsFrom(n, added, [e])
  {
    forall k | n <= k < |added| ensures OccurrencesIn(added[k], [e]) > 0 {
      if k < m {
        assert added[..m][k] == added[k];
      } else {
        OnlyOne(added[k], Children(e)[i]);
        OccursInChild(added[k], e, i, |Children(e)|);
        OnlyOne(added[k], e);
      }
    }
  }

  class CseState {
    const projectionIndex: nat
    var counts: map<Expression, nat>
    var columnMap: map<Binding, nat>
    var columnIndex: map<Expression, nat>
    var expressions: seq<Expression>

    constructor (projectionIndex: nat)
      ensures this.projectionIndex == projectionIndex && counts == map[] && columnMap == map[] && columnIndex == map[]
      ensures expressions == []
    {
      this.projectionIndex := projectionIndex;
      counts, columnMap, columnIndex, expressions := map[], map[], map[], [];
    }

    /** Counts how often every expression that may be shared occurs. */
    method CountExpressions(e: Expression)
      modifies this`counts
      ensures forall x :: CountOf(counts, x) == CountOf(old(counts), x) + SharedIn(x, e)
      ensures forall x | x in counts :: x in old(counts) || Counted(x)
      decreases e
    {
      if e.ColumnRef? || e.Constant? || e.Parameter? {
        LeafNotShared(e);
        return;
      }
      if !e.Aggregate? && !HasSideEffects(e) {
        counts := counts[e := (if e in counts then counts[e] else 0) + 1];
      }
      ghost var own := counts;
      for i := 0 to |e.args|
        invariant forall x :: CountOf(counts, x) == CountOf(own, x) + SharedBelow(x, e, i)
        invariant forall x | x in counts :: x in old(counts) || Counted(x)
      {
        CountExpressions(e.args[i]);
      }
    }

    ghost predicate Valid()
      reads this
    {
      StateOk(expressions, columnMap, columnIndex) && SharesOnly(expressions, counts) &&
      (forall e | e in counts :: Counted(e))
    }

    /** Replaces shared expressions and column references by references into the projection. */
    method PerformReplacement<V(!new)>(e: Expression) returns (e': Expression)
      requires Valid()
      modifies this`expressions, this`columnMap, this`columnIndex
      ensures Valid() && old(expressions) <= expressions && Replaces<V>(projectionIndex, expressions, e, e')
      ensures Eliminated(counts, projectionIndex, e, e') && AddsFrom(|old(expressions)|, expressions, [e])
      decreases e
    {
      hide Eliminated, Replaces;
      if e.ColumnRef? {
        OccursInItself(e);
        e' := ReplaceColumn<V>(e.binding);
        LeafEliminated(counts, projectionIndex, e, e');
        return;
      }
      if e in counts && counts[e] > 1 {
        OccursInItself(e);
        e' := ReplaceShared<V>(e);
        LeafEliminated(counts, projectionIndex, e, e');
        return;
      }
      if e.Constant? || e.Parameter? {
        LeafReplaces<V>(projectionIndex, expressions, e);
        LeafEliminated(counts, projectionIndex, e, e);
        return e;
      }
      var args: seq<Expression> := [];
      for i := 0 to |e.args|
        invariant Valid() && old(expressions) <= expressions && |args| == i
        invariant forall k | 0 <= k < i :: Eliminated(counts, projectionIndex, e.args[k], args[k])
        invariant forall k | 0 <= k < i :: Replaces<V>(projectionIndex, expressions, e.args[k], args[k])
        invariant AddsFrom(|old(expressions)|, expressions, [e])
      {
        ghost var before := expressions;
        var arg := PerformReplacement<V>(e.args[i]);
        forall k | 0 <= k < i ensures Replaces<V>(projectionIndex, expressions, e.args[k], args[k]) {
          ReplacesMore<V>(projectionIndex, before, expressions, e.args[k], args[k]);
        }
        args := args + [arg];
        AddsToParent(|old(expressions)|, |before|, expressions, e, i);
      }
      e' := e.(args := args);
      NodeReplaces<V>(projectionIndex, expressions, e, e');
      NodeEliminated(counts, projectionIndex, e, e');
    }

    method ReplaceColumn<V(!new)>(b: Binding) returns (e': Expression)
      requires Valid()
      modifies this`expressions, this`columnMap
      ensures Valid() && old(expressions) <= expressions && Replaces<V>(projectionIndex, expressions, ColumnRef(b), e')
      ensures e'.ColumnRef? && e'.binding.table == projectionIndex
      ensures forall k | |old(expressions)| <= k < |expressions| :: expressions[k] == ColumnRef(b)
    {
      if b !in columnMap {
        columnMap := columnMap[b := |expressions|];
        expressions := expressions + [ColumnRef(b)];
      }
      e' := ColumnRef(Binding(projectionIndex, columnMap[b]));
      ReferenceReplaces<V>(projectionIndex, expressions, ColumnRef(b), columnMap[b]);
    }

    method ReplaceShared<V(!new)>(e: Expression) returns (e': Expression)
      requires Valid() && e in counts && counts[e] > 1
      modifies this`expressions, this`columnIndex
      ensures Valid() && old(expressions) <= expressions && Replaces<V>(projectionIndex, expressions, e, e')
      ensures e'.ColumnRef? && e'.binding.table == projectionIndex
      ensures forall k | |old(expressions)| <= k < |expressions| :: expressions[k] == e
    {
      if e !in columnIndex {
        columnIndex := columnIndex[e := |expressions|];
        expressions := expressions + [e];
      }
      e' := ColumnRef(Binding(projectionIndex, columnIndex[e]));
      NoCalls(e);
      ReferenceReplaces<V>(projectionIndex, expressions, e, columnIndex[e]);
    }
  }

  ghost function SharedInAll(x: Expression, es: seq<Expression>): nat {
    if Counted(x) then OccurrencesIn(x, es) else 0
  }

  /** Whether any expression occurs more than once. */
  method AnyShared(counts: map<Expression, nat>) returns (any: bool)
    ensures any <==> exists e :: e in counts && counts[e] > 1
  {
    var todo := counts.Keys;
    while todo != {}
      invariant todo <= counts.Keys && forall e | e in counts.Keys - todo :: counts[e] <= 1
      decreases |todo|
    {
      var e :| e in todo;
      if counts[e] > 1 {
        return true;
      }
      todo := todo - {e};
    }
    any := false;
  }

  ghost predicate ReplacesAll<V(!new)>(table: nat, projection: seq<Expression>, es: seq<Expression>,
                                       es': seq<Expression>) {
    |es'| == |es| && forall i | 0 <= i < |es| :: Replaces<V>(table, projection, es[i], es'[i])
  }

  ghost predicate Distinct(es: seq<Expression>) {
    forall i, j | 0 <= i < j < |es| :: es[i] != es[j]
  }

  /** Counts the expressions of an operator. */
  method CountAll(state: CseState, es: seq<Expression>)
    requires state.counts == map[]
    modifies state`counts
    ensures forall x :: CountOf(state.counts, x) == SharedInAll(x, es)
    ensures forall x | x in state.counts :: Counted(x)
  {
    for i := 0 to |es|
      invariant forall x :: CountOf(state.counts, x) == SharedInAll(x, es[..i])
      invariant forall x | x in state.counts :: Counted(x)
    {
      state.CountExpressions(es[i]);
      assert es[..i + 1][..i] == es[..i];
    }
    assert es[..|es|] == es;
  }

  /** Nothing shared is left in any of some expressions. */
  ghost predicate AllEliminated(counts: map<Expression, nat>, table: nat, es: seq<Expression>, es': seq<Expression>) {
    |es'| == |es| && forall i | 0 <= i < |es| :: Eliminated(counts, table, es[i], es'[i])
  }

  lemma {:induction false} NoOccurrences(x: Expression, es: seq<Expression>)
    requires forall i | 0 <= i < |es| :: Occurrences(x, es[i]) == 0
    ensures OccurrencesIn(x, es) == 0
  {
    if es != [] {
      NoOccurrences(x, es[..|es| - 1]);
    }
  }

  lemma {:induction false} OccursInAll(x: Expression, es: seq<Expression>, i: nat)
    requires i < |es|
    ensures OccurrencesIn(x, es) >= Occurrences(x, es[i])
  {
    if i < |es| - 1 {
      OccursInAll(x, es[..|es| - 1], i);
    }
  }

  lemma AddsToAll(n: nat, m: nat, added: seq<Expression>, es: seq<Expression>, i: nat)
    requires n <= m <= |added| && i < |es| && AddsFrom(n, added[..m], es) && AddsFrom(m, added, [es[i]])
    ensures AddsFrom(n, added, es)
  {
    forall k | n <= k < |added| ensures OccurrencesIn(added[k], es) > 0 {
      if k < m {
        assert added[..m][k] == added[k];
      } else {
        OnlyOne(added[k], es[i]);
        OccursInAll(added[k], es, i);
      }
    }
  }

  /** Replaces in the expressions of an operator. */
  method ReplaceAll<V(!new)>(state: CseState, es: seq<Expression>) returns (es': seq<Expression>)
    requires state.Valid()
    modifies state`expressions, state`columnMap, state`columnIndex
    ensures state.Valid() && ReplacesAll<V>(state.projectionIndex, state.expressions, es, es')
    ensures AllEliminated(state.counts, state.projectionIndex, es, es')
    ensures AddsFrom(|old(state.expressions)|, state.expressions, es)
  {
    hide Replaces, Eliminated;
    es' := [];
    for i := 0 to |es|
      invariant state.Valid() && |es'| == i
      invariant forall k | 0 <= k < i :: Eliminated(state.counts, state.projectionIndex, es[k], es'[k])
      invariant forall k | 0 <= k < i :: Replaces<V>(state.projectionIndex, state.expressions, es[k], es'[k])
      invariant old(state.expressions) <= state.expressions
      invariant AddsFrom(|old(state.expressions)|, state.expressions, es)
    {
      ghost var before := state.expressions;
      var e := state.PerformReplacement<V>(es[i]);
      forall k | 0 <= k < i ensures Replaces<V>(state.projectionIndex, state.expressions, es[k], es'[k]) {
        ReplacesMore<V>(state.projectionIndex, before, state.expressions, es[k], es'[k]);
      }
      es' := es' + [e];
      AddsToAll(|old(state.expressions)|, |before|, state.expressions, es, i);
    }
  }

  /** An expression that belongs into the projection: a column that occurs, or what occurs more than once. */
  ghost predicate Moved(e: Expression, es: seq<Expression>) {
    (e.ColumnRef? && OccurrencesIn(e, es) > 0) || (Sharable(e) && OccurrencesIn(e, es) > 1)
  }

  /** No expression that occurs more than once is computed by the rewritten expressions any more. */
  ghost predicate NothingLeft(es: seq<Expression>, table: nat, es': seq<Expression>) {
    forall x | Sharable(x) && OccurrencesIn(x, es) > 1 && Avoids(x, table) :: OccurrencesIn(x, es') == 0
  }

  lemma AllGone(counts: map<Expression, nat>, table: nat, es: seq<Expression>, es': seq<Expression>)
    requires AllEliminated(counts, table, es, es') && forall x :: CountOf(counts, x) == SharedInAll(x, es)
    ensures NothingLeft(es, table, es')
  {
    forall x | Sharable(x) && OccurrencesIn(x, es) > 1 && Avoids(x, table) ensures OccurrencesIn(x, es') == 0 {
      CountedIsSharable(x);
      assert CountOf(counts, x) == SharedInAll(x, es);
      assert Shared(counts, x);
      forall i | 0 <= i < |es'| ensures Occurrences(x, es'[i]) == 0 {
        assert Eliminated(counts, table, es[i], es'[i]);
      }
      NoOccurrences(x, es');
    }
  }

  datatype Extraction = Unchanged | Extracted(expressions: seq<Expression>, projection: seq<Expression>)

  /**
   * Moves the expressions an operator computes more than once to a projection below it, if there are any. On every row
   * the rewritten expressions over the projection have the values of the original ones, call functions with side
   * effects as often, and read nothing but the projection; no two columns of the projection are equal and none has side
   * effects, and the rewritten expressions compute nothing that is shared. A shared expression inside another one stays
   * where it is in that one's column.
   */
  method ExtractCommonSubExpressions<V(!new)>(es: seq<Expression>, projectionIndex: nat) returns (result: Extraction)
    ensures result.Unchanged? <==> forall x | Sharable(x) :: OccurrencesIn(x, es) <= 1
    ensures result.Extracted? ==> ReplacesAll<V>(projectionIndex, result.projection, es, result.expressions)
    ensures result.Extracted? ==>
            Distinct(result.projection) && forall k | 0 <= k < |result.projection| :: Moved(result.projection[k], es)
    ensures result.Extracted? ==> NothingLeft(es, projectionIndex, result.expressions)
  {
    hide NothingLeft, AllEliminated;
    var state := new CseState(projectionIndex);
    CountAll(state, es);
    assert forall x :: x in state.counts ==> CountOf(state.counts, x) == state.counts[x];
    var any := AnyShared(state.counts);
    if !any {
      forall x | Sharable(x) ensures OccurrencesIn(x, es) <= 1 {
        CountedIsSharable(x);
        assert CountOf(state.counts, x) == SharedInAll(x, es);
      }
      return Unchanged;
    }
    ghost var shared :| shared in state.counts && state.counts[shared] > 1;
    assert CountOf(state.counts, shared) == SharedInAll(shared, es);
    CountedIsSharable(shared);
    var rewritten := ReplaceAll<V>(state, es);
    result := Extracted(rewritten, state.expressions);
    AllGone(state.counts, projectionIndex, es, rewritten);
    forall k | 0 <= k < |result.projection| ensures Moved(result.projection[k], es) {
      assert CountOf(state.counts, result.projection[k]) == SharedInAll(result.projection[k], es);
      CountedIsSharable(result.projection[k]);
    }
  }
}
