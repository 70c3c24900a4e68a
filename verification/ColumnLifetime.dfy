/**
 * Column lifetime analysis drops columns that nothing above needs from the output of filters and joins, and column
 * binding resolution afterwards looks up every column reference (src/optimizer/column_lifetime_analyzer.cpp:11-143;
 * src/execution/column_binding_resolver.cpp:18-94; src/planner/logical_operator.cpp:48-84).
 */
module ColumnLifetime {
  import opened Common

  datatype Binding = Binding(table: nat, column: nat)

  /** An expression is a function of the columns it refers to. */
  datatype Expression = Expression(id: nat, columns: seq<Binding>)

  datatype Condition = Condition(equality: bool, left: Expression, right: Expression)

  datatype JoinKind = Both | SemiOrAnti | Mark

  datatype Plan =
    | Get(table: nat, columnCount: nat)
    | Projection(table: nat, expressions: seq<Expression>, child: Plan)
    | Aggregate(groupIndex: nat, aggregateIndex: nat, groups: seq<Expression>, expressions: seq<Expression>,
                child: Plan)
    | Filter(expressions: seq<Expression>, projectionMap: seq<nat>, child: Plan)
    | Join(kind: JoinKind, markIndex: nat, conditions: seq<Condition>, rightMap: seq<nat>, left: Plan, right: Plan)
    | SetOperation(table: nat, columnCount: nat, left: Plan, right: Plan)
    | Distinct(targets: seq<Expression>, child: Plan)
    | Order(orders: seq<Expression>, child: Plan)

  function Pick<T>(xs: seq<T>, at: seq<nat>): (ys: seq<T>)
    requires forall k | 0 <= k < |at| :: at[k] < |xs|
  {
    seq(|at|, k requires 0 <= k < |at| => xs[at[k]])
  }

  predicate MapOk(n: nat, projectionMap: seq<nat>) {
    forall k | 0 <= k < |projectionMap| :: projectionMap[k] < n
  }

  /** An empty projection map keeps everything. */
  function MapColumns<T>(xs: seq<T>, projectionMap: seq<nat>): seq<T> {
    if projectionMap == [] || !MapOk(|xs|, projectionMap) then xs else Pick(xs, projectionMap)
  }

  function GenerateBindings(table: nat, n: nat): (bs: seq<Binding>)
    ensures |bs| == n
  {
    seq(n, i requires 0 <= i < n => Binding(table, i))
  }

  /** The columns an operator outputs. */
  function Bindings(p: Plan): seq<Binding> {
    match p
    case Get(table, n) => GenerateBindings(table, if n == 0 then 1 else n)
    case Projection(table, es, _) => GenerateBindings(table, |es|)
    case Aggregate(g, a, groups, es, _) => GenerateBindings(g, |groups|) + GenerateBindings(a, |es|)
    case Filter(_, projectionMap, child) => MapColumns(Bindings(child), projectionMap)
    case Join(kind, mark, _, rightMap, l, r) =>
      (match kind
       case Both => Bindings(l) + MapColumns(Bindings(r), rightMap)
       case SemiOrAnti => Bindings(l)
       case Mark => Bindings(l) + [Binding(mark, 0)])
    case SetOperation(table, n, _, _) => GenerateBindings(table, n)
    case Distinct(_, child) => Bindings(child)
    case Order(_, child) => Bindings(child)
  }

  /** Where the data of a column comes from. */
  datatype Term =
    | Unknown
    | Base(table: nat, column: nat)
    | Computed(id: nat, inputs: seq<Term>)
    | Aggregated(id: nat, inputs: seq<Term>, of: Rows)
    | Combined(column: nat, of: Rows)
    | Marked(of: Rows)

  /** Where the rows of an operator come from: everything that decides which rows there are. */
  datatype Rows =
    | Scanned(table: nat)
    | Filtered(of: Rows, keys: seq<Term>)
    | Grouped(of: Rows, keys: seq<Term>)
    | Joined(kind: JoinKind, left: Rows, right: Rows, on: seq<(Term, Term)>)
    | United(left: Rows, leftColumns: seq<Term>, right: Rows, rightColumns: seq<Term>)
    | Deduplicated(of: Rows, columns: seq<Term>, targets: seq<Term>)
    | Ordered(of: Rows, keys: seq<Term>)

  /** The data of the first column with a binding. */
  ghost function LookUp(bs: seq<Binding>, cs: seq<Term>, b: Binding): Term
    requires |bs| == |cs|
  {
    var n := |bs| - 1;
    if bs == [] then Unknown
    else if b in bs[..n] then LookUp(bs[..n], cs[..n], b)
    else if bs[n] == b then cs[n] else Unknown
  }

  ghost function TermOf(e: Expression, bs: seq<Binding>, cs: seq<Term>): Term
    requires |bs| == |cs|
  {
    Computed(e.id, seq(|e.columns|, i requires 0 <= i < |e.columns| => LookUp(bs, cs, e.columns[i])))
  }

  ghost function TermsOf(es: seq<Expression>, bs: seq<Binding>, cs: seq<Term>): (ts: seq<Term>)
    requires |bs| == |cs|
    ensures |ts| == |es|
  {
    seq(|es|, i requires 0 <= i < |es| => TermOf(es[i], bs, cs))
  }

  /** Every column reference of an expression is found. */
  predicate Resolved(e: Expression, bs: seq<Binding>) {
    forall i | 0 <= i < |e.columns| :: e.columns[i] in bs
  }

  predicate AllResolved(es: seq<Expression>, bs: seq<Binding>) {
    forall i | 0 <= i < |es| :: Resolved(es[i], bs)
  }

  /** What column binding resolution requires of a plan. */
  predicate Resolves(p: Plan) {
    match p
    case Get(_, _) => true
    case Projection(_, es, child) => Resolves(child) && AllResolved(es, Bindings(child))
    case Aggregate(_, _, groups, es, child) =>
      Resolves(child) && AllResolved(groups, Bindings(child)) && AllResolved(es, Bindings(child))
    case Filter(es, _, child) => Resolves(child) && AllResolved(es, Bindings(child))
    case Join(_, _, conditions, _, l, r) =>
      && Resolves(l) && Resolves(r)
      && forall i | 0 <= i < |conditions| ::
           Resolved(conditions[i].left, Bindings(l)) && Resolved(conditions[i].right, Bindings(r))
    case SetOperation(_, _, l, r) => Resolves(l) && Resolves(r)
    case Distinct(targets, child) => Resolves(child) && AllResolved(targets, Bindings(child))
    case Order(orders, child) => Resolves(child) && AllResolved(orders, Bindings(child))
  }

  /** The data of the columns an operator outputs. */
  ghost function Columns(p: Plan): (cs: seq<Term>)
    ensures |cs| == |Bindings(p)|
    decreases p, 1
  {
    match p
    case Get(table, n) => var m := if n == 0 then 1 else n; seq(m, i requires 0 <= i < m => Base(table, i))
    case Projection(_, es, child) => TermsOf(es, Bindings(child), Columns(child))
    case Aggregate(_, _, groups, es, child) =>
      TermsOf(groups, Bindings(child), Columns(child)) +
      seq(|es|, i requires 0 <= i < |es| =>
        Aggregated(es[i].id, [TermOf(es[i], Bindings(child), Columns(child))], RowsOf(p)))
    case Filter(_, projectionMap, child) => MapColumns(Columns(child), projectionMap)
    case Join(kind, _, _, rightMap, l, r) =>
      (match kind
       case Both => Columns(l) + MapColumns(Columns(r), rightMap)
       case SemiOrAnti => Columns(l)
       case Mark => Columns(l) + [Marked(RowsOf(p))])
    case SetOperation(_, n, _, _) => seq(n, i requires 0 <= i < n => Combined(i, RowsOf(p)))
    case Distinct(_, child) => Columns(child)
    case Order(_, child) => Columns(child)
  }

  /** The rows an operator outputs. */
  ghost function RowsOf(p: Plan): Rows
    decreases p, 0
  {
    match p
    case Get(table, _) => Scanned(table)
    case Projection(_, _, child) => RowsOf(child)
    case Aggregate(_, _, groups, _, child) => Grouped(RowsOf(child), TermsOf(groups, Bindings(child), Columns(child)))
    case Filter(es, _, child) => Filtered(RowsOf(child), TermsOf(es, Bindings(child), Columns(child)))
    case Join(kind, _, conditions, _, l, r) =>
      Joined(kind, RowsOf(l), RowsOf(r), seq(|conditions|, i requires 0 <= i < |conditions| =>
        (TermOf(conditions[i].left, Bindings(l), Columns(l)), TermOf(conditions[i].right, Bindings(r), Columns(r)))))
    case SetOperation(_, _, l, r) => United(RowsOf(l), Columns(l), RowsOf(r), Columns(r))
    case Distinct(targets, child) =>
      Deduplicated(RowsOf(child), Columns(child), TermsOf(targets, Bindings(child), Columns(child)))
    case Order(orders, child) => Ordered(RowsOf(child), TermsOf(orders, Bindings(child), Columns(child)))
  }

  /** The columns whose bindings are not dropped. */
  ghost function Without(bs: seq<Binding>, drop: set<Binding>): seq<Binding> {
    if bs == [] then []
    else
      var n := |bs| - 1;
      if bs[n] in drop then Without(bs[..n], drop) else Without(bs[..n], drop) + [bs[n]]
  }

  /** The data of the columns whose bindings are not dropped. */
  ghost function DataWithout(bs: seq<Binding>, cs: seq<Term>, drop: set<Binding>): (kept: seq<Term>)
    requires |bs| == |cs|
    ensures |kept| == |Without(bs, drop)|
  {
    if bs == [] then []
    else
      var n := |bs| - 1;
      if bs[n] in drop then DataWithout(bs[..n], cs[..n], drop) else DataWithout(bs[..n], cs[..n], drop) + [cs[n]]
  }

  lemma {:induction false} WithoutMember(bs: seq<Binding>, drop: set<Binding>, b: Binding)
    ensures b in Without(bs, drop) <==> b in bs && b !in drop
  {
    if bs != [] {
      var n := |bs| - 1;
      WithoutMember(bs[..n], drop, b);
      assert bs == bs[..n] + [bs[n]];
    }
  }

  /** A column that is kept is found where it was. */
  lemma {:induction false} LookUpKept(bs: seq<Binding>, cs: seq<Term>, drop: set<Binding>, b: Binding)
    requires |bs| == |cs| && b !in drop
    ensures LookUp(Without(bs, drop), DataWithout(bs, cs, drop), b) == LookUp(bs, cs, b)
  {
    if bs != [] {
      var n := |bs| - 1;
      LookUpKept(bs[..n], cs[..n], drop, b);
      WithoutMember(bs[..n], drop, b);
      if bs[n] !in drop {
        var kept, data := Without(bs[..n], drop), DataWithout(bs[..n], cs[..n], drop);
        assert (kept + [bs[n]])[..|kept|] == kept && (data + [cs[n]])[..|kept|] == data;
        if bs[n] != b && b !in bs[..n] {
          LookUpMissing(bs[..n], cs[..n], b);
        }
      } else if b !in bs[..n] {
        LookUpMissing(bs[..n], cs[..n], b);
      }
    }
  }

  lemma {:induction false} LookUpMissing(bs: seq<Binding>, cs: seq<Term>, b: Binding)
    requires |bs| == |cs| && b !in bs
    ensures LookUp(bs, cs, b) == Unknown
  {
  }

  lemma {:induction false} WithoutNothing(bs: seq<Binding>, cs: seq<Term>, drop: set<Binding>)
    requires |bs| == |cs| && forall i | 0 <= i < |bs| :: bs[i] !in drop
    ensures Without(bs, drop) == bs && DataWithout(bs, cs, drop) == cs
  {
    if bs != [] {
      var n := |bs| - 1;
      WithoutNothing(bs[..n], cs[..n], drop);
    }
  }

  lemma {:induction false} WithoutTwice(bs: seq<Binding>, cs: seq<Term>, a: set<Binding>, b: set<Binding>)
    requires |bs| == |cs|
    ensures Without(Without(bs, a), b) == Without(bs, a + b)
    ensures DataWithout(Without(bs, a), DataWithout(bs, cs, a), b) == DataWithout(bs, cs, a + b)
  {
    if bs != [] {
      var n := |bs| - 1;
      WithoutTwice(bs[..n], cs[..n], a, b);
      if bs[n] !in a {
        var kept, data := Without(bs[..n], a), DataWithout(bs[..n], cs[..n], a);
        assert (kept + [bs[n]])[..|kept|] == kept && (data + [cs[n]])[..|kept|] == data;
      }
    }
  }

  lemma WithoutAppend(bs: seq<Binding>, b: Binding, drop: set<Binding>)
    ensures Without(bs + [b], drop) == if b in drop then Without(bs, drop) else Without(bs, drop) + [b]
  {
    assert (bs + [b])[..|bs|] == bs;
  }

  lemma DataAppend(bs: seq<Binding>, cs: seq<Term>, b: Binding, c: Term, drop: set<Binding>)
    requires |bs| == |cs|
    ensures DataWithout(bs + [b], cs + [c], drop) ==
            if b in drop then DataWithout(bs, cs, drop) else DataWithout(bs, cs, drop) + [c]
  {
    assert (bs + [b])[..|bs|] == bs && (cs + [c])[..|bs|] == cs;
  }

  lemma Associates<T>(a: seq<T>, b: seq<T>, x: T)
    ensures a + (b + [x]) == (a + b) + [x]
  {
  }

  lemma {:induction false} WithoutConcat(bs: seq<Binding>, bs': seq<Binding>, drop: set<Binding>)
    ensures Without(bs + bs', drop) == Without(bs, drop) + Without(bs', drop)
    decreases |bs'|
  {
    if bs' == [] {
      assert bs + bs' == bs && Without(bs', drop) == [];
    } else {
      hide Without;
      var rest, b := bs'[..|bs'| - 1], bs'[|bs'| - 1];
      assert bs' == rest + [b];
      WithoutConcat(bs, rest, drop);
      WithoutAppend(rest, b, drop);
      WithoutAppend(bs + rest, b, drop);
      Associates(bs, rest, b);
      Associates(Without(bs, drop), Without(rest, drop), b);
    }
  }

  lemma {:induction false} DataConcat(bs: seq<Binding>, cs: seq<Term>, bs': seq<Binding>, cs': seq<Term>,
                                      drop: set<Binding>)
    requires |bs| == |cs| && |bs'| == |cs'|
    ensures DataWithout(bs + bs', cs + cs', drop) == DataWithout(bs, cs, drop) + DataWithout(bs', cs', drop)
    decreases |bs'|
  {
    if bs' == [] {
      assert bs + bs' == bs && cs + cs' == cs && DataWithout(bs', cs', drop) == [];
    } else {
      hide Without, DataWithout;
      var rest, b := bs'[..|bs'| - 1], bs'[|bs'| - 1];
      var data, c := cs'[..|cs'| - 1], cs'[|cs'| - 1];
      assert bs' == rest + [b] && cs' == data + [c];
      DataConcat(bs, cs, rest, data, drop);
      DataAppend(rest, data, b, c, drop);
      DataAppend(bs + rest, cs + data, b, c, drop);
      Associates(bs, rest, b);
      Associates(cs, data, c);
      Associates(DataWithout(bs, cs, drop), DataWithout(rest, data, drop), c);
    }
  }

  lemma {:induction false} WithoutSame(bs: seq<Binding>, cs: seq<Term>, a: set<Binding>, b: set<Binding>)
    requires |bs| == |cs| && forall i | 0 <= i < |bs| :: bs[i] in a <==> bs[i] in b
    ensures Without(bs, a) == Without(bs, b) && DataWithout(bs, cs, a) == DataWithout(bs, cs, b)
  {
    if bs != [] {
      var n := |bs| - 1;
      WithoutSame(bs[..n], cs[..n], a, b);
    }
  }

  /** Expressions that read nothing that is dropped mean what they meant. */
  lemma TermKept(e: Expression, bs: seq<Binding>, cs: seq<Term>, drop: set<Binding>)
    requires |bs| == |cs| && forall i | 0 <= i < |e.columns| :: e.columns[i] !in drop
    ensures TermOf(e, Without(bs, drop), DataWithout(bs, cs, drop)) == TermOf(e, bs, cs)
    ensures Resolved(e, bs) ==> Resolved(e, Without(bs, drop))
  {
    forall i | 0 <= i < |e.columns|
      ensures LookUp(Without(bs, drop), DataWithout(bs, cs, drop), e.columns[i]) == LookUp(bs, cs, e.columns[i])
    {
      LookUpKept(bs, cs, drop, e.columns[i]);
    }
    forall i | 0 <= i < |e.columns| && e.columns[i] in bs ensures e.columns[i] in Without(bs, drop) {
      WithoutMember(bs, drop, e.columns[i]);
    }
  }

  /** The columns some expressions refer to. */
  ghost predicate ReadIn(es: seq<Expression>, refs: set<Binding>) {
    forall i, k | 0 <= i < |es| && 0 <= k < |es[i].columns| :: es[i].columns[k] in refs
  }

  lemma TermsKept(es: seq<Expression>, bs: seq<Binding>, cs: seq<Term>, drop: set<Binding>, refs: set<Binding>)
    requires |bs| == |cs| && ReadIn(es, refs) && drop !! refs
    ensures TermsOf(es, Without(bs, drop), DataWithout(bs, cs, drop)) == TermsOf(es, bs, cs)
    ensures AllResolved(es, bs) ==> AllResolved(es, Without(bs, drop))
  {
    forall i | 0 <= i < |es|
      ensures TermOf(es[i], Without(bs, drop), DataWithout(bs, cs, drop)) == TermOf(es[i], bs, cs)
      ensures Resolved(es[i], bs) ==> Resolved(es[i], Without(bs, drop))
    {
      TermKept(es[i], bs, cs, drop);
    }
  }

  function BindingSet(bs: seq<Binding>): set<Binding> {
    set i | 0 <= i < |bs| :: bs[i]
  }

  /** A plan as the binder makes it: nothing is projected away yet, and the sides of a join have different columns. */
  ghost predicate WellFormed(p: Plan) {
    match p
    case Get(_, _) => true
    case Projection(_, _, child) => WellFormed(child)
    case Aggregate(_, _, _, _, child) => WellFormed(child)
    case Filter(_, projectionMap, child) => projectionMap == [] && WellFormed(child)
    case Join(_, mark, _, rightMap, l, r) =>
      && rightMap == [] && WellFormed(l) && WellFormed(r)
      && BindingSet(Bindings(l)) !! BindingSet(Bindings(r)) && Binding(mark, 0) !in BindingSet(Bindings(l))
    case SetOperation(_, _, l, r) => WellFormed(l) && WellFormed(r)
    case Distinct(_, child) => WellFormed(child)
    case Order(_, child) => WellFormed(child)
  }

  /** A plan that lost some output columns and nothing else. */
  ghost predicate Pruned(p: Plan, p': Plan, drop: set<Binding>) {
    && Bindings(p') == Without(Bindings(p), drop) && Columns(p') == DataWithout(Bindings(p), Columns(p), drop)
    && RowsOf(p') == RowsOf(p) && Resolves(p') && drop <= BindingSet(Bindings(p))
  }

  lemma PrunedNothing(p: Plan, p': Plan)
    requires Bindings(p') == Bindings(p) && Columns(p') == Columns(p) && RowsOf(p') == RowsOf(p) && Resolves(p')
    ensures Pruned(p, p', {})
  {
    WithoutNothing(Bindings(p), Columns(p), {});
  }

  lemma SamePruned(p: Plan, p': Plan)
    requires Pruned(p, p', {})
    ensures Bindings(p') == Bindings(p) && Columns(p') == Columns(p)
  {
    WithoutNothing(Bindings(p), Columns(p), {});
  }

  lemma ProjectionPruned(table: nat, es: seq<Expression>, child: Plan, child': Plan, drop: set<Binding>,
                         refs: set<Binding>)
    requires Resolves(Projection(table, es, child)) && Pruned(child, child', drop) && ReadIn(es, refs) && drop !! refs
    ensures Pruned(Projection(table, es, child), Projection(table, es, child'), {})
  {
    hide Without, DataWithout, TermsOf;
    TermsKept(es, Bindings(child), Columns(child), drop, refs);
    PrunedNothing(Projection(table, es, child), Projection(table, es, child'));
  }

  lemma AggregatePruned(g: nat, a: nat, groups: seq<Expression>, es: seq<Expression>, child: Plan, child': Plan,
                        drop: set<Binding>, refs: set<Binding>)
    requires Resolves(Aggregate(g, a, groups, es, child)) && Pruned(child, child', drop) && drop !! refs
    requires ReadIn(groups, refs) && ReadIn(es, refs)
    ensures Pruned(Aggregate(g, a, groups, es, child), Aggregate(g, a, groups, es, child'), {})
  {
    var p, p', bs, cs := Aggregate(g, a, groups, es, child), Aggregate(g, a, groups, es, child'), Bindings(child),
                         Columns(child);
    TermsKept(groups, bs, cs, drop, refs);
    TermsKept(es, bs, cs, drop, refs);
    forall i | 0 <= i < |es| ensures TermOf(es[i], Bindings(child'), Columns(child')) == TermOf(es[i], bs, cs) {
      assert TermsOf(es, Bindings(child'), Columns(child'))[i] == TermsOf(es, bs, cs)[i];
    }
    hide Without, DataWithout, TermsOf, TermOf;
    assert RowsOf(p') == RowsOf(p);
    assert Columns(p') == Columns(p);
    PrunedNothing(p, p');
  }

  lemma OrderPruned(orders: seq<Expression>, child: Plan, child': Plan, drop: set<Binding>, refs: set<Binding>)
    requires Resolves(Order(orders, child)) && Pruned(child, child', drop) && ReadIn(orders, refs) && drop !! refs
    ensures Pruned(Order(orders, child), Order(orders, child'), drop)
  {
    hide Without, DataWithout, TermsOf;
    TermsKept(orders, Bindings(child), Columns(child), drop, refs);
  }

  lemma DistinctPruned(targets: seq<Expression>, child: Plan, child': Plan)
    requires Resolves(Distinct(targets, child)) && Pruned(child, child', {})
    ensures Pruned(Distinct(targets, child), Distinct(targets, child'), {})
  {
    SamePruned(child, child');
  }

  lemma SetOperationPruned(table: nat, n: nat, l: Plan, r: Plan, l': Plan, r': Plan)
    requires Pruned(l, l', {}) && Pruned(r, r', {})
    ensures Pruned(SetOperation(table, n, l, r), SetOperation(table, n, l', r'), {})
  {
    SamePruned(l, l');
    SamePruned(r, r');
    hide Without, DataWithout, TermsOf;
    var p, p' := SetOperation(table, n, l, r), SetOperation(table, n, l', r');
    assert RowsOf(p') == RowsOf(p);
    PrunedNothing(p, p');
  }

  /** The positions of the columns that are not unused. */
  function UsedIndexes(bs: seq<Binding>, unused: set<Binding>, n: nat): (at: seq<nat>)
    requires n <= |bs|
    ensures MapOk(n, at) && |at| <= n
  {
    if n == 0 then []
    else if bs[n - 1] in unused then UsedIndexes(bs, unused, n - 1)
    else UsedIndexes(bs, unused, n - 1) + [n - 1]
  }

  lemma PickAppend<T>(xs: seq<T>, at: seq<nat>, k: nat)
    requires MapOk(|xs|, at) && k < |xs|
    ensures MapOk(|xs|, at + [k]) && Pick(xs, at + [k]) == Pick(xs, at) + [xs[k]]
  {
  }

  lemma TakeMore<T>(xs: seq<T>, n: nat)
    requires 0 < n <= |xs|
    ensures xs[..n] == xs[..n - 1] + [xs[n - 1]]
  {
  }

  lemma {:induction false} UsedBindings(bs: seq<Binding>, unused: set<Binding>, n: nat)
    requires n <= |bs|
    ensures Pick(bs, UsedIndexes(bs, unused, n)) == Without(bs[..n], unused)
  {
    if n == 0 {
      assert bs[..0] == [];
    } else {
      hide Without, Pick;
      UsedBindings(bs, unused, n - 1);
      TakeMore(bs, n);
      WithoutAppend(bs[..n - 1], bs[n - 1], unused);
      PickAppend(bs, UsedIndexes(bs, unused, n - 1), n - 1);
    }
  }

  lemma {:induction false} UsedData(bs: seq<Binding>, cs: seq<Term>, unused: set<Binding>, n: nat)
    requires |bs| == |cs| && n <= |bs|
    ensures Pick(cs, UsedIndexes(bs, unused, n)) == DataWithout(bs[..n], cs[..n], unused)
  {
    if n == 0 {
      assert bs[..0] == [] && cs[..0] == [];
    } else {
      hide Without, DataWithout, Pick;
      UsedData(bs, cs, unused, n - 1);
      TakeMore(bs, n);
      TakeMore(cs, n);
      DataAppend(bs[..n - 1], cs[..n - 1], bs[n - 1], cs[n - 1], unused);
      PickAppend(cs, UsedIndexes(bs, unused, n - 1), n - 1);
    }
  }

  /** The projection map that leaves out unused columns; empty if it would leave out none, or all of them. */
  function ProjectionMap(bs: seq<Binding>, unused: set<Binding>): (at: seq<nat>)
    ensures MapOk(|bs|, at)
  {
    var used := UsedIndexes(bs, unused, |bs|);
    if unused == {} || |used| == |bs| then [] else used
  }

  /** A projection map drops some of the unused columns. */
  lemma MapDrops(bs: seq<Binding>, cs: seq<Term>, unused: set<Binding>) returns (drop: set<Binding>)
    requires |bs| == |cs|
    ensures drop <= unused && drop <= BindingSet(bs)
    ensures MapColumns(bs, ProjectionMap(bs, unused)) == Without(bs, drop)
    ensures MapColumns(cs, ProjectionMap(bs, unused)) == DataWithout(bs, cs, drop)
  {
    if ProjectionMap(bs, unused) == [] {
      drop := {};
      WithoutNothing(bs, cs, {});
    } else {
      drop := unused * BindingSet(bs);
      UsedBindings(bs, unused, |bs|);
      UsedData(bs, cs, unused, |bs|);
      assert bs[..|bs|] == bs && cs[..|cs|] == cs;
      WithoutSame(bs, cs, unused, drop);
    }
  }

  lemma KeptBindings(bs: seq<Binding>, drop: set<Binding>)
    ensures BindingSet(Without(bs, drop)) <= BindingSet(bs)
  {
    forall b | b in BindingSet(Without(bs, drop)) ensures b in BindingSet(bs) {
      WithoutMember(bs, drop, b);
      assert b in bs;
    }
  }

  lemma FilterPruned(es: seq<Expression>, child: Plan, child': Plan, drop: set<Binding>, refs: set<Binding>,
                     unused: set<Binding>)
    returns (all: set<Binding>)
    requires Resolves(Filter(es, [], child)) && Pruned(child, child', drop) && ReadIn(es, refs) && drop !! refs
    ensures all <= drop + unused
    ensures Pruned(Filter(es, [], child), Filter(es, ProjectionMap(Bindings(child'), unused), child'), all)
  {
    var bs, cs := Bindings(child), Columns(child);
    TermsKept(es, bs, cs, drop, refs);
    var more := MapDrops(Bindings(child'), Columns(child'), unused);
    all := drop + more;
    WithoutTwice(bs, cs, drop, more);
    KeptBindings(bs, drop);
    hide Without, DataWithout, TermsOf, ProjectionMap, MapColumns;
    assert MapColumns(bs, []) == bs && MapColumns(cs, []) == cs by {
      EmptyMap(bs, cs);
    }
  }

  lemma EmptyMap(bs: seq<Binding>, cs: seq<Term>)
    ensures MapColumns(bs, []) == bs && MapColumns(cs, []) == cs
  {
  }

  ghost predicate ConditionsIn(conditions: seq<Condition>, refs: set<Binding>) {
    forall i | 0 <= i < |conditions| :: ReadIn([conditions[i].left], refs) && ReadIn([conditions[i].right], refs)
  }

  lemma ConditionsKept(kind: JoinKind, mark: nat, conditions: seq<Condition>, projection: seq<nat>, l: Plan, r: Plan,
                       l': Plan, r': Plan, dl: set<Binding>, dr: set<Binding>, refs: set<Binding>)
    requires Resolves(Join(kind, mark, conditions, [], l, r)) && Pruned(l, l', dl) && Pruned(r, r', dr)
    requires ConditionsIn(conditions, refs) && dl !! refs && dr !! refs
    ensures RowsOf(Join(kind, mark, conditions, projection, l', r')) == RowsOf(Join(kind, mark, conditions, [], l, r))
    ensures Resolves(Join(kind, mark, conditions, projection, l', r'))
  {
    hide Without, DataWithout;
    forall i | 0 <= i < |conditions|
      ensures TermOf(conditions[i].left, Bindings(l'), Columns(l')) ==
              TermOf(conditions[i].left, Bindings(l), Columns(l))
      ensures TermOf(conditions[i].right, Bindings(r'), Columns(r')) ==
              TermOf(conditions[i].right, Bindings(r), Columns(r))
      ensures Resolved(conditions[i].left, Bindings(l')) && Resolved(conditions[i].right, Bindings(r'))
    {
      ConditionRead(conditions, refs, i);
      TermKept(conditions[i].left, Bindings(l), Columns(l), dl);
      TermKept(conditions[i].right, Bindings(r), Columns(r), dr);
    }
    hide TermOf, Resolved;
  }

  lemma ConditionRead(conditions: seq<Condition>, refs: set<Binding>, i: nat)
    requires ConditionsIn(conditions, refs) && i < |conditions|
    ensures forall k | 0 <= k < |conditions[i].left.columns| :: conditions[i].left.columns[k] in refs
    ensures forall k | 0 <= k < |conditions[i].right.columns| :: conditions[i].right.columns[k] in refs
  {
    assert [conditions[i].left][0] == conditions[i].left && [conditions[i].right][0] == conditions[i].right;
  }

  /** A join whose right side loses columns of its own. */
  lemma BothPruned(mark: nat, conditions: seq<Condition>, l: Plan, r: Plan, l': Plan, r': Plan, dl: set<Binding>,
                   dr: set<Binding>, refs: set<Binding>, unused: set<Binding>) returns (all: set<Binding>)
    requires Resolves(Join(Both, mark, conditions, [], l, r)) && WellFormed(Join(Both, mark, conditions, [], l, r))
    requires Pruned(l, l', dl) && Pruned(r, r', dr) && ConditionsIn(conditions, refs) && dl !! refs && dr !! refs
    ensures all <= dl + dr + unused
    ensures Pruned(Join(Both, mark, conditions, [], l, r),
                   Join(Both, mark, conditions, ProjectionMap(Bindings(r'), unused), l', r'), all)
  {
    hide Without, DataWithout, RowsOf, Resolves, ProjectionMap, MapColumns;
    ConditionsKept(Both, mark, conditions, ProjectionMap(Bindings(r'), unused), l, r, l', r', dl, dr, refs);
    all := JoinDrops(Bindings(l), Columns(l), Bindings(r), Columns(r), dl, dr, unused);
    EmptyMap(Bindings(r), Columns(r));
  }

  /** What a join's sides and its projection map drop together. */
  lemma JoinDrops(bl: seq<Binding>, cl: seq<Term>, br: seq<Binding>, cr: seq<Term>, dl: set<Binding>, dr: set<Binding>,
                  unused: set<Binding>) returns (all: set<Binding>)
    requires |bl| == |cl| && |br| == |cr| && dl <= BindingSet(bl) && dr <= BindingSet(br)
    requires BindingSet(bl) !! BindingSet(br)
    ensures all <= dl + dr + unused && all <= BindingSet(bl + br)
    ensures Without(bl, dl) + MapColumns(Without(br, dr), ProjectionMap(Without(br, dr), unused)) ==
            Without(bl + br, all)
    ensures DataWithout(bl, cl, dl) + MapColumns(DataWithout(br, cr, dr), ProjectionMap(Without(br, dr), unused)) ==
            DataWithout(bl + br, cl + cr, all)
  {
    hide Without, DataWithout, ProjectionMap, MapColumns;
    var dm := MapDrops(Without(br, dr), DataWithout(br, cr, dr), unused);
    KeptBindings(br, dr);
    all := dl + (dr + dm);
    WithoutTwice(br, cr, dr, dm);
    DropsSplit(bl, cl, br, cr, dl, dr + dm);
    JoinedBindings(bl, br);
  }

  lemma JoinedBindings(a: seq<Binding>, b: seq<Binding>)
    ensures BindingSet(a + b) == BindingSet(a) + BindingSet(b)
  {
    forall x | x in BindingSet(a) + BindingSet(b) ensures x in BindingSet(a + b) {
      assert x in a + b;
    }
  }

  /** Columns of one side of a join are not among those dropped from the other. */
  lemma DropsSplit(bs: seq<Binding>, cs: seq<Term>, bs': seq<Binding>, cs': seq<Term>, drop: set<Binding>,
                   drop': set<Binding>)
    requires |bs| == |cs| && |bs'| == |cs'| && drop <= BindingSet(bs) && drop' <= BindingSet(bs')
    requires BindingSet(bs) !! BindingSet(bs')
    ensures Without(bs + bs', drop + drop') == Without(bs, drop) + Without(bs', drop')
    ensures DataWithout(bs + bs', cs + cs', drop + drop') == DataWithout(bs, cs, drop) + DataWithout(bs', cs', drop')
  {
    WithoutConcat(bs, bs', drop + drop');
    DataConcat(bs, cs, bs', cs', drop + drop');
    WithoutSame(bs, cs, drop + drop', drop);
    WithoutSame(bs', cs', drop + drop', drop');
  }

  /** A join that outputs its left side, perhaps with a mark. */
  lemma LeftPruned(kind: JoinKind, mark: nat, conditions: seq<Condition>, l: Plan, r: Plan, l': Plan, r': Plan,
                   dl: set<Binding>, dr: set<Binding>, refs: set<Binding>)
    requires Resolves(Join(kind, mark, conditions, [], l, r)) && WellFormed(Join(kind, mark, conditions, [], l, r))
    requires !kind.Both?
    requires Pruned(l, l', dl) && Pruned(r, r', dr) && ConditionsIn(conditions, refs) && dl !! refs && dr !! refs
    ensures Pruned(Join(kind, mark, conditions, [], l, r), Join(kind, mark, conditions, [], l', r'), dl)
  {
    ConditionsKept(kind, mark, conditions, [], l, r, l', r', dl, dr, refs);
    hide Without, DataWithout, RowsOf, Resolves;
    if kind.Mark? {
      MarkPruned(Bindings(l), Columns(l), Binding(mark, 0), Marked(RowsOf(Join(kind, mark, conditions, [], l, r))), dl);
    }
  }

  lemma MarkPruned(bs: seq<Binding>, cs: seq<Term>, mark: Binding, data: Term, drop: set<Binding>)
    requires |bs| == |cs| && mark !in BindingSet(bs) && drop <= BindingSet(bs)
    ensures Without(bs + [mark], drop) == Without(bs, drop) + [mark]
    ensures DataWithout(bs + [mark], cs + [data], drop) == DataWithout(bs, cs, drop) + [data]
    ensures drop <= BindingSet(bs + [mark])
  {
    WithoutAppend(bs, mark, drop);
    DataAppend(bs, cs, mark, data, drop);
    JoinedBindings(bs, [mark]);
  }

  predicate HasEquality(conditions: seq<Condition>) {
    exists i :: 0 <= i < |conditions| && conditions[i].equality
  }

  // ---------- which columns are needed ----------

  /** The columns needed above an operator: all of them, or those that are referred to. */
  datatype Need = Need(all: bool, refs: set<Binding>) {
    function Plus(more: set<Binding>): Need {
      Need(all, refs + more)
    }

    function And(more: Need): Need {
      Need(all || more.all, refs + more.refs)
    }
  }

  function ColumnsOf(es: seq<Expression>): set<Binding> {
    set i, k | 0 <= i < |es| && 0 <= k < |es[i].columns| :: es[i].columns[k]
  }

  function ConditionColumns(conditions: seq<Condition>): set<Binding> {
    set i, b | 0 <= i < |conditions| && b in ColumnsOf([conditions[i].left, conditions[i].right]) :: b
  }

  /** What an operator and those below it refer to, down to the next projection, aggregate or set operation. */
  function Exposed(p: Plan): Need {
    match p
    case Get(_, _) => Need(false, {})
    case Projection(_, _, _) => Need(false, {})
    case Aggregate(_, _, _, _, _) => Need(false, {})
    case SetOperation(_, _, _, _) => Need(false, {})
    case Filter(es, _, child) => Exposed(child).Plus(ColumnsOf(es))
    case Order(orders, child) => Exposed(child).Plus(ColumnsOf(orders))
    case Distinct(targets, child) => Need(true, Exposed(child).refs + ColumnsOf(targets))
    case Join(_, _, conditions, _, l, r) => Exposed(l).And(Exposed(r)).Plus(ConditionColumns(conditions))
  }

  /** A map keeps exactly the needed columns, or all of them if none is needed; one that keeps all is empty. */
  ghost predicate KeepsNeeded(bs: seq<Binding>, projectionMap: seq<nat>, n: Need) {
    && MapColumns(bs, projectionMap) ==
       (if n.all || (forall i | 0 <= i < |bs| :: bs[i] !in n.refs) then bs else Without(bs, BindingSet(bs) - n.refs))
    && (projectionMap == [] <==> MapColumns(bs, projectionMap) == bs)
  }

  /**
   * The pruned plan is the plan with projection maps that leave out exactly the columns that are not needed above. The
   * root and the inputs of DISTINCT and set operations need all columns, and projections and aggregates what they read.
   * If `leaks`, the right side of a join also needs what the left side exposes.
   */
  ghost predicate Exact(p: Plan, p': Plan, n: Need, leaks: bool) {
    match p
    case Get(_, _) => p' == p
    case Projection(table, es, child) =>
      && p'.Projection? && p' == Projection(table, es, p'.child)
      && Exact(child, p'.child, Need(false, ColumnsOf(es)), leaks)
    case Aggregate(g, a, groups, es, child) =>
      && p'.Aggregate? && p' == Aggregate(g, a, groups, es, p'.child)
      && Exact(child, p'.child, Need(false, ColumnsOf(groups) + ColumnsOf(es)), leaks)
    case SetOperation(table, count, l, r) =>
      && p'.SetOperation? && p' == SetOperation(table, count, p'.left, p'.right)
      && Exact(l, p'.left, Need(true, {}), leaks) && Exact(r, p'.right, Need(true, {}), leaks)
    case Distinct(targets, child) =>
      && p'.Distinct? && p' == Distinct(targets, p'.child)
      && Exact(child, p'.child, Need(true, n.refs + ColumnsOf(targets)), leaks)
    case Order(orders, child) =>
      p'.Order? && p' == Order(orders, p'.child) && Exact(child, p'.child, n.Plus(ColumnsOf(orders)), leaks)
    case Filter(es, _, child) =>
      && p'.Filter? && p' == Filter(es, p'.projectionMap, p'.child)
      && Exact(child, p'.child, n.Plus(ColumnsOf(es)), leaks) && KeepsNeeded(Bindings(p'.child), p'.projectionMap, n)
    case Join(kind, mark, conditions, _, l, r) =>
      var below := n.Plus(ConditionColumns(conditions));
      && p'.Join? && p' == Join(kind, mark, conditions, p'.rightMap, p'.left, p'.right)
      && Exact(l, p'.left, below, leaks)
      && Exact(r, p'.right, if leaks then below.And(Exposed(l)) else below, leaks)
      && if kind.Both? && HasEquality(conditions) then KeepsNeeded(Bindings(p'.right), p'.rightMap, n)
         else p'.rightMap == []
  }

  /** The map that is generated from the unused columns keeps the needed ones. */
  lemma MapKeepsNeeded(bs: seq<Binding>, all: seq<Binding>, n: Need)
    requires BindingSet(bs) <= BindingSet(all)
    ensures KeepsNeeded(bs, ProjectionMap(bs, if n.all then {} else BindingSet(all) - n.refs), n)
  {
    var unused := if n.all then {} else BindingSet(all) - n.refs;
    var used := UsedIndexes(bs, unused, |bs|);
    UsedBindings(bs, unused, |bs|);
    assert bs[..|bs|] == bs;
    forall i | 0 <= i < |bs| ensures bs[i] in BindingSet(all) {
      assert bs[i] in BindingSet(bs);
    }
    if !n.all {
      UsedNone(bs, unused, |bs|);
      UsedAll(bs, unused, |bs|);
      WithoutSame(bs, seq(|bs|, _ => Unknown), unused, BindingSet(bs) - n.refs);
      if forall i | 0 <= i < |bs| :: bs[i] in n.refs {
        WithoutNothing(bs, seq(|bs|, _ => Unknown), BindingSet(bs) - n.refs);
      }
    }
  }

  lemma {:induction false} UsedNone(bs: seq<Binding>, unused: set<Binding>, n: nat)
    requires n <= |bs|
    ensures UsedIndexes(bs, unused, n) == [] <==> forall i | 0 <= i < n :: bs[i] in unused
  {
    if n > 0 {
      UsedNone(bs, unused, n - 1);
    }
  }

  lemma {:induction false} UsedAll(bs: seq<Binding>, unused: set<Binding>, n: nat)
    requires n <= |bs|
    ensures |UsedIndexes(bs, unused, n)| == n <==> forall i | 0 <= i < n :: bs[i] !in unused
  {
    if n > 0 {
      UsedAll(bs, unused, n - 1);
    }
  }

  lemma ReadInColumns(es: seq<Expression>, refs: set<Binding>)
    ensures ReadIn(es, refs) <==> ColumnsOf(es) <= refs
  {
  }

  lemma ConditionsInColumns(conditions: seq<Condition>, refs: set<Binding>)
    requires ConditionColumns(conditions) <= refs
    ensures ConditionsIn(conditions, refs)
  {
    forall i | 0 <= i < |conditions|
      ensures ReadIn([conditions[i].left], refs) && ReadIn([conditions[i].right], refs)
    {
      var both := [conditions[i].left, conditions[i].right];
      forall b | b in ColumnsOf(both) ensures b in refs {
        assert b in ConditionColumns(conditions);
      }
      assert both[0] == conditions[i].left && both[1] == conditions[i].right;
      assert ColumnsOf([conditions[i].left]) <= ColumnsOf(both) && ColumnsOf([conditions[i].right]) <= ColumnsOf(both);
    }
  }

  lemma NeedLaws(n: Need, m: Need, a: set<Binding>)
    ensures n.And(Need(false, {})) == n && Need(false, {} + a) == Need(false, a)
    ensures n.Plus(a).And(m) == n.And(m.Plus(a))
  {
  }

  lemma JoinNeeds(n: Need, l: Need, r: Need, a: set<Binding>)
    ensures n.Plus(a).And(l).And(r) == n.And(l.And(r).Plus(a))
  {
  }

  lemma PrunedBindings(p: Plan, p': Plan, drop: set<Binding>)
    requires Pruned(p, p', drop)
    ensures BindingSet(Bindings(p')) <= BindingSet(Bindings(p))
  {
    KeptBindings(Bindings(p), drop);
  }

  class ColumnLifetimeAnalyzer {
    var everythingReferenced: bool
    var columnReferences: set<Binding>

    constructor (isRoot: bool)
      ensures everythingReferenced == isRoot && columnReferences == {}
    {
      everythingReferenced, columnReferences := isRoot, {};
    }

    /** What is needed above the operator that is visited next. */
    ghost function Needed(): Need
      reads this
    {
      Need(everythingReferenced, columnReferences)
    }

    /** Records the columns that some expressions refer to. */
    method VisitExpressions(es: seq<Expression>)
      modifies this`columnReferences
      ensures columnReferences == old(columnReferences) + ColumnsOf(es)
    {
      for i := 0 to |es|
        invariant columnReferences == old(columnReferences) + ColumnsOf(es[..i])
      {
        ghost var before := columnReferences;
        for k := 0 to |es[i].columns|
          invariant forall b :: b in columnReferences <==> b in before || b in es[i].columns[..k]
        {
          columnReferences := columnReferences + {es[i].columns[k]};
        }
        assert es[i].columns[..|es[i].columns|] == es[i].columns;
        assert es[..i + 1] == es[..i] + [es[i]];
      }
      assert es[..|es|] == es;
    }

    method VisitConditions(conditions: seq<Condition>)
      modifies this`columnReferences
      ensures columnReferences == old(columnReferences) + ConditionColumns(conditions)
    {
      for i := 0 to |conditions|
        invariant columnReferences == old(columnReferences) + ConditionColumns(conditions[..i])
      {
        VisitExpressions([conditions[i].left, conditions[i].right]);
        assert conditions[..i + 1] == conditions[..i] + [conditions[i]];
      }
      assert conditions[..|conditions|] == conditions;
    }

    /** The columns that nothing seen so far refers to. */
    method ExtractUnusedColumnBindings(bindings: seq<Binding>) returns (unused: set<Binding>)
      ensures unused == BindingSet(bindings) - columnReferences
    {
      unused := {};
      for i := 0 to |bindings|
        invariant forall b :: b in unused <==> b !in columnReferences && exists k :: 0 <= k < i && bindings[k] == b
      {
        if bindings[i] !in columnReferences {
          unused := unused + {bindings[i]};
        }
      }
    }

    /** The positions of the columns that are kept, or nothing if that is all of them or none. */
    static method GenerateProjectionMap(bindings: seq<Binding>, unused: set<Binding>) returns (projectionMap: seq<nat>)
      ensures projectionMap == ProjectionMap(bindings, unused)
    {
      projectionMap := [];
      if unused == {} {
        return;
      }
      for i := 0 to |bindings|
        invariant projectionMap == UsedIndexes(bindings, unused, i)
      {
        if bindings[i] !in unused {
          projectionMap := projectionMap + [i];
        }
      }
      if |projectionMap| == |bindings| {
        projectionMap := [];
      }
    }

    /**
     * What visiting an operator leaves: nothing referred to above it is dropped, and nothing at all if everything is.
     */
    ghost predicate Kept(everything: bool, refs: set<Binding>, drop: set<Binding>)
      reads this
    {
      && refs <= columnReferences && (everything ==> everythingReferenced)
      && drop !! refs && (everything ==> drop == {})
    }

    /**
     * Drops exactly the columns that are not needed from the outputs of filters and equality joins. The pruned plan
     * still resolves; it has the same rows, and every column it kept holds the same data.
     */
    method VisitOperator(p: Plan) returns (p': Plan, ghost drop: set<Binding>)
      requires WellFormed(p) && Resolves(p)
      modifies this
      ensures Pruned(p, p', drop) && Kept(old(everythingReferenced), old(columnReferences), drop)
      ensures Exact(p, p', old(Needed()), true) && Needed() == old(Needed()).And(Exposed(p))
      decreases p, 2
    {
      hide Pruned, ColumnsOf, ConditionColumns;
      NeedLaws(Needed(), Needed(), {});
      match p
      case Get(_, _) =>
        p', drop := p, {};
        PrunedNothing(p, p);
      case Projection(table, es, child) =>
        var analyzer := new ColumnLifetimeAnalyzer(false);
        analyzer.VisitExpressions(es);
        ghost var refs := analyzer.columnReferences;
        ReadInColumns(es, refs);
        NeedLaws(Needed(), Needed(), ColumnsOf(es));
        var child';
        ghost var d;
        child', d := analyzer.VisitOperator(child);
        p', drop := Projection(table, es, child'), {};
        ProjectionPruned(table, es, child, child', d, refs);
      case Aggregate(g, a, groups, es, child) =>
        p', drop := VisitAggregate(g, a, groups, es, child);
      case SetOperation(table, n, l, r) =>
        var first := new ColumnLifetimeAnalyzer(true);
        var l', r';
        ghost var dl, dr;
        l', dl := first.VisitOperator(l);
        var second := new ColumnLifetimeAnalyzer(true);
        r', dr := second.VisitOperator(r);
        p', drop := SetOperation(table, n, l', r'), {};
        SetOperationPruned(table, n, l, r, l', r');
      case Distinct(targets, child) =>
        ghost var n := Needed();
        everythingReferenced := true;
        VisitExpressions(targets);
        NeedLaws(Need(true, n.refs), Exposed(child), ColumnsOf(targets));
        var child';
        child', drop := VisitOperator(child);
        p' := Distinct(targets, child');
        DistinctPruned(targets, child, child');
      case Order(orders, child) =>
        NeedLaws(Needed(), Exposed(child), ColumnsOf(orders));
        VisitExpressions(orders);
        ghost var refs := columnReferences;
        ReadInColumns(orders, refs);
        var child';
        child', drop := VisitOperator(child);
        p' := Order(orders, child');
        OrderPruned(orders, child, child', drop, refs);
      case Filter(es, _, child) =>
        p', drop := VisitFilter(es, child);
      case Join(kind, mark, conditions, _, l, r) =>
        p', drop := VisitJoin(kind, mark, conditions, l, r);
    }

    method VisitAggregate(g: nat, a: nat, groups: seq<Expression>, es: seq<Expression>, child: Plan)
      returns (p': Plan, ghost drop: set<Binding>)
      requires WellFormed(child) && Resolves(Aggregate(g, a, groups, es, child))
      ensures Pruned(Aggregate(g, a, groups, es, child), p', drop) && drop == {}
      ensures forall n :: Exact(Aggregate(g, a, groups, es, child), p', n, true)
      decreases child, 3
    {
      hide Pruned, ColumnsOf;
      var analyzer := new ColumnLifetimeAnalyzer(false);
      analyzer.VisitExpressions(groups);
      analyzer.VisitExpressions(es);
      ghost var refs := analyzer.columnReferences;
      assert refs == ColumnsOf(groups) + ColumnsOf(es);
      ReadInColumns(groups, refs);
      ReadInColumns(es, refs);
      var child';
      ghost var d;
      child', d := analyzer.VisitOperator(child);
      p', drop := Aggregate(g, a, groups, es, child'), {};
      AggregatePruned(g, a, groups, es, child, child', d, refs);
    }

    method VisitFilter(es: seq<Expression>, child: Plan) returns (p': Plan, ghost drop: set<Binding>)
      requires WellFormed(child) && Resolves(Filter(es, [], child))
      modifies this
      ensures Pruned(Filter(es, [], child), p', drop) && Kept(old(everythingReferenced), old(columnReferences), drop)
      ensures Exact(Filter(es, [], child), p', old(Needed()), true)
      ensures Needed() == old(Needed()).And(Exposed(Filter(es, [], child)))
      decreases child, 3
    {
      hide Pruned, ColumnsOf, KeepsNeeded;
      ghost var n := Needed();
      var unused: set<Binding> := {};
      if !everythingReferenced {
        unused := ExtractUnusedColumnBindings(Bindings(child));
      }
      VisitExpressions(es);
      ghost var refs := columnReferences;
      ReadInColumns(es, refs);
      NeedLaws(n, Exposed(child), ColumnsOf(es));
      var child';
      ghost var d;
      child', d := VisitOperator(child);
      PrunedBindings(child, child', d);
      MapKeepsNeeded(Bindings(child'), Bindings(child), n);
      var projectionMap := GenerateProjectionMap(Bindings(child'), unused);
      p' := Filter(es, projectionMap, child');
      drop := FilterPruned(es, child, child', d, refs, unused);
    }

    /** Visits both sides of a join, the left one first. */
    method VisitSides(p: Plan) returns (l': Plan, ghost dl: set<Binding>, r': Plan, ghost dr: set<Binding>)
      requires p.Join? && WellFormed(p) && Resolves(p)
      modifies this
      ensures Pruned(p.left, l', dl) && Pruned(p.right, r', dr)
      ensures var below := old(Needed()).Plus(ConditionColumns(p.conditions));
        && Kept(below.all, below.refs, dl) && Kept(below.all, below.refs, dr)
        && Exact(p.left, l', below, true) && Exact(p.right, r', below.And(Exposed(p.left)), true)
        && Needed() == below.And(Exposed(p.left)).And(Exposed(p.right))
      decreases p, 0
    {
      hide Pruned, Exact, ConditionColumns, Exposed;
      VisitConditions(p.conditions);
      l', dl := VisitOperator(p.left);
      r', dr := VisitOperator(p.right);
    }

    method VisitJoin(kind: JoinKind, mark: nat, conditions: seq<Condition>, l: Plan, r: Plan)
      returns (p': Plan, ghost drop: set<Binding>)
      requires WellFormed(Join(kind, mark, conditions, [], l, r)) && Resolves(Join(kind, mark, conditions, [], l, r))
      modifies this
      ensures Pruned(Join(kind, mark, conditions, [], l, r), p', drop)
      ensures Kept(old(everythingReferenced), old(columnReferences), drop)
      ensures Exact(Join(kind, mark, conditions, [], l, r), p', old(Needed()), true)
      ensures Needed() == old(Needed()).And(Exposed(Join(kind, mark, conditions, [], l, r)))
      decreases Join(kind, mark, conditions, [], l, r), 1
    {
      hide Pruned, ConditionColumns, KeepsNeeded;
      ghost var n := Needed();
      ghost var refs := n.Plus(ConditionColumns(conditions)).refs;
      var unused: set<Binding> := {};
      if !everythingReferenced && kind.Both? && HasEquality(conditions) {
        unused := ExtractUnusedColumnBindings(Bindings(r));
      }
      ConditionsInColumns(conditions, refs);
      JoinNeeds(n, Exposed(l), Exposed(r), ConditionColumns(conditions));
      var l', r';
      ghost var dl, dr;
      l', dl, r', dr := VisitSides(Join(kind, mark, conditions, [], l, r));
      if kind.Both? {
        var rightMap := GenerateProjectionMap(Bindings(r'), unused);
        p' := Join(kind, mark, conditions, rightMap, l', r');
        drop := BothPruned(mark, conditions, l, r, l', r', dl, dr, refs, unused);
        PrunedBindings(r, r', dr);
        MapKeepsNeeded(Bindings(r'), Bindings(r), n);
      } else {
        p', drop := Join(kind, mark, conditions, [], l', r'), dl;
        LeftPruned(kind, mark, conditions, l, r, l', r', dl, dr, refs);
      }
    }
  }

  /**
   * The root outputs all its columns: pruning a whole plan changes neither its rows nor its columns, and it resolves.
   * Its filters and equality joins leave out exactly the columns that are not needed above them.
   */
  method PruneColumns(p: Plan) returns (p': Plan)
    requires WellFormed(p) && Resolves(p)
    ensures Resolves(p') && Bindings(p') == Bindings(p) && Columns(p') == Columns(p) && RowsOf(p') == RowsOf(p)
    ensures Exact(p, p', Need(true, {}), true)
  {
    var analyzer := new ColumnLifetimeAnalyzer(true);
    ghost var drop;
    p', drop := analyzer.VisitOperator(p);
    SamePruned(p, p');
  }

  class ColumnBindingResolver {
    var bindings: seq<Binding>

    constructor ()
    {
      bindings := [];
    }

    /** The position of the first column with a binding. */
    method ResolveReference(b: Binding) returns (index: Option<nat>)
      ensures index.None? <==> b !in bindings
      ensures index.Some? ==> index.value < |bindings| && bindings[index.value] == b && b !in bindings[..index.value]
      ensures forall cs: seq<Term> | |cs| == |bindings| ::
        LookUp(bindings, cs, b) == if index.Some? then cs[index.value] else Unknown
    {
      index := None;
      for i := 0 to |bindings|
        invariant b !in bindings[..i]
      {
        if b == bindings[i] {
          index := Some(i);
          forall cs: seq<Term> | |cs| == |bindings| ensures LookUp(bindings, cs, b) == cs[i] {
            LookUpFirst(bindings, cs, b, i);
          }
          return;
        }
      }
      assert bindings[..|bindings|] == bindings;
      forall cs: seq<Term> | |cs| == |bindings| ensures LookUp(bindings, cs, b) == Unknown {
        LookUpMissing(bindings, cs, b);
      }
    }

    method VisitExpression(e: Expression) returns (ok: bool)
      ensures ok <==> Resolved(e, bindings)
    {
      for i := 0 to |e.columns|
        invariant forall k | 0 <= k < i :: e.columns[k] in bindings
      {
        var index := ResolveReference(e.columns[i]);
        if index.None? {
          return false;
        }
      }
      return true;
    }

    method VisitExpressions(es: seq<Expression>) returns (ok: bool)
      ensures ok <==> AllResolved(es, bindings)
    {
      for i := 0 to |es|
        invariant forall k | 0 <= k < i :: Resolved(es[k], bindings)
      {
        var found := VisitExpression(es[i]);
        if !found {
          return false;
        }
      }
      return true;
    }

    method VisitSide(conditions: seq<Condition>, left: bool) returns (ok: bool)
      ensures ok <==> forall i | 0 <= i < |conditions| ::
        Resolved(if left then conditions[i].left else conditions[i].right, bindings)
    {
      for i := 0 to |conditions|
        invariant forall k | 0 <= k < i :: Resolved(if left then conditions[k].left else conditions[k].right, bindings)
      {
        var found := VisitExpression(if left then conditions[i].left else conditions[i].right);
        if !found {
          return false;
        }
      }
      return true;
    }

    /** Resolves a plan from its leaves up; fails exactly if some column reference is not found. */
    method VisitOperator(p: Plan) returns (ok: bool)
      modifies this
      ensures ok <==> Resolves(p)
      ensures ok ==> bindings == Bindings(p)
      decreases p, 1
    {
      match p {
        case Get(_, _) =>
          ok := true;
        case Projection(_, es, child) =>
          ok := VisitOperator(child);
          if ok {
            ok := VisitExpressions(es);
          }
        case Aggregate(_, _, groups, es, child) =>
          ok := VisitOperator(child);
          if ok {
            ok := VisitExpressions(groups);
          }
          if ok {
            ok := VisitExpressions(es);
          }
        case Filter(es, _, child) =>
          ok := VisitOperator(child);
          if ok {
            ok := VisitExpressions(es);
          }
        case Distinct(targets, child) =>
          ok := VisitOperator(child);
          if ok {
            ok := VisitExpressions(targets);
          }
        case Order(orders, child) =>
          ok := VisitOperator(child);
          if ok {
            ok := VisitExpressions(orders);
          }
        case SetOperation(_, _, l, r) =>
          ok := VisitOperator(l);
          if ok {
            ok := VisitOperator(r);
          }
        case Join(_, _, _, _, _, _) =>
          ok := VisitJoin(p);
      }
      bindings := Bindings(p);
    }

    method VisitJoin(p: Plan) returns (ok: bool)
      requires p.Join?
      modifies this
      ensures ok <==> Resolves(p)
      decreases p, 0
    {
      ok := VisitOperator(p.left);
      if ok {
        ok := VisitSide(p.conditions, true);
      }
      if ok {
        ok := VisitOperator(p.right);
      }
      if ok {
        ok := VisitSide(p.conditions, false);
      }
    }
  }

  lemma {:induction false} LookUpFirst(bs: seq<Binding>, cs: seq<Term>, b: Binding, i: nat)
    requires |bs| == |cs| && i < |bs| && bs[i] == b && b !in bs[..i]
    ensures LookUp(bs, cs, b) == cs[i]
  {
    var n := |bs| - 1;
    if i < n {
      assert bs[..n][i] == b && bs[..n][..i] == bs[..i];
      LookUpFirst(bs[..n], cs[..n], b, i);
    }
  }
}
