/**
 * When column pruning leaves out every column that no operator above needs. The analyzer visits the sides of a join one
 * after the other with the same references, so that a DISTINCT on the left keeps all columns on the right
 * (src/optimizer/column_lifetime_analyzer.cpp:38-47, 110-116).
 */
module ColumnNeeds {
  import opened ColumnLifetime

  /** The columns of an operator and those below it, down to the next projection, aggregate or set operation. */
  function Scope(p: Plan): set<Binding> {
    match p
    case Get(_, _) => BindingSet(Bindings(p))
    case Projection(_, _, _) => BindingSet(Bindings(p))
    case Aggregate(_, _, _, _, _) => BindingSet(Bindings(p))
    case SetOperation(_, _, _, _) => BindingSet(Bindings(p))
    case Filter(_, _, child) => Scope(child)
    case Order(_, child) => Scope(child)
    case Distinct(_, child) => Scope(child)
    case Join(_, mark, _, _, l, r) => Scope(l) + Scope(r) + {Binding(mark, 0)}
  }

  /** Nothing on the left of a join refers to columns on its right; the binder gives every table its own index. */
  ghost predicate Separate(p: Plan) {
    match p
    case Get(_, _) => true
    case Projection(_, _, child) => Separate(child)
    case Aggregate(_, _, _, _, child) => Separate(child)
    case SetOperation(_, _, l, r) => Separate(l) && Separate(r)
    case Filter(_, _, child) => Separate(child)
    case Order(_, child) => Separate(child)
    case Distinct(_, child) => Separate(child)
    case Join(_, _, _, _, l, r) => Separate(l) && Separate(r) && Exposed(l).refs !! Scope(r)
  }

  /** Some columns are needed and others are not. */
  ghost predicate Partial(bs: seq<Binding>, n: Need) {
    !n.all && (exists i | 0 <= i < |bs| :: bs[i] in n.refs) && (exists i | 0 <= i < |bs| :: bs[i] !in n.refs)
  }

  /** A filter or equality join outputs columns that are not needed, due to a DISTINCT on the left of a join above. */
  ghost predicate Affected(p: Plan, leaked: bool, n: Need) {
    match p
    case Get(_, _) => false
    case Projection(_, es, child) => Affected(child, false, Need(false, ColumnsOf(es)))
    case Aggregate(_, _, groups, es, child) => Affected(child, false, Need(false, ColumnsOf(groups) + ColumnsOf(es)))
    case SetOperation(_, _, l, r) => Affected(l, false, Need(true, {})) || Affected(r, false, Need(true, {}))
    case Distinct(targets, child) => Affected(child, leaked, Need(true, n.refs + ColumnsOf(targets)))
    case Order(orders, child) => Affected(child, leaked, n.Plus(ColumnsOf(orders)))
    case Filter(es, _, child) =>
      (leaked && Partial(Bindings(child), n)) || Affected(child, leaked, n.Plus(ColumnsOf(es)))
    case Join(kind, _, conditions, _, l, r) =>
      var below := n.Plus(ConditionColumns(conditions));
      || (leaked && kind.Both? && HasEquality(conditions) && Partial(Bindings(r), n))
      || Affected(l, leaked, below) || Affected(r, leaked || Exposed(l).all, below)
  }

  lemma {:induction false} BindingsInScope(p: Plan)
    requires WellFormed(p)
    ensures BindingSet(Bindings(p)) <= Scope(p)
  {
    match p
    case Get(_, _) =>
    case Projection(_, _, _) =>
    case Aggregate(_, _, _, _, _) =>
    case SetOperation(_, _, _, _) =>
    case Filter(_, _, child) => BindingsInScope(child);
    case Order(_, child) => BindingsInScope(child);
    case Distinct(_, child) => BindingsInScope(child);
    case Join(_, mark, _, _, l, r) =>
      BindingsInScope(l);
      BindingsInScope(r);
      JoinedBindings(Bindings(l), Bindings(r));
      JoinedBindings(Bindings(l), [Binding(mark, 0)]);
      assert [Binding(mark, 0)][0] == Binding(mark, 0);
      assert BindingSet([Binding(mark, 0)]) == {Binding(mark, 0)};
  }

  lemma KeptAreThere(bs: seq<Binding>, projectionMap: seq<nat>, n: Need)
    requires KeepsNeeded(bs, projectionMap, n)
    ensures BindingSet(MapColumns(bs, projectionMap)) <= BindingSet(bs)
    ensures n.all ==> MapColumns(bs, projectionMap) == bs
  {
    KeptBindings(bs, BindingSet(bs) - n.refs);
  }

  /** Pruning adds no column, and where all columns are needed it takes none. */
  lemma {:induction false} ExactBindings(p: Plan, p': Plan, n: Need, leaks: bool)
    requires WellFormed(p) && Exact(p, p', n, leaks)
    ensures BindingSet(Bindings(p')) <= BindingSet(Bindings(p)) && (n.all ==> Bindings(p') == Bindings(p))
    decreases p, 1
  {
    hide KeepsNeeded, ColumnsOf, ConditionColumns, MapColumns;
    match p
    case Get(_, _) =>
    case Projection(_, _, _) =>
    case Aggregate(_, _, _, _, _) =>
    case SetOperation(_, _, _, _) =>
    case Distinct(targets, child) => ExactBindings(child, p'.child, Need(true, n.refs + ColumnsOf(targets)), leaks);
    case Order(orders, child) => ExactBindings(child, p'.child, n.Plus(ColumnsOf(orders)), leaks);
    case Filter(es, _, child) =>
      ExactBindings(child, p'.child, n.Plus(ColumnsOf(es)), leaks);
      KeptAreThere(Bindings(p'.child), p'.projectionMap, n);
      EmptyMap(Bindings(child), Columns(child));
    case Join(_, _, _, _, _, _) => ExactJoinBindings(p, p', n, leaks);
  }

  lemma ExactJoinBindings(p: Plan, p': Plan, n: Need, leaks: bool)
    requires WellFormed(p) && Exact(p, p', n, leaks) && p.Join?
    ensures BindingSet(Bindings(p')) <= BindingSet(Bindings(p)) && (n.all ==> Bindings(p') == Bindings(p))
    decreases p, 0
  {
    hide KeepsNeeded, ColumnsOf, ConditionColumns, MapColumns;
    var below := n.Plus(ConditionColumns(p.conditions));
    ExactBindings(p.left, p'.left, below, leaks);
    ExactBindings(p.right, p'.right, if leaks then below.And(Exposed(p.left)) else below, leaks);
    EmptyMap(Bindings(p.right), Columns(p.right));
    EmptyMap(Bindings(p'.right), Columns(p'.right));
    if p.kind.Both? && HasEquality(p.conditions) {
      KeptAreThere(Bindings(p'.right), p'.rightMap, n);
    }
    JoinedBindings(Bindings(p.left), Bindings(p.right));
    JoinedBindings(Bindings(p'.left), MapColumns(Bindings(p'.right), p'.rightMap));
    JoinedBindings(Bindings(p.left), [Binding(p.markIndex, 0)]);
    JoinedBindings(Bindings(p'.left), [Binding(p.markIndex, 0)]);
  }

  lemma {:induction false} WithoutShortens(bs: seq<Binding>, drop: set<Binding>)
    ensures |Without(bs, drop)| <= |bs|
    ensures (exists i | 0 <= i < |bs| :: bs[i] in drop) ==> |Without(bs, drop)| < |bs|
  {
    if bs != [] {
      WithoutShortens(bs[..|bs| - 1], drop);
    }
  }

  /** A map that keeps everything keeps exactly the needed columns unless only some are. */
  lemma AllKeptIff(bs: seq<Binding>, projectionMap: seq<nat>, n: Need, m: Need)
    requires KeepsNeeded(bs, projectionMap, n) && n.all
    ensures KeepsNeeded(bs, projectionMap, m) <==> !Partial(bs, m)
  {
    var drop := BindingSet(bs) - m.refs;
    WithoutShortens(bs, drop);
    if forall i | 0 <= i < |bs| :: bs[i] in m.refs {
      WithoutNothing(bs, seq(|bs|, _ => Unknown), drop);
    } else {
      var i :| 0 <= i < |bs| && bs[i] !in m.refs;
      assert bs[i] in drop;
    }
  }

  lemma InBindingSet(bs: seq<Binding>, b: Binding)
    ensures b in BindingSet(bs) <==> b in bs
  {
    if b in bs {
      var i :| 0 <= i < |bs| && bs[i] == b;
    }
  }

  lemma WithoutSet(bs: seq<Binding>, drop: set<Binding>)
    ensures BindingSet(Without(bs, drop)) == BindingSet(bs) - drop
  {
    forall b ensures b in BindingSet(Without(bs, drop)) <==> b in BindingSet(bs) - drop {
      InBindingSet(Without(bs, drop), b);
      InBindingSet(bs, b);
      WithoutMember(bs, drop, b);
    }
  }

  /**
   * Columns are left out exactly if some are needed and others are not, and then exactly the needed ones are kept. If
   * none is needed all are kept, since an empty map stands for all of them.
   */
  lemma LeavesOutIff(bs: seq<Binding>, projectionMap: seq<nat>, n: Need)
    requires KeepsNeeded(bs, projectionMap, n)
    ensures MapColumns(bs, projectionMap) != bs <==> Partial(bs, n)
    ensures Partial(bs, n) ==> BindingSet(MapColumns(bs, projectionMap)) == BindingSet(bs) * n.refs
  {
    var drop := BindingSet(bs) - n.refs;
    WithoutShortens(bs, drop);
    WithoutSet(bs, drop);
    if forall i | 0 <= i < |bs| :: bs[i] in n.refs {
      WithoutNothing(bs, seq(|bs|, _ => Unknown), drop);
    } else {
      var i :| 0 <= i < |bs| && bs[i] !in n.refs;
      assert bs[i] in drop;
      assert BindingSet(bs) - drop == BindingSet(bs) * n.refs;
    }
  }

  /** Needs that agree on the columns there are keep the same. */
  lemma SameKept(bs: seq<Binding>, projectionMap: seq<nat>, n: Need, m: Need)
    requires n.all == m.all && forall i | 0 <= i < |bs| :: bs[i] in n.refs <==> bs[i] in m.refs
    ensures KeepsNeeded(bs, projectionMap, n) <==> KeepsNeeded(bs, projectionMap, m)
  {
    assert BindingSet(bs) - n.refs == BindingSet(bs) - m.refs;
  }

  ghost predicate AgreeOn(n: Need, m: Need, scope: set<Binding>) {
    forall b | b in scope :: b in n.refs <==> b in m.refs
  }

  /** A map under a need that may have leaked, against the need without the leak. */
  lemma MapIff(bs: seq<Binding>, all: seq<Binding>, projectionMap: seq<nat>, n: Need, m: Need, leaked: bool)
    requires KeepsNeeded(bs, projectionMap, n) && (n.all <==> m.all || leaked) && AgreeOn(n, m, BindingSet(all))
    requires BindingSet(bs) <= BindingSet(all) && (n.all ==> bs == all)
    ensures KeepsNeeded(bs, projectionMap, m) <==> !(leaked && Partial(all, m))
  {
    hide KeepsNeeded, Partial;
    if n.all {
      AllKeptIff(bs, projectionMap, n, m);
      assert m.all ==> !Partial(all, m) by {
        NotPartial(all, m);
      }
    } else {
      forall i | 0 <= i < |bs| ensures bs[i] in n.refs <==> bs[i] in m.refs {
        assert bs[i] in BindingSet(bs);
      }
      SameKept(bs, projectionMap, n, m);
    }
  }

  lemma NotPartial(bs: seq<Binding>, n: Need)
    ensures n.all ==> !Partial(bs, n)
  {
  }

  /**
   * A plan that was pruned under needs that leak leaves out every column no operator above needs if and only if no
   * filter or equality join is affected.
   */
  lemma {:induction false} TightIff(p: Plan, p': Plan, n: Need, m: Need, leaked: bool)
    requires WellFormed(p) && Separate(p) && Exact(p, p', n, true)
    requires (n.all <==> m.all || leaked) && AgreeOn(n, m, Scope(p))
    ensures Exact(p, p', m, false) <==> !Affected(p, leaked, m)
    decreases p, 1
  {
    hide KeepsNeeded, ColumnsOf, ConditionColumns, Partial;
    match p
    case Get(_, _) =>
    case Projection(_, es, child) =>
      TightIff(child, p'.child, Need(false, ColumnsOf(es)), Need(false, ColumnsOf(es)), false);
    case Aggregate(_, _, groups, es, child) =>
      var need := Need(false, ColumnsOf(groups) + ColumnsOf(es));
      TightIff(child, p'.child, need, need, false);
    case SetOperation(_, _, l, r) =>
      TightIff(l, p'.left, Need(true, {}), Need(true, {}), false);
      TightIff(r, p'.right, Need(true, {}), Need(true, {}), false);
    case Distinct(targets, child) =>
      TightIff(child, p'.child, Need(true, n.refs + ColumnsOf(targets)), Need(true, m.refs + ColumnsOf(targets)),
               leaked);
    case Order(orders, child) =>
      TightIff(child, p'.child, n.Plus(ColumnsOf(orders)), m.Plus(ColumnsOf(orders)), leaked);
    case Filter(es, _, child) =>
      TightIff(child, p'.child, n.Plus(ColumnsOf(es)), m.Plus(ColumnsOf(es)), leaked);
      ExactBindings(child, p'.child, n.Plus(ColumnsOf(es)), true);
      BindingsInScope(child);
      MapIff(Bindings(p'.child), Bindings(child), p'.projectionMap, n, m, leaked);
    case Join(_, _, _, _, _, _) => TightJoinIff(p, p', n, m, leaked);
  }

  lemma TightJoinIff(p: Plan, p': Plan, n: Need, m: Need, leaked: bool)
    requires p.Join? && WellFormed(p) && Separate(p) && Exact(p, p', n, true)
    requires (n.all <==> m.all || leaked) && AgreeOn(n, m, Scope(p))
    ensures Exact(p, p', m, false) <==> !Affected(p, leaked, m)
    decreases p, 0
  {
    hide KeepsNeeded, ColumnsOf, ConditionColumns, Partial;
    var l, r, columns := p.left, p.right, ConditionColumns(p.conditions);
    var rightNeed := n.Plus(columns).And(Exposed(l));
    TightIff(l, p'.left, n.Plus(columns), m.Plus(columns), leaked);
    TightIff(r, p'.right, rightNeed, m.Plus(columns), leaked || Exposed(l).all);
    ExactBindings(r, p'.right, rightNeed, true);
    BindingsInScope(r);
    if p.kind.Both? && HasEquality(p.conditions) {
      MapIff(Bindings(p'.right), Bindings(r), p'.rightMap, n, m, leaked);
    }
  }

  /** Pruning a whole plan leaves out exactly what no operator above needs if and only if no operator is affected. */
  method PruneTightly(p: Plan) returns (p': Plan)
    requires WellFormed(p) && Resolves(p)
    ensures Separate(p) ==> (Exact(p, p', Need(true, {}), false) <==> !Affected(p, false, Need(true, {})))
  {
    p' := PruneColumns(p);
    if Separate(p) {
      TightIff(p, p', Need(true, {}), Need(true, {}), false);
    }
  }

  /** No left side of a join exposes a DISTINCT. */
  ghost predicate NoDistinctLeft(p: Plan) {
    match p
    case Get(_, _) => true
    case Projection(_, _, child) => NoDistinctLeft(child)
    case Aggregate(_, _, _, _, child) => NoDistinctLeft(child)
    case SetOperation(_, _, l, r) => NoDistinctLeft(l) && NoDistinctLeft(r)
    case Filter(_, _, child) => NoDistinctLeft(child)
    case Order(_, child) => NoDistinctLeft(child)
    case Distinct(_, child) => NoDistinctLeft(child)
    case Join(_, _, _, _, l, r) => NoDistinctLeft(l) && NoDistinctLeft(r) && !Exposed(l).all
  }

  lemma {:induction false} NothingAffected(p: Plan, n: Need)
    requires NoDistinctLeft(p)
    ensures !Affected(p, false, n)
  {
    match p
    case Get(_, _) =>
    case Projection(_, es, child) => NothingAffected(child, Need(false, ColumnsOf(es)));
    case Aggregate(_, _, groups, es, child) => NothingAffected(child, Need(false, ColumnsOf(groups) + ColumnsOf(es)));
    case SetOperation(_, _, l, r) =>
      NothingAffected(l, Need(true, {}));
      NothingAffected(r, Need(true, {}));
    case Distinct(targets, child) => NothingAffected(child, Need(true, n.refs + ColumnsOf(targets)));
    case Order(orders, child) => NothingAffected(child, n.Plus(ColumnsOf(orders)));
    case Filter(es, _, child) => NothingAffected(child, n.Plus(ColumnsOf(es)));
    case Join(_, _, conditions, _, l, r) =>
      NothingAffected(l, n.Plus(ConditionColumns(conditions)));
      NothingAffected(r, n.Plus(ConditionColumns(conditions)));
  }

  /** One column of a join of a DISTINCT with a filtered table of two columns. */
  function DistinctLeft(): Plan {
    var a, b := Expression(0, [Binding(0, 0)]), Expression(0, [Binding(1, 0)]);
    Projection(2, [a], Join(Both, 3, [Condition(true, a, b)], [], Distinct([], Get(0, 1)), Filter([b], [], Get(1, 2))))
  }

  /** The filter outputs the second column of its table, which nothing above it needs. */
  lemma DistinctLeftIsAffected()
    ensures var p := DistinctLeft();
      WellFormed(p) && Resolves(p) && Separate(p) && Affected(p, false, Need(true, {}))
  {
    var a, b := Expression(0, [Binding(0, 0)]), Expression(0, [Binding(1, 0)]);
    var p := DistinctLeft();
    var filter, join := Filter([b], [], Get(1, 2)), p.child;
    var n := Need(false, ColumnsOf([a])).Plus(ConditionColumns(join.conditions));
    assert Bindings(Get(1, 2)) == [Binding(1, 0), Binding(1, 1)];
    assert Bindings(join.left) == [Binding(0, 0)];
    assert join.conditions[0].equality;
    assert b.columns[0] in ColumnsOf([a, b]) by {
      assert [a, b][1].columns[0] == Binding(1, 0);
    }
    assert Binding(1, 0) in n.refs && Binding(1, 1) !in n.refs;
    assert Partial(Bindings(Get(1, 2)), n) by {
      assert Bindings(Get(1, 2))[0] in n.refs && Bindings(Get(1, 2))[1] !in n.refs;
    }
    assert Affected(filter, true, n);
  }
}
