/**
 * The segment tree behind window aggregates (src/execution/window_segment_tree.cpp).
 *
 * The tree keeps every level above the input in one flat array of aggregate states. A query walks up
 * from the input, folding the ragged left and right edge of its range at each level. The module proves
 * that this walk returns the fold of the aggregate over the queried rows.
 */
module WindowSegmentTree {
  import opened Common

  /** The callbacks of an aggregate function that a window needs. */
  datatype Aggregate<!X, !S, !R> = Aggregate(
    initial: S,
    update: (S, X) -> S,
    combine: (S, S) -> S,
    finalize: S -> R)

  /**
   * Combining states is a commutative monoid, and updating with a row combines with that row's own state.
   * Each law is a predicate of its own so that proofs name the instances they use.
   */
  ghost predicate Lawful<X(!new), S(!new), R>(agg: Aggregate<X, S, R>) {
    && (forall a, b :: Commutes(agg, a, b))
    && (forall a, b, c :: Associates(agg, a, b, c))
    && (forall a :: InitialIsUnit(agg, a))
    && (forall a, x :: UpdateCombines(agg, a, x))
  }

  ghost predicate Commutes<X, S, R>(agg: Aggregate<X, S, R>, a: S, b: S) {
    agg.combine(a, b) == agg.combine(b, a)
  }

  ghost predicate Associates<X, S, R>(agg: Aggregate<X, S, R>, a: S, b: S, c: S) {
    agg.combine(agg.combine(a, b), c) == agg.combine(a, agg.combine(b, c))
  }

  ghost predicate InitialIsUnit<X, S, R>(agg: Aggregate<X, S, R>, a: S) {
    agg.combine(a, agg.initial) == a
  }

  ghost predicate UpdateCombines<X, S, R>(agg: Aggregate<X, S, R>, a: S, x: X) {
    agg.update(a, x) == agg.combine(a, agg.update(agg.initial, x))
  }

  /** The specification: update a fresh state with the rows of a range, in order. */
  function FoldRows<X, S, R>(agg: Aggregate<X, S, R>, rows: seq<X>): S {
    if rows == [] then agg.initial
    else agg.update(FoldRows(agg, rows[..|rows| - 1]), rows[|rows| - 1])
  }

  /** Combine the states of a range of nodes. */
  function FoldNodes<X, S, R>(agg: Aggregate<X, S, R>, nodes: seq<S>, begin: nat, end: nat): S
    requires begin <= end <= |nodes|
    decreases end - begin
  {
    if begin == end then agg.initial
    else agg.combine(FoldNodes(agg, nodes, begin, end - 1), nodes[end - 1])
  }

  function CeilDiv(n: nat, d: nat): nat
    requires 0 < d
  {
    (n + (d - 1)) / d
  }

  lemma CeilDivBounds(n: nat, d: nat, i: nat)
    requires 0 < d
    ensures i < CeilDiv(n, d) <==> i * d < n
  {
    var q, m := CeilDiv(n, d), n + (d - 1);
    assert m == q * d + m % d;
    if i < q {
      assert (i + 1) * d <= q * d;
    } else {
      assert q * d <= i * d;
    }
  }

  /** The nodes one level up: each covers `fanout` consecutive nodes, the last one possibly fewer. */
  ghost function Parents<X, S, R>(agg: Aggregate<X, S, R>, fanout: nat, nodes: seq<S>): (up: seq<S>)
    requires 0 < fanout
    ensures |up| == CeilDiv(|nodes|, fanout)
  {
    seq(CeilDiv(|nodes|, fanout), i requires 0 <= i < CeilDiv(|nodes|, fanout) =>
      CeilDivBounds(|nodes|, fanout, i);
      FoldNodes(agg, nodes, i * fanout, Min(|nodes|, i * fanout + fanout)))
  }

  /** Level 0 holds one state per input row; level l + 1 holds the parents of level l. */
  ghost function Level<X, S, R>(agg: Aggregate<X, S, R>, fanout: nat, rows: seq<X>, l: nat): seq<S>
    requires 0 < fanout
  {
    if l == 0 then seq(|rows|, i requires 0 <= i < |rows| => agg.update(agg.initial, rows[i]))
    else Parents(agg, fanout, Level(agg, fanout, rows, l - 1))
  }

  lemma {:induction false} FoldNodesSplit<X(!new), S(!new), R>(
    agg: Aggregate<X, S, R>, nodes: seq<S>, begin: nat, mid: nat, end: nat)
    requires Lawful(agg)
    requires begin <= mid <= end <= |nodes|
    ensures FoldNodes(agg, nodes, begin, end) ==
            agg.combine(FoldNodes(agg, nodes, begin, mid), FoldNodes(agg, nodes, mid, end))
    decreases end
  {
    var left := FoldNodes(agg, nodes, begin, mid);
    if mid < end {
      FoldNodesSplit(agg, nodes, begin, mid, end - 1);
      assert Associates(agg, left, FoldNodes(agg, nodes, mid, end - 1), nodes[end - 1]);
    } else {
      assert InitialIsUnit(agg, left);
    }
  }

  /** Folding whole parents is folding everything below them. */
  lemma {:induction false} FoldParents<X(!new), S(!new), R>(
    agg: Aggregate<X, S, R>, fanout: nat, nodes: seq<S>, begin: nat, end: nat)
    requires Lawful(agg) && 0 < fanout
    requires begin <= end && end * fanout <= |nodes|
    ensures begin * fanout <= end * fanout && end <= |Parents(agg, fanout, nodes)|
    ensures FoldNodes(agg, Parents(agg, fanout, nodes), begin, end) ==
            FoldNodes(agg, nodes, begin * fanout, end * fanout)
    decreases end
  {
    var up := Parents(agg, fanout, nodes);
    if begin < end {
      assert (end - 1) * fanout + fanout == end * fanout;
      FoldParents(agg, fanout, nodes, begin, end - 1);
      CeilDivBounds(|nodes|, fanout, end - 1);
      FoldNodesSplit(agg, nodes, begin * fanout, (end - 1) * fanout, end * fanout);
      assert up[end - 1] == FoldNodes(agg, nodes, (end - 1) * fanout, end * fanout);
    } else {
      EndBound(|nodes|, fanout, end);
    }
  }

  lemma UnitOnTheLeft<X(!new), S(!new), R>(agg: Aggregate<X, S, R>, s: S)
    requires Lawful(agg)
    ensures agg.combine(agg.initial, s) == s
  {
    assert InitialIsUnit(agg, s) && Commutes(agg, agg.initial, s);
  }

  lemma ProductOrder(a: nat, b: nat, d: nat)
    requires a * d < b * d
    ensures a < b
  {
  }

  lemma GroupBounds(begin: nat, end: nat, d: nat)
    requires 0 < d && begin <= end && begin / d != end / d
    ensures begin / d < end / d
    ensures begin / d * d <= begin < begin / d * d + d <= end / d * d <= end
  {
    var p, q := begin / d, end / d;
    assert p * d + begin % d == begin && q * d + end % d == end;
    assert (q + 1) * d == q * d + d;
    ProductOrder(p, q + 1, d);
    assert (p + 1) * d == p * d + d;
    assert (p + 1) * d <= q * d;
  }

  /** A range inside a level of at most one node lies in one group. */
  lemma OneNodeOneGroup(begin: nat, end: nat, d: nat)
    requires 2 <= d && begin <= end <= 1
    ensures begin / d == end / d
  {
  }

  /** Left edge, right edge and whole parents together cover a range exactly once. */
  lemma EdgesThenParents<X(!new), S(!new), R>(
    agg: Aggregate<X, S, R>, fanout: nat, nodes: seq<S>, begin: nat, end: nat, parentBegin: nat, parentEnd: nat,
    before: S, mid: S, after: S)
    requires Lawful(agg) && 0 < fanout
    requires parentBegin <= parentEnd && begin <= parentBegin * fanout <= parentEnd * fanout <= end <= |nodes|
    requires mid == agg.combine(before, FoldNodes(agg, nodes, begin, parentBegin * fanout))
    requires after == agg.combine(mid, FoldNodes(agg, nodes, parentEnd * fanout, end))
    ensures parentEnd <= |Parents(agg, fanout, nodes)|
    ensures agg.combine(after, FoldNodes(agg, Parents(agg, fanout, nodes), parentBegin, parentEnd)) ==
            agg.combine(before, FoldNodes(agg, nodes, begin, end))
  {
    var left := FoldNodes(agg, nodes, begin, parentBegin * fanout);
    var middle := FoldNodes(agg, nodes, parentBegin * fanout, parentEnd * fanout);
    var right := FoldNodes(agg, nodes, parentEnd * fanout, end);
    FoldParents(agg, fanout, nodes, parentBegin, parentEnd);
    FoldNodesSplit(agg, nodes, begin, parentBegin * fanout, end);
    FoldNodesSplit(agg, nodes, parentBegin * fanout, parentEnd * fanout, end);
    calc {
      agg.combine(agg.combine(mid, right), middle);
      { assert Associates(agg, mid, right, middle) && Commutes(agg, right, middle); }
      agg.combine(agg.combine(before, left), agg.combine(middle, right));
      { assert Associates(agg, before, left, agg.combine(middle, right)); }
      agg.combine(before, agg.combine(left, agg.combine(middle, right)));
    }
  }

  lemma EndBound(n: nat, d: nat, end: nat)
    requires 0 < d && end * d <= n
    ensures end <= CeilDiv(n, d)
  {
    if 0 < end {
      assert (end - 1) * d < end * d;
      CeilDivBounds(n, d, end - 1);
    }
  }

  /** Folding the states of level 0 is folding the rows. */
  lemma {:induction false} FoldLevelZero<X(!new), S(!new), R>(
    agg: Aggregate<X, S, R>, fanout: nat, rows: seq<X>, begin: nat, end: nat)
    requires Lawful(agg) && 0 < fanout
    requires begin <= end <= |rows|
    ensures FoldNodes(agg, Level(agg, fanout, rows, 0), begin, end) == FoldRows(agg, rows[begin..end])
    decreases end
  {
    if begin < end {
      FoldLevelZero(agg, fanout, rows, begin, end - 1);
      assert UpdateCombines(agg, FoldRows(agg, rows[begin..end - 1]), rows[end - 1]);
      assert rows[begin..end][..end - begin - 1] == rows[begin..end - 1];
    }
  }

  /** Internal nodes that building above a level of `n` nodes writes. */
  ghost function NodesAbove(n: nat, fanout: nat): nat
    requires 2 <= fanout
    decreases n
  {
    if n <= 1 then 0
    else
      CeilDivShrinks(n, fanout);
      CeilDiv(n, fanout) + NodesAbove(CeilDiv(n, fanout), fanout)
  }

  lemma CeilDivShrinks(n: nat, d: nat)
    requires 2 <= d
    ensures 2 <= n ==> 1 <= CeilDiv(n, d) < n
    ensures n == 1 ==> CeilDiv(n, d) == 1
    ensures n == 0 ==> CeilDiv(n, d) == 0
  {
    CeilDivBounds(n, d, 0);
    CeilDivBounds(n, d, 1);
    if 2 <= n {
      assert (n - 1) * d >= (n - 1) * 2;
      CeilDivBounds(n, d, n - 1);
    }
  }

  /** `flat` holds level 1, level 2, ... between consecutive starts. */
  ghost predicate StoresLevels<X, S, R>(
    agg: Aggregate<X, S, R>, fanout: nat, input: seq<X>, flat: seq<S>, starts: seq<nat>)
    requires 0 < fanout
  {
    && |starts| > 0 && starts[0] == 0 && starts[|starts| - 1] <= |flat|
    && (forall l | 0 < l < |starts| :: StoresLevel(agg, fanout, input, flat, starts, l))
  }

  ghost predicate StoresLevel<X, S, R>(
    agg: Aggregate<X, S, R>, fanout: nat, input: seq<X>, flat: seq<S>, starts: seq<nat>, l: nat)
    requires 0 < fanout && 0 < l < |starts| && starts[|starts| - 1] <= |flat|
  {
    && starts[l - 1] <= starts[l] <= starts[|starts| - 1]
    && flat[starts[l - 1]..starts[l]] == Level(agg, fanout, input, l)
  }

  /** Levels already stored do not see what lies behind them. */
  lemma StoresLevelsFrame<X, S, R>(
    agg: Aggregate<X, S, R>, fanout: nat, input: seq<X>, flat: seq<S>, starts: seq<nat>, flat': seq<S>)
    requires 0 < fanout && StoresLevels(agg, fanout, input, flat, starts)
    requires starts[|starts| - 1] <= |flat'|
    requires flat[..starts[|starts| - 1]] == flat'[..starts[|starts| - 1]]
    ensures StoresLevels(agg, fanout, input, flat', starts)
  {
    var end := starts[|starts| - 1];
    forall l | 0 < l < |starts| ensures StoresLevel(agg, fanout, input, flat', starts, l) {
      assert StoresLevel(agg, fanout, input, flat, starts, l);
      assert flat[starts[l - 1]..starts[l]] == flat[..end][starts[l - 1]..starts[l]];
      assert flat'[starts[l - 1]..starts[l]] == flat'[..end][starts[l - 1]..starts[l]];
    }
  }

  /** Closing a level whose nodes have been written. */
  lemma StoresLevelsPush<X, S, R>(
    agg: Aggregate<X, S, R>, fanout: nat, input: seq<X>, flat: seq<S>, starts: seq<nat>, end: nat)
    requires 0 < fanout && StoresLevels(agg, fanout, input, flat, starts)
    requires starts[|starts| - 1] <= end <= |flat|
    requires flat[starts[|starts| - 1]..end] == Level(agg, fanout, input, |starts|)
    ensures StoresLevels(agg, fanout, input, flat, starts + [end])
  {
    forall l | 0 < l < |starts| + 1 ensures StoresLevel(agg, fanout, input, flat, starts + [end], l) {
      if l < |starts| {
        assert StoresLevel(agg, fanout, input, flat, starts, l);
      }
    }
  }

  class SegmentTree<X(!new), S(!new), R> {
    const agg: Aggregate<X, S, R>
    const fanout: nat
    // The sorted input the window runs over
    const input: seq<X>
    // The single state that segments are folded into
    var state: S
    // Every level above the input, one after the other
    var nodes: array<S>
    // Where each level starts in `nodes`, followed by the end of the last one
    var starts: seq<nat>

    ghost function LevelNodes(l: nat): seq<S>
      requires 2 <= fanout
    {
      Level(agg, fanout, input, l)
    }

    ghost predicate Built()
      reads this, nodes
    {
      Lawful(agg) && 2 <= fanout && StoresLevels(agg, fanout, input, nodes[..], starts)
    }

    /** The topmost level has at most one node. */
    ghost predicate Valid()
      reads this, nodes
    {
      Built() && |LevelNodes(|starts| - 1)| <= 1
    }

    /** Computes the space the internal nodes need, one level after the other. */
    static method CountInternalNodes(count: nat, fanout: nat) returns (internalNodes: nat)
      requires 2 <= fanout
      ensures NodesAbove(count, fanout) <= internalNodes
    {
      var levelNodes := CeilDiv(count, fanout);
      internalNodes := levelNodes;
      CeilDivShrinks(count, fanout);
      while levelNodes > 1
        invariant internalNodes + NodesAbove(levelNodes, fanout) >= NodesAbove(count, fanout)
      {
        CeilDivShrinks(levelNodes, fanout);
        levelNodes := CeilDiv(levelNodes, fanout);
        internalNodes := internalNodes + levelNodes;
      }
    }

    /** Builds the tree; every write stays inside the space counted beforehand. */
    constructor (agg: Aggregate<X, S, R>, fanout: nat, input: seq<X>)
      requires Lawful(agg) && 2 <= fanout
      ensures this.agg == agg && this.fanout == fanout && this.input == input
      ensures Valid() && fresh(nodes)
    {
      this.agg, this.fanout, this.input := agg, fanout, input;
      this.state, this.starts := agg.initial, [0];
      var internalNodes := CountInternalNodes(|input|, fanout);
      this.nodes := new S[internalNodes](_ => agg.initial);
      new;
      var levelSize := |input|;
      while levelSize > 1
        invariant Built() && fresh(nodes)
        invariant levelSize == |LevelNodes(|starts| - 1)|
        invariant starts[|starts| - 1] + NodesAbove(levelSize, fanout) <= nodes.Length
        decreases levelSize
      {
        CeilDivShrinks(levelSize, fanout);
        ConstructLevel(levelSize);
        levelSize := starts[|starts| - 1] - starts[|starts| - 2];
      }
    }

    /** Appends one level: the parents of the level on top. */
    method ConstructLevel(levelSize: nat)
      requires Built() && levelSize == |LevelNodes(|starts| - 1)|
      requires starts[|starts| - 1] + CeilDiv(levelSize, fanout) <= nodes.Length
      modifies this`state, this`starts, nodes
      ensures Built() && |starts| == old(|starts|) + 1
      ensures starts[|starts| - 2] == old(starts[|starts| - 1])
      ensures starts[|starts| - 1] == starts[|starts| - 2] + CeilDiv(levelSize, fanout)
    {
      var start := starts[|starts| - 1];
      ghost var up := LevelNodes(|starts|);
      var pos, offset := 0, start;
      while pos < levelSize
        invariant start <= offset && pos == (offset - start) * fanout
        invariant offset <= start + CeilDiv(levelSize, fanout)
        invariant Built()
        invariant starts == old(starts)
        invariant forall k | start <= k < offset :: nodes[k] == up[k - start]
        decreases levelSize - pos
      {
        CeilDivBounds(levelSize, fanout, offset - start);
        ConstructNode(offset, pos, offset - start);
        assert (offset + 1 - start) * fanout == pos + fanout;
        pos, offset := pos + fanout, offset + 1;
      }
      CeilDivBounds(levelSize, fanout, offset - start);
      assert nodes[..][start..offset] == up;
      StoresLevelsPush(agg, fanout, input, nodes[..], starts, offset);
      starts := starts + [offset];
    }

    /** Stores parent number `k`: the aggregate of up to `fanout` nodes of the top level, from `pos` on. */
    method ConstructNode(offset: nat, pos: nat, ghost k: nat)
      requires Built() && pos == k * fanout && k < |LevelNodes(|starts|)|
      requires starts[|starts| - 1] <= offset < nodes.Length
      modifies this`state, nodes
      ensures Built()
      ensures nodes[offset] == LevelNodes(|starts|)[k]
      ensures forall i | 0 <= i < offset :: nodes[i] == old(nodes[i])
    {
      ghost var below := LevelNodes(|starts| - 1);
      CeilDivBounds(|below|, fanout, k);
      assert |starts| > 1 ==> StoresLevel(agg, fanout, input, nodes[..], starts, |starts| - 1);
      var levelSize := if |starts| == 1 then |input| else starts[|starts| - 1] - starts[|starts| - 2];
      AggregateInit();
      WindowSegmentValue(|starts| - 1, pos, Min(levelSize, pos + fanout));
      UnitOnTheLeft(agg, FoldNodes(agg, below, pos, Min(levelSize, pos + fanout)));
      nodes[offset] := state;
      StoresLevelsFrame(agg, fanout, input, old(nodes[..]), starts, nodes[..]);
    }

    method AggregateInit()
      modifies this`state
      ensures state == agg.initial
    {
      state := agg.initial;
    }

    /** Folds the nodes `begin..end` of level `lIdx` into the state. */
    method WindowSegmentValue(lIdx: nat, begin: nat, end: nat)
      requires 2 <= fanout
      requires begin <= end <= |LevelNodes(lIdx)| && lIdx < |starts| && Built()
      modifies this`state
      ensures state == agg.combine(old(state), FoldNodes(agg, LevelNodes(lIdx), begin, end))
    {
      ghost var level := LevelNodes(lIdx);
      assert 0 < lIdx ==> StoresLevel(agg, fanout, input, nodes[..], starts, lIdx);
      assert InitialIsUnit(agg, state);
      var i := begin;
      while i < end
        invariant begin <= i <= end
        invariant state == agg.combine(old(state), FoldNodes(agg, level, begin, i))
      {
        ghost var before, folded := state, FoldNodes(agg, level, begin, i);
        if lIdx == 0 {
          state := agg.update(state, input[i]);
          assert UpdateCombines(agg, before, input[i]);
        } else {
          assert nodes[starts[lIdx - 1] + i] == nodes[..][starts[lIdx - 1]..starts[lIdx]][i];
          state := agg.combine(state, nodes[starts[lIdx - 1] + i]);
        }
        assert state == agg.combine(before, level[i]);
        assert Associates(agg, old(state), folded, level[i]);
        i := i + 1;
      }
    }

    /** The state together with the range `begin..end` of level `l` folds to `total`. */
    ghost predicate Pending(l: nat, begin: nat, end: nat, total: S)
      requires 2 <= fanout
      reads this`state
    {
      && begin <= end <= |LevelNodes(l)|
      && agg.combine(state, FoldNodes(agg, LevelNodes(l), begin, end)) == total
    }

    /** Folds the ragged edges of a range and moves the range one level up. */
    method FoldEdges(lIdx: nat, begin: nat, end: nat, ghost total: S) returns (parentBegin: nat, parentEnd: nat)
      requires Built() && lIdx < |starts| && Pending(lIdx, begin, end, total)
      requires begin / fanout != end / fanout
      modifies this`state
      ensures 1 < |LevelNodes(lIdx)|
      ensures Pending(lIdx + 1, parentBegin, parentEnd, total)
    {
      if |LevelNodes(lIdx)| <= 1 {
        OneNodeOneGroup(begin, end, fanout);
      }
      GroupBounds(begin, end, fanout);
      parentBegin := FoldLeftEdge(lIdx, begin);
      ghost var mid := state;
      parentEnd := end / fanout;
      var groupEnd := parentEnd * fanout;
      if end != groupEnd {
        WindowSegmentValue(lIdx, groupEnd, end);
      }
      assert InitialIsUnit(agg, mid);
      EdgesThenParents(agg, fanout, LevelNodes(lIdx), begin, end, parentBegin, parentEnd, old(state), mid, state);
    }

    /** Folds the nodes before the first whole group, if the range starts inside a group. */
    method FoldLeftEdge(lIdx: nat, begin: nat) returns (parentBegin: nat)
      requires Built() && lIdx < |starts| && begin / fanout * fanout + fanout <= |LevelNodes(lIdx)|
      modifies this`state
      ensures parentBegin <= begin / fanout + 1
      ensures begin <= parentBegin * fanout <= begin / fanout * fanout + fanout
      ensures state == agg.combine(old(state), FoldNodes(agg, LevelNodes(lIdx), begin, parentBegin * fanout))
    {
      GroupOf(begin, fanout);
      assert InitialIsUnit(agg, state);
      hide StoresLevels, Level, Lawful;
      parentBegin := begin / fanout;
      var groupBegin := parentBegin * fanout;
      if begin != groupBegin {
        WindowSegmentValue(lIdx, begin, groupBegin + fanout);
        parentBegin := parentBegin + 1;
      }
    }

    /** The value of the aggregate over the rows `begin..end`. */
    method Compute(begin: nat, end: nat) returns (result: R)
      requires Valid() && begin <= end <= |input|
      modifies this`state
      ensures result == agg.finalize(FoldRows(agg, input[begin..end]))
    {
      StartsExist(agg, fanout, input, nodes[..], starts);
      hide StoresLevels, Level, Lawful, FoldNodes, FoldRows;
      AggregateInit();
      ghost var total := FoldRows(agg, input[begin..end]);
      FoldLevelZero(agg, fanout, input, begin, end);
      UnitOnTheLeft(agg, total);
      var lIdx: nat, levelBegin: nat, levelEnd: nat := 0, begin, end;
      while lIdx < |starts| + 1
        invariant lIdx < |starts| && Pending(lIdx, levelBegin, levelEnd, total)
        decreases |starts| - lIdx
      {
        if levelBegin / fanout == levelEnd / fanout {
          WindowSegmentValue(lIdx, levelBegin, levelEnd);
          return agg.finalize(state);
        }
        // the topmost level has at most one node and was answered above
        levelBegin, levelEnd := FoldEdges(lIdx, levelBegin, levelEnd, total);
        lIdx := lIdx + 1;
      }
      assert false;
      result := agg.finalize(state);
    }
  }

  lemma StartsExist<X(!new), S(!new), R>(agg: Aggregate<X, S, R>, fanout: nat, rows: seq<X>, nodes: seq<S>,
                                         starts: seq<nat>)
    requires 2 <= fanout && StoresLevels(agg, fanout, rows, nodes, starts)
    ensures 0 < |starts|
  {
  }

  /** The group of children a position is in. */
  lemma GroupOf(begin: nat, fanout: nat)
    requires 0 < fanout
    ensures begin / fanout * fanout <= begin < begin / fanout * fanout + fanout
    ensures (begin / fanout + 1) * fanout == begin / fanout * fanout + fanout
  {
  }
}
