/**
 * Bucket chains of the join hash table. The tuples of a bucket are linked from the last to the first through the slot
 * that held the tuple's hash while the table was being built (src/execution/join_hashtable.cpp:367-430).
 */
module JoinChains {
  import opened Common

  /** The slot behind a tuple: its hash until the table is finalized, the next tuple of its chain afterwards. */
  datatype Slot = Hash(hash: nat) | Next(next: Option<nat>)

  /** The last tuple before `n` in bucket `b`. */
  ghost function Prev(buckets: seq<nat>, n: nat, b: nat): (p: Option<nat>)
    requires n <= |buckets|
    ensures p.Some? ==> p.value < n && buckets[p.value] == b && forall t | p.value < t < n :: buckets[t] != b
    ensures p.None? ==> forall t | 0 <= t < n :: buckets[t] != b
  {
    if n == 0 then None else if buckets[n - 1] == b then Some(n - 1) else Prev(buckets, n - 1, b)
  }

  /** The tuples reached from a pointer by following the slots. */
  ghost function Chain(slots: seq<Slot>, from: Option<nat>): (chain: seq<nat>)
    decreases if from.None? then 0 else from.value + 1
  {
    if from.None? || from.value >= |slots| || slots[from.value].Hash? then []
    else
      var next := slots[from.value].next;
      if next.Some? && next.value >= from.value then [from.value] else [from.value] + Chain(slots, next)
  }

  ghost predicate LinkedAt(slots: seq<Slot>, buckets: seq<nat>, t: nat)
    requires t < |slots| == |buckets|
  {
    slots[t] == Next(Prev(buckets, t, buckets[t]))
  }

  ghost predicate HeadAt(heads: seq<Option<nat>>, buckets: seq<nat>, n: nat, b: nat)
    requires b < |heads| && n <= |buckets|
  {
    heads[b] == Prev(buckets, n, b)
  }

  /** The first `n` tuples are in the chains of their buckets; the others still hold their hashes. */
  ghost predicate Linked(slots: seq<Slot>, heads: seq<Option<nat>>, hashes: seq<nat>, buckets: seq<nat>, n: nat) {
    && n <= |slots| == |hashes| == |buckets|
    && (forall t | 0 <= t < n :: LinkedAt(slots, buckets, t))
    && (forall t | n <= t < |slots| :: slots[t] == Hash(hashes[t]))
    && (forall t | 0 <= t < |slots| :: buckets[t] < |heads|)
    && (forall b | 0 <= b < |heads| :: HeadAt(heads, buckets, n, b))
  }

  lemma LinkNext(slots: seq<Slot>, heads: seq<Option<nat>>, hashes: seq<nat>, buckets: seq<nat>, n: nat,
                 slots': seq<Slot>, heads': seq<Option<nat>>)
    requires n < |slots| && Linked(slots, heads, hashes, buckets, n)
    requires slots' == slots[n := Next(heads[buckets[n]])] && heads' == heads[buckets[n] := Some(n)]
    ensures Linked(slots', heads', hashes, buckets, n + 1)
  {
    assert HeadAt(heads, buckets, n, buckets[n]);
    forall t | 0 <= t < n + 1 ensures LinkedAt(slots', buckets, t) {
      assert t < n ==> LinkedAt(slots, buckets, t);
    }
    var m := n + 1;
    forall b | 0 <= b < |heads'| ensures HeadAt(heads', buckets, m, b) {
      assert HeadAt(heads, buckets, n, b);
    }
  }

  ghost predicate Descending(chain: seq<nat>) {
    forall x, y | 0 <= x < y < |chain| :: chain[x] > chain[y]
  }

  lemma DescendingFrom(x: nat, rest: seq<nat>)
    requires Descending(rest) && forall t | t in rest :: t < x
    ensures Descending([x] + rest)
  {
    var chain := [x] + rest;
    forall i, j | 0 <= i < j < |chain| ensures chain[i] > chain[j] {
      assert chain[j] == rest[j - 1] && rest[j - 1] in rest;
    }
  }

  /** A chain visits every tuple of its bucket below its start exactly once, the latest first. */
  lemma {:induction false} ChainIsBucket(slots: seq<Slot>, heads: seq<Option<nat>>, hashes: seq<nat>, buckets: seq<nat>,
                                         n: nat, b: nat)
    requires Linked(slots, heads, hashes, buckets, |slots|) && n <= |slots|
    ensures var chain := Chain(slots, Prev(buckets, n, b));
      Descending(chain) && forall t :: t in chain <==> 0 <= t < n && buckets[t] == b
    decreases n
  {
    var from := Prev(buckets, n, b);
    if from.Some? {
      assert LinkedAt(slots, buckets, from.value);
      ChainIsBucket(slots, heads, hashes, buckets, from.value, b);
      var rest := Chain(slots, Prev(buckets, from.value, b));
      var chain := Chain(slots, from);
      assert chain == [from.value] + rest;
      assert forall t :: t in chain <==> t == from.value || t in rest;
      DescendingFrom(from.value, rest);
    }
  }

  /** Every tuple is in the chain of its bucket and in no other, once. */
  lemma EveryTupleInOneChain(slots: seq<Slot>, heads: seq<Option<nat>>, hashes: seq<nat>, buckets: seq<nat>, t: nat,
                             b: nat)
    requires Linked(slots, heads, hashes, buckets, |slots|) && t < |slots| && b < |heads|
    ensures t in Chain(slots, heads[b]) <==> b == buckets[t]
    ensures Descending(Chain(slots, heads[b]))
  {
    assert HeadAt(heads, buckets, |slots|, b);
    ChainIsBucket(slots, heads, hashes, buckets, |slots|, b);
  }
}
