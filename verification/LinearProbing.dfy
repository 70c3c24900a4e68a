/**
 * Linear probing over a ring of slots, independent of what the slots store.
 *
 * `refs[s]` is the number of the tuple that slot `s` refers to, or EMPTY. Tuple `i` wants slot `homes[i]` and
 * sits `dist[i]` slots further round the ring. Everything the aggregate hash table relies on is proved here
 * about these three sequences.
 */
module LinearProbing {

  const EMPTY := -1

  /** The slot `d` steps after `home`, wrapping round once. */
  function SlotAt(home: nat, d: nat, capacity: nat): (s: nat)
    requires home < capacity && d < capacity
    ensures s < capacity
  {
    if home + d < capacity then home + d else home + d - capacity
  }

  /** No empty slot among the first `d` slots from `home`. */
  ghost predicate Occupied(refs: seq<int>, home: nat, d: nat)
    requires home < |refs| && d <= |refs|
  {
    forall e: nat | e < d :: refs[SlotAt(home, e, |refs|)] != EMPTY
  }

  /**
   * Every slot is empty or refers to a tuple, and every tuple is referred to by exactly one slot: the one
   * `dist[i]` steps from its home, with no empty slot in between.
   */
  ghost predicate Probes(refs: seq<int>, homes: seq<nat>, dist: seq<nat>) {
    && |homes| == |dist|
    && (forall i | 0 <= i < |homes| :: homes[i] < |refs| && dist[i] < |refs|)
    && (forall s | 0 <= s < |refs| :: refs[s] == EMPTY || RefersBack(refs, homes, dist, s))
    && (forall i | 0 <= i < |homes| :: refs[SlotAt(homes[i], dist[i], |refs|)] == i)
    && (forall i | 0 <= i < |homes| :: Occupied(refs, homes[i], dist[i]))
  }

  ghost predicate RefersBack(refs: seq<int>, homes: seq<nat>, dist: seq<nat>, s: nat)
    requires s < |refs| && |homes| == |dist|
    requires forall i | 0 <= i < |homes| :: homes[i] < |refs| && dist[i] < |refs|
  {
    0 <= refs[s] < |homes| && s == SlotAt(homes[refs[s]], dist[refs[s]], |refs|)
  }

  /** Slots that refer to the same tuple are the same slot. */
  lemma OneSlotPerTuple(refs: seq<int>, homes: seq<nat>, dist: seq<nat>, s: nat, t: nat)
    requires Probes(refs, homes, dist) && s < |refs| && t < |refs|
    requires refs[s] == refs[t] != EMPTY
    ensures s == t
  {
    assert RefersBack(refs, homes, dist, s) && RefersBack(refs, homes, dist, t);
  }

  /** A ring in which every slot is taken holds at least as many tuples as slots. */
  lemma FullRing(refs: seq<int>, homes: seq<nat>, dist: seq<nat>)
    requires Probes(refs, homes, dist)
    requires forall s | 0 <= s < |refs| :: refs[s] != EMPTY
    ensures |refs| <= |homes|
  {
    forall s, t | 0 <= s < t < |refs| ensures refs[s] != refs[t] {
      if refs[s] == refs[t] {
        OneSlotPerTuple(refs, homes, dist, s, t);
      }
    }
    forall s | 0 <= s < |refs| ensures 0 <= refs[s] < |homes| {
      assert RefersBack(refs, homes, dist, s);
    }
    Pigeonhole(refs, |homes|);
  }

  lemma {:induction false} Pigeonhole(xs: seq<int>, n: nat)
    requires forall s | 0 <= s < |xs| :: 0 <= xs[s] < n
    requires forall s, t | 0 <= s < t < |xs| :: xs[s] != xs[t]
    ensures |xs| <= n
    decreases n
  {
    if |xs| > 0 {
      assert 0 <= xs[0] < n;
      if k :| 0 <= k < |xs| && xs[k] == n - 1 {
        Pigeonhole(xs[..k] + xs[k + 1..], n - 1);
      } else {
        Pigeonhole(xs, n - 1);
      }
    }
  }

  /** Walking all the way round meets an empty slot as long as there are more slots than tuples. */
  lemma WalkEnds(refs: seq<int>, homes: seq<nat>, dist: seq<nat>, home: nat)
    requires Probes(refs, homes, dist) && |homes| < |refs| && home < |refs|
    ensures !Occupied(refs, home, |refs|)
  {
    if Occupied(refs, home, |refs|) {
      forall s | 0 <= s < |refs| ensures refs[s] != EMPTY {
        var e := if s >= home then s - home else s + |refs| - home;
        assert SlotAt(home, e, |refs|) == s;
      }
      FullRing(refs, homes, dist);
    }
  }

  /** The walk from a tuple's home to an empty slot passes the slot that refers to the tuple. */
  lemma MetBeforeEmptySlot(refs: seq<int>, homes: seq<nat>, dist: seq<nat>, d: nat, i: nat)
    requires Probes(refs, homes, dist) && d < |refs| && i < |homes|
    requires refs[SlotAt(homes[i], d, |refs|)] == EMPTY
    ensures dist[i] < d && refs[SlotAt(homes[i], dist[i], |refs|)] == i
  {
    assert Occupied(refs, homes[i], dist[i]);
    assert refs[SlotAt(homes[i], dist[i], |refs|)] == i;
  }

  /** Filling the empty slot reached from a tuple's home keeps the table well formed. */
  lemma Insert(refs: seq<int>, homes: seq<nat>, dist: seq<nat>, home: nat, d: nat)
    requires Probes(refs, homes, dist) && home < |refs| && d < |refs|
    requires Occupied(refs, home, d) && refs[SlotAt(home, d, |refs|)] == EMPTY
    ensures Probes(refs[SlotAt(home, d, |refs|) := |homes|], homes + [home], dist + [d])
  {
    var s := SlotAt(home, d, |refs|);
    var refs', homes', dist' := refs[s := |homes|], homes + [home], dist + [d];
    forall t | 0 <= t < |refs| && refs'[t] != EMPTY ensures RefersBack(refs', homes', dist', t) {
      assert t != s ==> RefersBack(refs, homes, dist, t);
    }
    forall i | 0 <= i < |homes'| ensures Occupied(refs', homes'[i], dist'[i]) {
      assert i < |homes| ==> Occupied(refs, homes[i], dist[i]);
    }
  }
}
