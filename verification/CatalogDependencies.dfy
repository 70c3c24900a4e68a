/**
 * The dependency maps of the catalog and what dropping an entry with everything that depends on it does
 * (src/catalog/dependency_manager.cpp:10-119; src/catalog/catalog_set.cpp:163-207).
 */
module CatalogDependencies {
  import opened Catalog
  import opened CatalogRollback
  import opened Common

  ghost predicate IsDependent(s: State, o: Ref, d: Ref) {
    o in s.dependents && d in s.dependents[o]
  }

  ghost predicate DependsOn(s: State, d: Ref, o: Ref) {
    d in s.dependencies && o in s.dependencies[d]
  }

  /** Among registered objects, one map is the inverse of the other. */
  ghost predicate Inverse(s: State) {
    && (forall o :: o in s.dependents <==> o in s.dependencies)
    && (forall o, d | o in s.dependents :: IsDependent(s, o, d) <==> DependsOn(s, d, o))
  }

  /** Objects are younger than those they depend on. */
  ghost predicate Acyclic(s: State) {
    forall o, d :: IsDependent(s, o, d) ==> o.id < d.id
  }

  lemma RegisterDependent(s: State, target: Ref, cascade: bool, on: set<Ref>, o: Ref, d: Ref)
    requires target !in s.dependents && on <= s.dependents.Keys
    ensures var s' := Register(s, target, cascade, on);
      IsDependent(s', o, d) <==> o != target && (IsDependent(s, o, d) || (d == target && o in on))
  {
  }

  /** Adding or altering an object keeps the maps inverse and the graph acyclic. */
  lemma RegisterKeepsInverse(s: State, target: Ref, cascade: bool, on: set<Ref>)
    requires Inverse(s) && Acyclic(s) && Fresh(s) && target.id == s.currentRef && on <= s.dependents.Keys
    ensures Inverse(Register(s, target, cascade, on)) && Acyclic(Register(s, target, cascade, on))
  {
    FreshRefUnknown(s, target);
    var s' := Register(s, target, cascade, on);
    assert forall o :: o in s'.dependents <==> o in s.dependents || o == target;
    forall o, d ensures IsDependent(s', o, d) <==> o != target && (IsDependent(s, o, d) || (d == target && o in on)) {
      RegisterDependent(s, target, cascade, on, o, d);
    }
    forall d, o ensures DependsOn(s', d, o) <==> if d == target then o in on else DependsOn(s, d, o) {
    }
    hide Register;
    forall o, d | o in s'.dependents ensures IsDependent(s', o, d) <==> DependsOn(s', d, o) {
      assert DependsOn(s, d, o) ==> Older(s.dependencies[d], s.currentRef);
    }
  }

  /** Erasing an object keeps them so. */
  lemma EraseKeepsInverse(s: State, target: Ref)
    requires Inverse(s) && Acyclic(s)
    ensures Inverse(Erase(s, target)) && Acyclic(Erase(s, target))
  {
    if target in s.dependents {
      var s' := Erase(s, target);
      assert forall o :: o in s'.dependents <==> o in s.dependents && o != target;
      forall o, d ensures IsDependent(s', o, d) <==> o != target && d != target && IsDependent(s, o, d) {
        if o in s.dependents && d == target && IsDependent(s, o, d) {
          assert DependsOn(s, d, o);
        }
      }
      forall d, o ensures DependsOn(s', d, o) <==> d != target && DependsOn(s, d, o) {
      }
    }
  }

  ghost predicate LiveAt(s: State, i: nat) {
    HasChain(s, i) && !Top(s.entries[i]).Deleted()
  }

  /** The entry now found under a dependent's name is that dependent or younger. */
  ghost predicate RankedAt(s: State, tx: Transaction, d: Ref) {
    var m := GetMapping(s, tx, d.name);
    m.Some? && LiveAt(s, m.value.index) ==> d.id <= Top(s.entries[m.value.index]).ref.id
  }

  /** What makes the descent to dependents end. */
  ghost predicate Ranked(s: State, tx: Transaction, bound: nat) {
    && Acyclic(s)
    && (forall o, d :: IsDependent(s, o, d) ==> RankedAt(s, tx, d))
    && (forall i | LiveAt(s, i) :: Top(s.entries[i]).ref.id < bound)
  }

  /** A chain is as it was, or its live version was dropped. */
  ghost predicate DroppedAt(s: State, s': State, tx: Transaction, i: nat) {
    && i in s.entries && i in s'.entries
    && (s'.entries[i] == s.entries[i] || Drops(s, s', tx, i))
  }

  ghost predicate Drops(s: State, s': State, tx: Transaction, i: nat) {
    && GetEntryAt(s, tx, i).Found? && i in s'.entries && |s'.entries[i]| == |s.entries[i]| + 1
    && s'.entries[i][..|s.entries[i]|] == s.entries[i]
    && Top(s'.entries[i]).Deleted() && Top(s'.entries[i]).timestamp == tx.id
  }

  /** Nothing happened but drops. */
  ghost predicate OnlyDrops(s: State, s': State, tx: Transaction) {
    && s'.mapping == s.mapping && s'.dependents == s.dependents && s'.dependencies == s.dependencies
    && (forall i :: i in s'.entries <==> i in s.entries)
    && (forall i | i in s.entries :: DroppedAt(s, s', tx, i))
  }

  /** No entry is found under a name any more, nor one that another transaction wrote. */
  ghost predicate Dead(s: State, tx: Transaction, d: Ref) {
    var m := GetMapping(s, tx, d.name);
    m.None? || GetEntryAt(s, tx, m.value.index).Missing?
  }

  /** Everything that depends on a dropped entry is gone. */
  ghost predicate ClosedAt(s: State, s': State, tx: Transaction, i: nat)
    requires i in s.entries && s.entries[i] != []
  {
    forall d | d in Dependents(s, Top(s.entries[i]).ref) :: Dead(s', tx, d)
  }

  ghost predicate Closed(s: State, s': State, tx: Transaction) {
    forall i | Drops(s, s', tx, i) :: ClosedAt(s, s', tx, i)
  }

  /** Only entries at least as young as `rank` were dropped. */
  ghost predicate DropsFrom(s: State, s': State, tx: Transaction, rank: nat) {
    forall i | Drops(s, s', tx, i) :: Top(s.entries[i]).ref.id >= rank
  }

  lemma NothingDropped(s: State, tx: Transaction, rank: nat)
    ensures OnlyDrops(s, s, tx) && Closed(s, s, tx) && DropsFrom(s, s, tx, rank)
  {
  }

  lemma DroppedTwice(s0: State, s1: State, s2: State, tx: Transaction, i: nat)
    requires OnlyDrops(s0, s1, tx) && OnlyDrops(s1, s2, tx) && i in s0.entries
    ensures DroppedAt(s0, s2, tx, i)
    ensures Drops(s0, s2, tx, i) <==> Drops(s0, s1, tx, i) || Drops(s1, s2, tx, i)
    ensures Drops(s0, s1, tx, i) ==> s2.entries[i] == s1.entries[i]
    ensures Drops(s1, s2, tx, i) ==> s1.entries[i] == s0.entries[i]
  {
    assert DroppedAt(s0, s1, tx, i) && DroppedAt(s1, s2, tx, i);
  }

  lemma DeadStays(s: State, s': State, tx: Transaction, d: Ref)
    requires OnlyDrops(s, s', tx) && Dead(s, tx, d)
    ensures Dead(s', tx, d)
  {
    var m := GetMapping(s, tx, d.name);
    assert GetMapping(s', tx, d.name) == m;
    if m.Some? && m.value.index in s.entries {
      assert DroppedAt(s, s', tx, m.value.index);
    }
  }

  /** Drops after drops are drops. */
  lemma MoreDrops(s0: State, s1: State, s2: State, tx: Transaction)
    requires OnlyDrops(s0, s1, tx) && OnlyDrops(s1, s2, tx)
    ensures OnlyDrops(s0, s2, tx)
  {
    forall i | i in s0.entries ensures DroppedAt(s0, s2, tx, i) {
      DroppedTwice(s0, s1, s2, tx, i);
    }
  }

  lemma MoreClosed(s0: State, s1: State, s2: State, tx: Transaction)
    requires OnlyDrops(s0, s1, tx) && OnlyDrops(s1, s2, tx) && Closed(s0, s1, tx) && Closed(s1, s2, tx)
    ensures Closed(s0, s2, tx)
  {
    forall i | Drops(s0, s2, tx, i) ensures ClosedAt(s0, s2, tx, i) {
      DroppedTwice(s0, s1, s2, tx, i);
      hide OnlyDrops, Dead;
      if Drops(s0, s1, tx, i) {
        forall d | d in Dependents(s0, Top(s0.entries[i]).ref) ensures Dead(s2, tx, d) {
          assert ClosedAt(s0, s1, tx, i);
          DeadStays(s1, s2, tx, d);
        }
      } else {
        assert ClosedAt(s1, s2, tx, i);
        assert Dependents(s1, Top(s1.entries[i]).ref) == Dependents(s0, Top(s0.entries[i]).ref) by {
          SameDependents(s0, s1, tx, Top(s0.entries[i]).ref);
        }
      }
    }
  }

  lemma SameDependents(s: State, s': State, tx: Transaction, o: Ref)
    requires OnlyDrops(s, s', tx)
    ensures Dependents(s', o) == Dependents(s, o)
  {
  }

  lemma MoreDropsFrom(s0: State, s1: State, s2: State, tx: Transaction, rank: nat)
    requires OnlyDrops(s0, s1, tx) && OnlyDrops(s1, s2, tx) && DropsFrom(s0, s1, tx, rank)
    requires DropsFrom(s1, s2, tx, rank)
    ensures DropsFrom(s0, s2, tx, rank)
  {
    forall i | Drops(s0, s2, tx, i) ensures Top(s0.entries[i]).ref.id >= rank {
      DroppedTwice(s0, s1, s2, tx, i);
    }
  }

  lemma DropsKeepRanked(s: State, s': State, tx: Transaction, bound: nat)
    requires Ranked(s, tx, bound) && OnlyDrops(s, s', tx)
    ensures Ranked(s', tx, bound)
  {
    forall i | LiveAt(s', i) ensures LiveAt(s, i) && s'.entries[i] == s.entries[i] {
      assert DroppedAt(s, s', tx, i);
    }
    forall o, d | IsDependent(s', o, d) ensures RankedAt(s', tx, d) {
      assert IsDependent(s, o, d) && RankedAt(s, tx, d);
      assert GetMapping(s', tx, d.name) == GetMapping(s, tx, d.name);
    }
    forall o, d | IsDependent(s', o, d) ensures o.id < d.id {
      assert IsDependent(s, o, d);
    }
  }

  /** Dropping an entry whose dependents are gone. */
  lemma DropOne(s: State, tx: Transaction, i: nat)
    requires GetEntryAt(s, tx, i).Found? && forall d | d in Dependents(s, Top(s.entries[i]).ref) :: Dead(s, tx, d)
    ensures var s' := DropVersion(s, tx, i);
      OnlyDrops(s, s', tx) && Closed(s, s', tx) && DropsFrom(s, s', tx, Top(s.entries[i]).ref.id) && Drops(s, s', tx, i)
  {
    var s' := DropVersion(s, tx, i);
    assert s'.entries[i][..|s.entries[i]|] == s.entries[i];
    forall k | k in s.entries ensures DroppedAt(s, s', tx, k) {
    }
    forall k | Drops(s, s', tx, k) ensures k == i {
    }
    hide Dead;
    forall d | d in Dependents(s, Top(s.entries[i]).ref) ensures Dead(s', tx, d) {
      DeadStays(s, s', tx, d);
    }
  }

  /** An entry that another one found alive depends on. */
  ghost predicate LiveDependent(s: State, tx: Transaction, i: nat, j: nat) {
    && HasChain(s, i) && GetEntryAt(s, tx, j).Found?
    && exists d :: d in Dependents(s, Top(s.entries[i]).ref) && GetMapping(s, tx, d.name).Some? &&
                   GetMapping(s, tx, d.name).value.index == j
  }

  /** Every transitive dependent of a dropped entry is dropped, however it is reached. */
  lemma {:induction false} CascadeIsClosed(s: State, s': State, tx: Transaction, path: seq<nat>)
    requires OnlyDrops(s, s', tx) && Closed(s, s', tx) && path != [] && Drops(s, s', tx, path[0])
    requires forall x | 0 <= x < |path| - 1 :: LiveDependent(s, tx, path[x], path[x + 1])
    ensures Drops(s, s', tx, path[|path| - 1])
    decreases |path|
  {
    if |path| > 1 {
      var i, j := path[0], path[1];
      assert LiveDependent(s, tx, path[0], path[0 + 1]);
      var d :| d in Dependents(s, Top(s.entries[i]).ref) && GetMapping(s, tx, d.name).Some? &&
               GetMapping(s, tx, d.name).value.index == j;
      assert ClosedAt(s, s', tx, i) && Dead(s', tx, d);
      assert GetMapping(s', tx, d.name) == GetMapping(s, tx, d.name);
      assert DroppedAt(s, s', tx, j);
      var rest := path[1..];
      forall x | 0 <= x < |rest| - 1 ensures LiveDependent(s, tx, rest[x], rest[x + 1]) {
        var k := x + 1;
        assert LiveDependent(s, tx, path[k], path[k + 1]);
      }
      CascadeIsClosed(s, s', tx, rest);
    }
  }

  /** A dependent that stops a drop: another transaction wrote it, or it takes a cascade that was not asked for. */
  ghost predicate Stops(s: State, tx: Transaction, cascade: bool, needed: bool, d: Ref) {
    var m := GetMapping(s, tx, d.name);
    && m.Some?
    && (GetEntryAt(s, tx, m.value.index).Conflict? || (needed && !cascade && GetEntryAt(s, tx, m.value.index).Found?))
  }

  /**
   * A path of live dependents, each of them to be dropped before the one it was reached from, to one that stops the
   * drop.
   */
  ghost predicate BlockedBy(s: State, tx: Transaction, cascade: bool, path: seq<nat>) {
    && path != [] && (forall x | 0 <= x < |path| :: GetEntryAt(s, tx, path[x]).Found?)
    && (forall x | 0 <= x < |path| - 1 :: LiveDependent(s, tx, path[x], path[x + 1]))
    && StopsAt(s, tx, cascade, path[|path| - 1])
  }

  ghost predicate StopsAt(s: State, tx: Transaction, cascade: bool, i: nat)
    requires HasChain(s, i)
  {
    var deps := Dependents(s, Top(s.entries[i]).ref);
    exists d | d in deps :: Stops(s, tx, cascade, deps[d], d)
  }

  ghost predicate Blocked(s: State, tx: Transaction, cascade: bool, i: nat) {
    exists path :: BlockedBy(s, tx, cascade, path) && path[0] == i
  }

  /** A dependent cannot be dropped. */
  ghost predicate BlockedAt(s: State, tx: Transaction, cascade: bool, needed: bool, d: Ref) {
    || Stops(s, tx, cascade, needed, d)
    || (GetMapping(s, tx, d.name).Some? && Blocked(s, tx, cascade, GetMapping(s, tx, d.name).value.index))
  }

  lemma FoundBefore(s: State, s': State, tx: Transaction, i: nat)
    requires OnlyDrops(s, s', tx) && GetEntryAt(s', tx, i).Found?
    ensures GetEntryAt(s, tx, i).Found? && s'.entries[i] == s.entries[i]
  {
    assert DroppedAt(s, s', tx, i);
  }

  lemma StopsBefore(s: State, s': State, tx: Transaction, cascade: bool, needed: bool, d: Ref)
    requires OnlyDrops(s, s', tx) && tx.id >= TRANSACTION_ID_START && Stops(s', tx, cascade, needed, d)
    ensures Stops(s, tx, cascade, needed, d)
  {
    var m := GetMapping(s, tx, d.name);
    assert GetMapping(s', tx, d.name) == m;
    assert DroppedAt(s, s', tx, m.value.index);
  }

  lemma LiveDependentBefore(s: State, s': State, tx: Transaction, i: nat, j: nat)
    requires OnlyDrops(s, s', tx) && GetEntryAt(s', tx, i).Found? && LiveDependent(s', tx, i, j)
    ensures LiveDependent(s, tx, i, j)
  {
    FoundBefore(s, s', tx, i);
    FoundBefore(s, s', tx, j);
    var o := Top(s.entries[i]).ref;
    SameDependents(s, s', tx, o);
    var d :| d in Dependents(s', o) && GetMapping(s', tx, d.name).Some? && GetMapping(s', tx, d.name).value.index == j;
    assert GetMapping(s, tx, d.name) == GetMapping(s', tx, d.name);
  }

  /** What blocks a drop after other drops blocked it before them. */
  lemma BlockedBefore(s: State, s': State, tx: Transaction, cascade: bool, path: seq<nat>)
    requires OnlyDrops(s, s', tx) && tx.id >= TRANSACTION_ID_START && BlockedBy(s', tx, cascade, path)
    ensures BlockedBy(s, tx, cascade, path)
  {
    hide OnlyDrops, LiveDependent, GetEntryAt, Stops;
    forall x | 0 <= x < |path| ensures GetEntryAt(s, tx, path[x]).Found? {
      FoundBefore(s, s', tx, path[x]);
    }
    forall x | 0 <= x < |path| - 1 ensures LiveDependent(s, tx, path[x], path[x + 1]) {
      LiveDependentBefore(s, s', tx, path[x], path[x + 1]);
    }
    StopsAtBefore(s, s', tx, cascade, path[|path| - 1]);
  }

  lemma StopsAtBefore(s: State, s': State, tx: Transaction, cascade: bool, i: nat)
    requires OnlyDrops(s, s', tx) && tx.id >= TRANSACTION_ID_START && GetEntryAt(s', tx, i).Found?
    requires StopsAt(s', tx, cascade, i)
    ensures HasChain(s, i) && StopsAt(s, tx, cascade, i)
  {
    FoundBefore(s, s', tx, i);
    var o := Top(s.entries[i]).ref;
    SameDependents(s, s', tx, o);
    hide OnlyDrops, Stops;
    var deps := Dependents(s, o);
    var d :| d in deps && Stops(s', tx, cascade, deps[d], d);
    StopsBefore(s, s', tx, cascade, deps[d], d);
  }

  lemma BlockedAtBefore(s: State, s': State, tx: Transaction, cascade: bool, needed: bool, d: Ref)
    requires OnlyDrops(s, s', tx) && tx.id >= TRANSACTION_ID_START && BlockedAt(s', tx, cascade, needed, d)
    ensures BlockedAt(s, tx, cascade, needed, d)
  {
    assert GetMapping(s', tx, d.name) == GetMapping(s, tx, d.name);
    hide OnlyDrops, Stops, BlockedBy;
    if Stops(s', tx, cascade, needed, d) {
      StopsBefore(s, s', tx, cascade, needed, d);
    } else {
      var path :| BlockedBy(s', tx, cascade, path) && path[0] == GetMapping(s', tx, d.name).value.index;
      BlockedBefore(s, s', tx, cascade, path);
    }
  }

  /** What blocks a dependent blocks the entry it depends on. */
  lemma BlockedAbove(s: State, tx: Transaction, cascade: bool, i: nat, d: Ref)
    requires GetEntryAt(s, tx, i).Found? && d in Dependents(s, Top(s.entries[i]).ref)
    requires BlockedAt(s, tx, cascade, Dependents(s, Top(s.entries[i]).ref)[d], d)
    ensures Blocked(s, tx, cascade, i)
  {
    if Stops(s, tx, cascade, Dependents(s, Top(s.entries[i]).ref)[d], d) {
      assert BlockedBy(s, tx, cascade, [i]);
    } else {
      var rest :| BlockedBy(s, tx, cascade, rest) && rest[0] == GetMapping(s, tx, d.name).value.index;
      var path := [i] + rest;
      assert LiveDependent(s, tx, i, rest[0]);
      hide GetEntryAt, LiveDependent, StopsAt;
      forall x | 0 <= x < |path| - 1 ensures LiveDependent(s, tx, path[x], path[x + 1]) {
        assert x > 0 ==> LiveDependent(s, tx, rest[x - 1], rest[x - 1 + 1]);
      }
      assert BlockedBy(s, tx, cascade, path) && path[0] == i;
    }
  }

  /** A cascade that succeeds met nothing on its way that stops it. */
  lemma CascadeNotBlocked(s: State, s': State, tx: Transaction, i: nat)
    requires OnlyDrops(s, s', tx) && Closed(s, s', tx) && Drops(s, s', tx, i)
    ensures !Blocked(s, tx, true, i)
  {
    hide OnlyDrops, Closed, LiveDependent, Dead, Stops;
    if Blocked(s, tx, true, i) {
      var path :| BlockedBy(s, tx, true, path) && path[0] == i;
      CascadeIsClosed(s, s', tx, path);
      var last := path[|path| - 1];
      var deps := Dependents(s, Top(s.entries[last]).ref);
      var d :| d in deps && Stops(s, tx, true, deps[d], d);
      StoppedIsNotDead(s, s', tx, last, d);
    }
  }

  lemma StoppedIsNotDead(s: State, s': State, tx: Transaction, i: nat, d: Ref)
    requires OnlyDrops(s, s', tx) && Closed(s, s', tx) && Drops(s, s', tx, i)
    requires d in Dependents(s, Top(s.entries[i]).ref)
    ensures !Stops(s, tx, true, Dependents(s, Top(s.entries[i]).ref)[d], d)
  {
    assert ClosedAt(s, s', tx, i) && Dead(s', tx, d);
    var m := GetMapping(s, tx, d.name);
    assert GetMapping(s', tx, d.name) == m;
    if m.Some? && m.value.index in s.entries {
      assert DroppedAt(s, s', tx, m.value.index);
    }
  }

  /** An edge of the dependency graph that a drop may follow to chain `j`. */
  ghost predicate Follows(s: State, tx: Transaction, cascade: bool, o: Ref, j: nat) {
    var deps := Dependents(s, o);
    exists d | d in deps ::
      GetMapping(s, tx, d.name).Some? && GetMapping(s, tx, d.name).value.index == j && (cascade || !deps[d])
  }

  /** Chain `j` was dropped because it depends on `source` or on another dropped entry. */
  ghost predicate JustifiedAt(s: State, s': State, tx: Transaction, cascade: bool, source: Ref, j: nat) {
    || Follows(s, tx, cascade, source, j)
    || exists i :: Drops(s, s', tx, i) && Follows(s, tx, cascade, Top(s.entries[i]).ref, j)
  }

  /** Nothing was dropped but what depends on `source`, and without a cascade only what does not take one. */
  ghost predicate Justified(s: State, s': State, tx: Transaction, cascade: bool, source: Ref) {
    forall j | Drops(s, s', tx, j) :: JustifiedAt(s, s', tx, cascade, source, j)
  }

  /** Nothing was dropped but an entry and what depends on it. */
  ghost predicate DropsWith(s: State, s': State, tx: Transaction, cascade: bool, root: nat)
    requires HasChain(s, root)
  {
    forall j | Drops(s, s', tx, j) :: j == root || JustifiedAt(s, s', tx, cascade, Top(s.entries[root]).ref, j)
  }

  lemma NothingJustified(s: State, tx: Transaction, cascade: bool, source: Ref)
    ensures Justified(s, s, tx, cascade, source)
  {
  }

  lemma FollowsBefore(s: State, s': State, tx: Transaction, cascade: bool, o: Ref, j: nat)
    requires OnlyDrops(s, s', tx)
    ensures Follows(s', tx, cascade, o, j) <==> Follows(s, tx, cascade, o, j)
  {
    SameDependents(s, s', tx, o);
    forall d: Ref ensures GetMapping(s', tx, d.name) == GetMapping(s, tx, d.name) {
    }
  }

  lemma MoreJustified(s0: State, s1: State, s2: State, tx: Transaction, cascade: bool, source: Ref)
    requires OnlyDrops(s0, s1, tx) && OnlyDrops(s1, s2, tx)
    requires Justified(s0, s1, tx, cascade, source) && Justified(s1, s2, tx, cascade, source)
    ensures Justified(s0, s2, tx, cascade, source)
  {
    forall i | i in s0.entries
      ensures Drops(s0, s2, tx, i) <==> Drops(s0, s1, tx, i) || Drops(s1, s2, tx, i)
      ensures Drops(s1, s2, tx, i) ==> s1.entries[i] == s0.entries[i]
    {
      DroppedTwice(s0, s1, s2, tx, i);
    }
    assert forall i | Drops(s1, s2, tx, i) :: i in s0.entries;
    forall o, j ensures Follows(s1, tx, cascade, o, j) <==> Follows(s0, tx, cascade, o, j) {
      FollowsBefore(s0, s1, tx, cascade, o, j);
    }
    hide OnlyDrops, Drops, Follows;
    forall j | Drops(s0, s2, tx, j) ensures JustifiedAt(s0, s2, tx, cascade, source, j) {
      if Drops(s0, s1, tx, j) {
        assert JustifiedAt(s0, s1, tx, cascade, source, j);
      } else {
        assert JustifiedAt(s1, s2, tx, cascade, source, j);
      }
    }
  }

  /** Dropping a dependent with what depends on it. */
  lemma DependentJustified(s: State, s': State, tx: Transaction, cascade: bool, target: Ref, d: Ref, index: nat)
    requires Drops(s, s', tx, index) && DropsWith(s, s', tx, cascade, index)
    requires GetMapping(s, tx, d.name).Some? && GetMapping(s, tx, d.name).value.index == index
    requires d in Dependents(s, target) && (cascade || !Dependents(s, target)[d])
    ensures Justified(s, s', tx, cascade, target)
  {
    assert Follows(s, tx, cascade, target, index);
    hide Follows, Drops;
    forall j | Drops(s, s', tx, j) ensures JustifiedAt(s, s', tx, cascade, target, j) {
      if j != index {
        assert JustifiedAt(s, s', tx, cascade, Top(s.entries[index]).ref, j);
      }
    }
  }

  /** Dropping an entry after what depends on it. */
  lemma DropLast(s: State, s1: State, tx: Transaction, cascade: bool, index: nat)
    requires OnlyDrops(s, s1, tx) && GetEntryAt(s1, tx, index).Found? && s1.entries[index] == s.entries[index]
    requires Justified(s, s1, tx, cascade, Top(s.entries[index]).ref)
    ensures HasChain(s, index) && DropsWith(s, DropVersion(s1, tx, index), tx, cascade, index)
  {
    var s2, source := DropVersion(s1, tx, index), Top(s.entries[index]).ref;
    forall j | Drops(s, s1, tx, j) ensures Drops(s, s2, tx, j) {
    }
    forall j | Drops(s, s2, tx, j) && j != index ensures Drops(s, s1, tx, j) {
    }
    hide Drops, Follows, OnlyDrops;
    forall j | Drops(s, s2, tx, j) && j != index ensures JustifiedAt(s, s2, tx, cascade, source, j) {
      assert JustifiedAt(s, s1, tx, cascade, source, j);
    }
  }

  lemma FollowsLive(s: State, tx: Transaction, cascade: bool, bound: nat, i: nat, j: nat)
    requires Ranked(s, tx, bound) && HasChain(s, i) && GetEntryAt(s, tx, j).Found?
    requires Follows(s, tx, cascade, Top(s.entries[i]).ref, j)
    ensures LiveDependent(s, tx, i, j) && Top(s.entries[i]).ref.id < Top(s.entries[j]).ref.id
  {
    var o := Top(s.entries[i]).ref;
    var d :| d in Dependents(s, o) && GetMapping(s, tx, d.name).Some? && GetMapping(s, tx, d.name).value.index == j;
    assert IsDependent(s, o, d) && RankedAt(s, tx, d) && LiveAt(s, j);
  }

  /**
   * Only dependents are dropped: from the entry named in the drop a path of live dependents leads to every other one.
   */
  lemma {:induction false} DroppedIsReached(s: State, s': State, tx: Transaction, cascade: bool, bound: nat, root: nat,
                                            j: nat)
    returns (path: seq<nat>)
    requires Ranked(s, tx, bound) && HasChain(s, root) && DropsWith(s, s', tx, cascade, root) && Drops(s, s', tx, j)
    ensures path != [] && path[0] == root && path[|path| - 1] == j
    ensures forall x | 0 <= x < |path| - 1 :: LiveDependent(s, tx, path[x], path[x + 1])
    decreases Top(s.entries[j]).ref.id
  {
    hide Ranked, LiveDependent, Follows;
    if j == root {
      path := [root];
    } else if Follows(s, tx, cascade, Top(s.entries[root]).ref, j) {
      FollowsLive(s, tx, cascade, bound, root, j);
      path := [root, j];
    } else {
      assert JustifiedAt(s, s', tx, cascade, Top(s.entries[root]).ref, j);
      var i :| Drops(s, s', tx, i) && Follows(s, tx, cascade, Top(s.entries[i]).ref, j);
      FollowsLive(s, tx, cascade, bound, i, j);
      var front := DroppedIsReached(s, s', tx, cascade, bound, root, i);
      path := front + [j];
      forall x | 0 <= x < |path| - 1 ensures LiveDependent(s, tx, path[x], path[x + 1]) {
        assert x < |front| - 1 ==> LiveDependent(s, tx, front[x], front[x + 1]);
      }
    }
  }

  /** An edge of the dependency graph under whose name chain `j` is found. */
  ghost predicate LeadsTo(s: State, tx: Transaction, o: Ref, d: Ref, j: nat) {
    IsDependent(s, o, d) && GetMapping(s, tx, d.name).Some? && GetMapping(s, tx, d.name).value.index == j
  }

  /** The edges that lead to a chain all take a cascade, or none does. */
  ghost predicate SteadyAt(s: State, tx: Transaction, j: nat) {
    forall o, d, o', d' | LeadsTo(s, tx, o, d, j) && LeadsTo(s, tx, o', d', j) ::
      s.dependents[o][d] == s.dependents[o'][d']
  }

  ghost predicate Steady(s: State, tx: Transaction) {
    forall j | GetEntryAt(s, tx, j).Found? :: SteadyAt(s, tx, j)
  }

  /** Dependents are younger all along a path. */
  lemma {:induction false} PathRises(s: State, tx: Transaction, bound: nat, path: seq<nat>)
    requires Ranked(s, tx, bound) && path != [] && GetEntryAt(s, tx, path[0]).Found?
    requires forall x | 0 <= x < |path| - 1 :: LiveDependent(s, tx, path[x], path[x + 1])
    ensures HasChain(s, path[|path| - 1])
    ensures Top(s.entries[path[0]]).ref.id <= Top(s.entries[path[|path| - 1]]).ref.id
  {
    if |path| > 1 {
      var front := path[..|path| - 1];
      forall x | 0 <= x < |front| - 1 ensures LiveDependent(s, tx, front[x], front[x + 1]) {
        assert LiveDependent(s, tx, path[x], path[x + 1]);
      }
      PathRises(s, tx, bound, front);
      var n := |path| - 2;
      assert LiveDependent(s, tx, path[n], path[n + 1]);
      FollowsLive(s, tx, true, bound, path[n], path[n + 1]);
    }
  }

  /** A dependent of a dropped entry that was found is dropped, and is younger. */
  lemma DependentDropped(s: State, s': State, tx: Transaction, bound: nat, i: nat, d: Ref, j: nat)
    requires OnlyDrops(s, s', tx) && Closed(s, s', tx) && Ranked(s, tx, bound) && Drops(s, s', tx, i)
    requires LeadsTo(s, tx, Top(s.entries[i]).ref, d, j) && GetEntryAt(s, tx, j).Found?
    ensures Drops(s, s', tx, j) && Top(s.entries[i]).ref.id < Top(s.entries[j]).ref.id
  {
    assert ClosedAt(s, s', tx, i) && Dead(s', tx, d);
    assert GetMapping(s', tx, d.name) == GetMapping(s, tx, d.name) && DroppedAt(s, s', tx, j);
    assert RankedAt(s, tx, d) && LiveAt(s, j);
  }

  lemma FollowsPlainly(s: State, tx: Transaction, source: Ref, j: nat) returns (d: Ref)
    requires Follows(s, tx, false, source, j)
    ensures LeadsTo(s, tx, source, d, j) && !s.dependents[source][d]
  {
    var deps := Dependents(s, source);
    d :| d in deps && GetMapping(s, tx, d.name).Some? && GetMapping(s, tx, d.name).value.index == j && !deps[d];
  }

  /** Where a drop without a cascade went, no edge to the same chain takes one. */
  lemma PlainDropFollows(s: State, s': State, tx: Transaction, bound: nat, root: nat, i: nat, d: Ref, j: nat)
    requires OnlyDrops(s, s', tx) && Closed(s, s', tx) && Ranked(s, tx, bound)
    requires HasChain(s, root) && DropsWith(s, s', tx, false, root) && Drops(s, s', tx, i) && SteadyAt(s, tx, j)
    requires LeadsTo(s, tx, Top(s.entries[i]).ref, d, j) && GetEntryAt(s, tx, j).Found?
    requires Top(s.entries[root]).ref.id <= Top(s.entries[i]).ref.id
    ensures !s.dependents[Top(s.entries[i]).ref][d]
  {
    hide OnlyDrops, Closed, Ranked, Drops, Follows, LeadsTo;
    DependentDropped(s, s', tx, bound, i, d, j);
    assert j != root;
    assert JustifiedAt(s, s', tx, false, Top(s.entries[root]).ref, j);
    var source :| Follows(s, tx, false, source, j);
    var e := FollowsPlainly(s, tx, source, j);
  }

  /** A drop that succeeds met nothing on its way that stops it. */
  lemma SuccessIsNotBlocked(s: State, s': State, tx: Transaction, cascade: bool, bound: nat, root: nat)
    requires OnlyDrops(s, s', tx) && Closed(s, s', tx) && Drops(s, s', tx, root) && Ranked(s, tx, bound)
    requires DropsWith(s, s', tx, cascade, root) && (cascade || Steady(s, tx))
    ensures !Blocked(s, tx, cascade, root)
  {
    hide OnlyDrops, Closed, LiveDependent, Dead, Stops, Ranked, DropsWith, SteadyAt;
    if cascade {
      CascadeNotBlocked(s, s', tx, root);
    } else if Blocked(s, tx, false, root) {
      var path :| BlockedBy(s, tx, false, path) && path[0] == root;
      CascadeIsClosed(s, s', tx, path);
      PathRises(s, tx, bound, path);
      var last := path[|path| - 1];
      var deps := Dependents(s, Top(s.entries[last]).ref);
      var d :| d in deps && Stops(s, tx, false, deps[d], d);
      StoppedIsNotDead(s, s', tx, last, d);
      StopsForCascade(s, tx, deps[d], d);
      PlainDropFollows(s, s', tx, bound, root, last, d, GetMapping(s, tx, d.name).value.index);
    }
  }

  lemma StopsForCascade(s: State, tx: Transaction, needed: bool, d: Ref)
    requires Stops(s, tx, false, needed, d) && !Stops(s, tx, true, needed, d)
    ensures needed && GetMapping(s, tx, d.name).Some?
    ensures GetEntryAt(s, tx, GetMapping(s, tx, d.name).value.index).Found?
  {
  }
}
