/**
 * The catalog as an object that its operations change in place (src/catalog/catalog_set.cpp:18-433,
 * src/catalog/dependency_manager.cpp:10-119).
 */
module CatalogSet {
  import opened Catalog
  import opened CatalogDependencies
  import opened CatalogRollback
  import opened CatalogRuns
  import opened Common

  lemma {:induction false} RunAppend(s: State, tx: Transaction, a: seq<Op>, b: seq<Op>)
    ensures Run(s, tx, a + b) == Run(Run(s, tx, a), tx, b)
    ensures UndoBuffer(s, tx, a + b) == UndoBuffer(s, tx, a) + UndoBuffer(Run(s, tx, a), tx, b)
    decreases |a|
  {
    hide Apply;
    if a == [] {
      assert a + b == b;
    } else {
      assert (a + b)[0] == a[0] && (a + b)[1..] == a[1..] + b;
      RunAppend(Apply(s, tx, a[0]).state, tx, a[1..], b);
    }
  }

  /** The dependents map after an object was added to some of the objects it depends on. */
  ghost predicate AddedTo(before: map<Ref, map<Ref, bool>>, target: Ref, cascade: bool, done: set<Ref>,
                          after: map<Ref, map<Ref, bool>>) {
    && (forall d :: d in after <==> d in before || d in done)
    && (forall d | d in after ::
          after[d] == var entry := if d in before then before[d] else map[];
                      if d in done then entry[target := cascade] else entry)
  }

  /** Adds an object to the dependents of every object it depends on. */
  method AddToDependents(dependents: map<Ref, map<Ref, bool>>, target: Ref, cascade: bool, on: set<Ref>)
    returns (dependents': map<Ref, map<Ref, bool>>)
    ensures AddedTo(dependents, target, cascade, on, dependents')
  {
    dependents' := dependents;
    var todo := on;
    while todo != {}
      invariant todo <= on && AddedTo(dependents, target, cascade, on - todo, dependents')
      decreases |todo|
    {
      var d :| d in todo;
      var entry := if d in dependents' then dependents'[d] else map[];
      dependents' := dependents'[d := entry[target := cascade]];
      todo := todo - {d};
    }
    assert on - {} == on;
  }

  lemma AddedIsRegistered(s: State, target: Ref, cascade: bool, on: set<Ref>, dependents: map<Ref, map<Ref, bool>>)
    requires AddedTo(s.dependents, target, cascade, on, dependents)
    ensures Register(s, target, cascade, on) ==
            s.(dependents := dependents[target := map[]], dependencies := s.dependencies[target := on])
  {
    var added := map d | d in s.dependents.Keys + on ::
      if d in on then Dependents(s, d)[target := cascade] else Dependents(s, d);
    assert added == dependents;
  }

  ghost predicate RemovedFrom(before: map<Ref, map<Ref, bool>>, target: Ref, done: set<Ref>,
                              after: map<Ref, map<Ref, bool>>) {
    && (forall d :: d in after <==> d in before)
    && (forall d | d in after :: after[d] == if d in done then before[d] - {target} else before[d])
  }

  /** Removes an object from the dependents of every object it depends on. */
  method RemoveFromDependents(dependents: map<Ref, map<Ref, bool>>, target: Ref, on: set<Ref>)
    returns (dependents': map<Ref, map<Ref, bool>>)
    ensures RemovedFrom(dependents, target, on, dependents')
  {
    dependents' := dependents;
    var todo := on;
    while todo != {}
      invariant todo <= on && RemovedFrom(dependents, target, on - todo, dependents')
      decreases |todo|
    {
      var d :| d in todo;
      if d in dependents' {
        dependents' := dependents'[d := dependents'[d] - {target}];
      }
      todo := todo - {d};
    }
    assert on - {} == on;
  }

  lemma RemovedIsErased(s: State, target: Ref, dependents: map<Ref, map<Ref, bool>>)
    requires target in s.dependents && RemovedFrom(s.dependents, target, Dependencies(s, target), dependents)
    ensures Erase(s, target) == s.(dependents := dependents - {target}, dependencies := s.dependencies - {target})
  {
    var on := Dependencies(s, target);
    var left := map d | d in s.dependents.Keys - {target} ::
      if d in on then s.dependents[d] - {target} else s.dependents[d];
    assert left == dependents - {target};
  }

  /** Walks down a chain of names to the newest one a transaction may use. */
  method FindMapping(names: seq<MappingValue>, tx: Transaction) returns (m: MappingValue)
    requires names != []
    ensures m == VisibleMapping(names, tx)
  {
    var h := |names| - 1;
    assert names[..h + 1] == names;
    while h > 0 && !UseTimestamp(tx, names[h].timestamp)
      invariant 0 <= h < |names| && VisibleMapping(names, tx) == VisibleMapping(names[..h + 1], tx)
    {
      assert names[..h + 1][..h] == names[..h];
      h := h - 1;
    }
    m := names[h];
  }

  /** Walks down a chain of versions to the newest one a transaction may use. */
  method GetEntryForTransaction(chain: seq<Version>, tx: Transaction) returns (v: Version)
    requires chain != []
    ensures v == VisibleVersion(chain, tx)
  {
    var h := |chain| - 1;
    assert chain[..h + 1] == chain;
    while h > 0 && !UseTimestamp(tx, chain[h].timestamp)
      invariant 0 <= h < |chain| && VisibleVersion(chain, tx) == VisibleVersion(chain[..h + 1], tx)
    {
      assert chain[..h + 1][..h] == chain[..h];
      h := h - 1;
    }
    v := chain[h];
  }

  /** The drops a transaction made, as its undo buffer records them. */
  ghost predicate Traced(s: State, tx: Transaction, ops: seq<Op>, s': State, pushed: seq<Record>) {
    s' == Run(s, tx, ops) && pushed == UndoBuffer(s, tx, ops) && forall x | 0 <= x < |ops| :: ops[x].Drop?
  }

  lemma TracedNothing(s: State, tx: Transaction)
    ensures Traced(s, tx, [], s, [])
  {
  }

  lemma TracedMore(s0: State, tx: Transaction, a: seq<Op>, s1: State, p: seq<Record>, b: seq<Op>, s2: State,
                   q: seq<Record>)
    requires Traced(s0, tx, a, s1, p) && Traced(s1, tx, b, s2, q)
    ensures Traced(s0, tx, a + b, s2, p + q)
  {
    RunAppend(s0, tx, a, b);
  }

  lemma TracedDrop(s: State, tx: Transaction, name: Name, index: nat)
    requires GetMapping(s, tx, name).Some? && GetMapping(s, tx, name).value.index == index
    requires GetEntryAt(s, tx, index).Found?
    ensures Traced(s, tx, [Drop(name)], DropVersion(s, tx, index), [Record(index, Height(s, index))])
  {
    var ops := [Drop(name)];
    assert ops[1..] == [];
    var result := Apply(s, tx, Drop(name));
    assert result == Result(DropVersion(s, tx, index), Success, [Record(index, Height(s, index))]);
    assert Run(result.state, tx, []) == result.state && UndoBuffer(result.state, tx, []) == [];
  }

  /**
   * What dropping entries did so far: only drops, recorded, of entries at least as young as `rank`, and closed if all
   * went well.
   */
  ghost predicate Dropped(s: State, tx: Transaction, ops: seq<Op>, s': State, pushed: seq<Record>, rank: nat, ok: bool)
  {
    Traced(s, tx, ops, s', pushed) && OnlyDrops(s, s', tx) && DropsFrom(s, s', tx, rank) && (ok ==> Closed(s, s', tx))
  }

  lemma DroppedNothing(s: State, tx: Transaction, rank: nat, ok: bool)
    ensures Dropped(s, tx, [], s, [], rank, ok)
  {
    TracedNothing(s, tx);
    NothingDropped(s, tx, rank);
  }

  lemma DroppedMore(s0: State, tx: Transaction, a: seq<Op>, s1: State, p: seq<Record>, b: seq<Op>, s2: State,
                    q: seq<Record>, rank: nat, rank': nat, ok: bool)
    requires Dropped(s0, tx, a, s1, p, rank, true) && Dropped(s1, tx, b, s2, q, rank', ok) && rank <= rank'
    ensures Dropped(s0, tx, a + b, s2, p + q, rank, ok)
  {
    TracedMore(s0, tx, a, s1, p, b, s2, q);
    MoreDrops(s0, s1, s2, tx);
    assert DropsFrom(s1, s2, tx, rank);
    MoreDropsFrom(s0, s1, s2, tx, rank);
    if ok {
      MoreClosed(s0, s1, s2, tx);
    }
  }

  /** The entry under a name was dropped, with everything that depends on it and nothing else. */
  ghost predicate DropsAll(s: State, s': State, tx: Transaction, name: Name, cascade: bool) {
    match GetEntryInternal(s, tx, name)
    case Found(index) =>
      CatalogDependencies.Drops(s, s', tx, index) && Closed(s, s', tx) && DropsWith(s, s', tx, cascade, index)
    case _ => false
  }

  ghost predicate FindsInternal(s: State, tx: Transaction, name: Name) {
    match GetEntryInternal(s, tx, name)
    case Found(index) => Top(s.entries[index]).internal
    case _ => false
  }

  /** The reasons for which a drop fails. */
  ghost predicate MayFail(s: State, tx: Transaction, name: Name, cascade: bool) {
    match GetEntryInternal(s, tx, name)
    case Missing => false
    case Conflict => true
    case Found(index) => Top(s.entries[index]).internal || Blocked(s, tx, cascade, index)
  }

  class CatalogSet {
    var mapping: map<Name, seq<MappingValue>>
    var entries: map<nat, seq<Version>>
    var currentEntry: nat
    var currentRef: nat
    var dependents: map<Ref, map<Ref, bool>>
    var dependencies: map<Ref, set<Ref>>

    constructor ()
      ensures Value() == State(map[], map[], 0, 0, map[], map[])
    {
      mapping, entries, currentEntry, currentRef, dependents, dependencies := map[], map[], 0, 0, map[], map[];
    }

    function Value(): State
      reads this
    {
      State(mapping, entries, currentEntry, currentRef, dependents, dependencies)
    }

    method FindName(tx: Transaction, name: Name) returns (m: Option<MappingValue>)
      ensures m == GetMapping(Value(), tx, name)
    {
      if name !in mapping || mapping[name] == [] {
        return None;
      }
      var value := FindMapping(mapping[name], tx);
      m := Some(value);
    }

    /** The version a transaction reads under a name. */
    method ReadEntry(tx: Transaction, name: Name) returns (v: Option<Version>)
      ensures v == GetEntry(Value(), tx, name)
    {
      var m := FindName(tx, name);
      if m.None? || m.value.deleted || m.value.index !in entries || entries[m.value.index] == [] {
        return None;
      }
      var current := GetEntryForTransaction(entries[m.value.index], tx);
      if current.Deleted() || (current.ref.name != name && !UseTimestamp(tx, m.value.timestamp)) {
        return None;
      }
      v := Some(current);
    }

    method FindEntry(tx: Transaction, name: Name) returns (found: Lookup)
      ensures found == GetEntryInternal(Value(), tx, name)
    {
      var m := FindName(tx, name);
      found := if m.None? || m.value.deleted then Missing else GetEntryAt(Value(), tx, m.value.index);
    }

    /** Whether all entries of a set can be found, or none of them. */
    method AllFound(tx: Transaction, refs: set<Ref>) returns (all: bool, none: bool)
      ensures all <==> DependenciesLive(Value(), tx, refs)
      ensures none <==> forall d | d in refs :: GetEntryInternal(Value(), tx, d.name).Missing?
    {
      all, none := true, true;
      var todo := refs;
      while todo != {}
        invariant todo <= refs
        invariant all <==> forall d | d in refs - todo :: GetEntryInternal(Value(), tx, d.name).Found?
        invariant none <==> forall d | d in refs - todo :: GetEntryInternal(Value(), tx, d.name).Missing?
        decreases |todo|
      {
        var d :| d in todo;
        var found := FindEntry(tx, d.name);
        all, none := all && found.Found?, none && found.Missing?;
        todo := todo - {d};
      }
    }

    method AddMapping(name: Name, m: MappingValue)
      modifies this`mapping
      ensures Value() == PushMapping(old(Value()), name, m)
    {
      mapping := mapping[name := (if name in mapping then mapping[name] else []) + [m]];
    }

    method RemoveMapping(name: Name)
      modifies this`mapping
      ensures Value() == PopMapping(old(Value()), name)
    {
      if name in mapping {
        if |mapping[name]| > 1 {
          mapping := mapping[name := mapping[name][..|mapping[name]| - 1]];
        } else {
          mapping := mapping - {name};
        }
      }
    }

    method AddToDependencies(target: Ref, cascade: bool, on: set<Ref>)
      modifies this`dependents, this`dependencies
      ensures Value() == Register(old(Value()), target, cascade, on)
    {
      var added := AddToDependents(dependents, target, cascade, on);
      AddedIsRegistered(Value(), target, cascade, on, added);
      dependents, dependencies := added[target := map[]], dependencies[target := on];
    }

    method EraseObject(target: Ref)
      modifies this`dependents, this`dependencies
      ensures Value() == Erase(old(Value()), target)
    {
      if target in dependents {
        var removed := RemoveFromDependents(dependents, target,
                                            if target in dependencies then dependencies[target] else {});
        RemovedIsErased(Value(), target, removed);
        dependents, dependencies := removed - {target}, dependencies - {target};
      }
    }

    method PushVersion(index: nat, v: Version) returns (r: Record)
      modifies this`entries, this`currentRef
      ensures Value() == Push(old(Value()), index, v) && r == Record(index, Height(old(Value()), index))
    {
      var chain := if index in entries then entries[index] else [];
      r := Record(index, |chain|);
      entries, currentRef := entries[index := chain + [v]], currentRef + 1;
    }

    method FinishCreateEntry(tx: Transaction, name: Name, index: nat, kind: Kind, internal: bool, on: set<Ref>)
      returns (outcome: Outcome, pushed: seq<Record>)
      modifies this
      ensures FinishCreate(old(Value()), tx, name, index, kind, internal, on) == Result(Value(), outcome, pushed)
    {
      hide Register, DependenciesLive;
      var live, none := AllFound(tx, on);
      if !live {
        return Failed, [];
      }
      var v := Version(Ref(currentRef, name), kind, internal, tx.id);
      AddToDependencies(v.ref, !kind.IndexEntry?, on);
      RegisterKeeps(old(Value()), v.ref, !kind.IndexEntry?, on);
      var r := PushVersion(index, v);
      outcome, pushed := Success, [r];
    }

    /** Creates an entry, after checking that no version of it is in the way. */
    method CreateEntry(tx: Transaction, name: Name, kind: Kind, internal: bool, on: set<Ref>)
      returns (outcome: Outcome, pushed: seq<Record>)
      modifies this
      ensures Catalog.CreateEntry(old(Value()), tx, name, kind, internal, on) == Result(Value(), outcome, pushed)
    {
      hide FinishCreate;
      var m := FindName(tx, name);
      if m.None? || m.value.deleted {
        var index := currentEntry;
        var dummy := Version(Ref(currentRef, name), Invalid, false, 0);
        entries, currentEntry, currentRef := entries[index := [dummy]], currentEntry + 1, currentRef + 1;
        if name in mapping && mapping[name] != [] && HasConflict(tx, mapping[name][|mapping[name]| - 1].timestamp) {
          return Failed, [];
        }
        AddMapping(name, MappingValue(index, tx.id, false));
        outcome, pushed := FinishCreateEntry(tx, name, index, kind, internal, on);
      } else {
        var index := m.value.index;
        if
          || index !in entries || entries[index] == []
          || HasConflict(tx, entries[index][|entries[index]| - 1].timestamp)
        {
          return Failed, [];
        }
        if !entries[index][|entries[index]| - 1].Deleted() {
          return NotDone, [];
        }
        outcome, pushed := FinishCreateEntry(tx, name, index, kind, internal, on);
      }
    }

    method FinishAlterEntry(tx: Transaction, index: nat, entry: Version, newName: Name)
      returns (outcome: Outcome, pushed: seq<Record>)
      modifies this
      ensures FinishAlter(old(Value()), tx, index, entry, newName) == Result(Value(), outcome, pushed)
    {
      hide Register;
      var all, none := AllFound(tx, if entry.ref in dependents then dependents[entry.ref].Keys else {});
      assert none <==> NoLiveDependents(Value(), tx, entry.ref);
      hide NoLiveDependents;
      if !none {
        return Failed, [];
      }
      var v := Version(Ref(currentRef, newName), entry.kind, entry.internal, tx.id);
      var on := if entry.ref in dependencies then dependencies[entry.ref] else {};
      AddToDependencies(v.ref, true, on);
      RegisterKeeps(old(Value()), v.ref, true, on);
      var r := PushVersion(index, v);
      outcome, pushed := Success, [r];
    }

    /** Replaces an entry by an altered version, moving its name if it is renamed. */
    method AlterEntry(tx: Transaction, name: Name, newName: Option<Name>)
      returns (outcome: Outcome, pushed: seq<Record>)
      modifies this
      ensures Catalog.AlterEntry(old(Value()), tx, name, newName) == Result(Value(), outcome, pushed)
    {
      hide FinishAlter;
      var found := FindEntry(tx, name);
      if found.Missing? {
        return NotDone, [];
      }
      if found.Conflict? {
        return Failed, [];
      }
      var entry := entries[found.index][|entries[found.index]| - 1];
      if entry.internal {
        return Failed, [];
      }
      if newName.None? {
        return Success, [];
      }
      if newName.value != entry.ref.name {
        var taken := IsTaken(tx, newName.value);
        var names := if newName.value in mapping then mapping[newName.value] else [];
        if taken || (names != [] && HasConflict(tx, names[|names| - 1].timestamp)) {
          return Failed, [];
        }
        AddMapping(newName.value, MappingValue(found.index, tx.id, false));
        var olds := if entry.ref.name in mapping then mapping[entry.ref.name] else [];
        AddMapping(entry.ref.name, MappingValue(if olds == [] then 0 else olds[|olds| - 1].index, tx.id, true));
      }
      outcome, pushed := FinishAlterEntry(tx, found.index, entry, newName.value);
    }

    method IsTaken(tx: Transaction, name: Name) returns (taken: bool)
      ensures taken == NameIsTaken(Value(), tx, name)
    {
      var m := FindName(tx, name);
      if m.None? || m.value.deleted || m.value.index !in entries || entries[m.value.index] == [] {
        return false;
      }
      var v := GetEntryForTransaction(entries[m.value.index], tx);
      taken := !v.Deleted();
    }

    /** Drops an entry after everything that depends on it. */
    method DropEntryInternal(tx: Transaction, index: nat, cascade: bool, ghost name: Name, ghost bound: nat)
      returns (ok: bool, pushed: seq<Record>, ghost ops: seq<Op>)
      requires tx.id >= TRANSACTION_ID_START && Ranked(Value(), tx, bound) && GetEntryAt(Value(), tx, index).Found?
      requires GetMapping(Value(), tx, name).Some? && GetMapping(Value(), tx, name).value.index == index
      modifies this
      ensures Dropped(old(Value()), tx, ops, Value(), pushed, Top(old(entries)[index]).ref.id, ok)
      ensures ok ==> CatalogDependencies.Drops(old(Value()), Value(), tx, index)
      ensures ok ==> DropsWith(old(Value()), Value(), tx, cascade, index)
      ensures !ok ==> Blocked(old(Value()), tx, cascade, index)
      ensures (cascade || Steady(old(Value()), tx)) && Blocked(old(Value()), tx, cascade, index) ==> !ok
      decreases bound - Top(entries[index]).ref.id, 1
    {
      hide Dropped, Ranked, Blocked, BlockedAt, Justified, DropsWith;
      assert Top(entries[index]).ref.id < bound by {
        RankedBound(Value(), tx, bound, index);
      }
      ghost var s0 := Value();
      var entry := entries[index][|entries[index]| - 1];
      ok, pushed, ops := DropObject(tx, entry.ref, cascade, bound);
      assert Dropped(s0, tx, ops, Value(), pushed, entry.ref.id, ok) by {
        DroppedWeaker(s0, tx, ops, Value(), pushed, entry.ref.id, entry.ref.id + 1, ok);
      }
      if ok {
        ghost var s1 := Value();
        StillThere(s0, tx, ops, s1, pushed, index);
        var v := Version(Ref(currentRef, entry.ref.name), DeletedEntry, false, tx.id);
        var r := PushVersion(index, v);
        DropTop(s0, tx, ops, s1, pushed, index, name);
        DropsWithTop(s0, tx, ops, s1, pushed, index, cascade);
        ops, pushed := ops + [Drop(name)], pushed + [r];
        NotBlockedAfterDrops(s0, tx, ops, Value(), pushed, entry.ref.id, cascade, bound, index);
      } else {
        ghost var deps := Dependents(s0, entry.ref);
        ghost var d :| d in deps && BlockedAt(s0, tx, cascade, deps[d], d);
        BlockedAbove(s0, tx, cascade, index, d);
      }
    }

    /** Drops everything that depends on an object, or fails if that takes a cascade that was not asked for. */
    method DropObject(tx: Transaction, target: Ref, cascade: bool, ghost bound: nat)
      returns (ok: bool, pushed: seq<Record>, ghost ops: seq<Op>)
      requires tx.id >= TRANSACTION_ID_START && Ranked(Value(), tx, bound) && target.id < bound
      modifies this
      ensures Dropped(old(Value()), tx, ops, Value(), pushed, target.id + 1, ok)
      ensures ok ==> forall d | d in Dependents(old(Value()), target) :: Dead(Value(), tx, d)
      ensures ok ==> Justified(old(Value()), Value(), tx, cascade, target)
      ensures !ok ==>
        exists d | d in Dependents(old(Value()), target) ::
          BlockedAt(old(Value()), tx, cascade, Dependents(old(Value()), target)[d], d)
      decreases bound - target.id, 0
    {
      hide Dropped, Ranked, Dead, BlockedAt, Justified;
      ghost var s0 := Value();
      ok, pushed, ops := true, [], [];
      DroppedNothing(s0, tx, target.id + 1, true);
      NothingJustified(s0, tx, cascade, target);
      var deps := if target in dependents then dependents[target] else map[];
      var todo := deps.Keys;
      while todo != {}
        invariant todo <= deps.Keys && Ranked(Value(), tx, bound)
        invariant Dropped(s0, tx, ops, Value(), pushed, target.id + 1, true)
        invariant forall d | d in deps.Keys - todo :: Dead(Value(), tx, d)
        invariant Justified(s0, Value(), tx, cascade, target)
        decreases |todo|
      {
        var d :| d in todo;
        ghost var s1, doneOps, donePushed := Value(), ops, pushed;
        SameAfterDrops(s0, tx, ops, s1, pushed, target.id + 1, target, true);
        var more;
        ghost var moreOps;
        ok, more, moreOps := DropDependent(tx, d, cascade, deps[d], target, bound);
        DroppedMore(s0, tx, ops, s1, pushed, moreOps, Value(), more, target.id + 1, target.id + 1, ok);
        assert forall e | e in deps.Keys - todo :: Dead(Value(), tx, e) by {
          DeadAfterDrops(s1, tx, moreOps, Value(), more, target.id + 1, ok, deps.Keys - todo);
        }
        assert Ranked(Value(), tx, bound) by {
          RankedAfterDrops(s1, tx, moreOps, Value(), more, target.id + 1, ok, bound);
        }
        pushed, ops := pushed + more, ops + moreOps;
        if !ok {
          BlockedBeforeDrops(s0, tx, doneOps, s1, donePushed, target.id + 1, cascade, deps[d], d);
          return;
        }
        JustifiedMore(s0, tx, doneOps, s1, donePushed, moreOps, Value(), more, target.id + 1, cascade, target);
        todo := todo - {d};
      }
    }

    /** Drops one dependent if an entry is still found under its name. */
    method DropDependent(tx: Transaction, d: Ref, cascade: bool, requiresCascade: bool, ghost target: Ref,
                         ghost bound: nat)
      returns (ok: bool, pushed: seq<Record>, ghost ops: seq<Op>)
      requires tx.id >= TRANSACTION_ID_START && Ranked(Value(), tx, bound) && IsDependent(Value(), target, d)
      requires target.id < bound
      requires requiresCascade == Dependents(Value(), target)[d]
      modifies this
      ensures Dropped(old(Value()), tx, ops, Value(), pushed, target.id + 1, ok)
      ensures ok ==> Dead(Value(), tx, d) && Justified(old(Value()), Value(), tx, cascade, target)
      ensures !ok ==> BlockedAt(old(Value()), tx, cascade, requiresCascade, d)
      decreases bound - target.id, 0, 0
    {
      hide Dropped, Blocked, Justified, DropsWith;
      NothingJustified(Value(), tx, cascade, target);
      ghost var s0 := Value();
      pushed, ops := [], [];
      DroppedNothing(s0, tx, target.id + 1, true);
      DroppedNothing(s0, tx, target.id + 1, false);
      var m := FindName(tx, d.name);
      if m.None? {
        return true, [], [];
      }
      var found := GetEntryAt(Value(), tx, m.value.index);
      if found.Conflict? {
        return false, [], [];
      }
      if found.Missing? {
        return true, [], [];
      }
      if !cascade && requiresCascade {
        return false, [], [];
      }
      assert RankedAt(s0, tx, d) && target.id < d.id <= Top(entries[m.value.index]).ref.id;
      RankedBound(s0, tx, bound, m.value.index);
      ghost var rank := Top(entries[m.value.index]).ref.id;
      ok, pushed, ops := DropEntryInternal(tx, m.value.index, cascade, d.name, bound);
      DroppedWeaker(s0, tx, ops, Value(), pushed, target.id + 1, rank, ok);
      if ok {
        DropsMakeDead(s0, tx, ops, Value(), pushed, rank, d, m.value.index);
        DependentJustified(s0, Value(), tx, cascade, target, d, m.value.index);
      }
    }

    /** Drops the entry under a name; everything that depends on it goes first, or the drop fails. */
    method DropEntry(tx: Transaction, name: Name, cascade: bool, ghost bound: nat)
      returns (outcome: Outcome, pushed: seq<Record>, ghost ops: seq<Op>)
      requires tx.id >= TRANSACTION_ID_START && Ranked(Value(), tx, bound)
      modifies this
      ensures Traced(old(Value()), tx, ops, Value(), pushed) && OnlyDrops(old(Value()), Value(), tx)
      ensures outcome.Success? ==> DropsAll(old(Value()), Value(), tx, name, cascade)
      ensures outcome.NotDone? <==> GetEntryInternal(old(Value()), tx, name).Missing?
      ensures outcome.NotDone? ==> Value() == old(Value())
      ensures FindsInternal(old(Value()), tx, name) ==> outcome.Failed? && Value() == old(Value())
      ensures outcome.Failed? ==> MayFail(old(Value()), tx, name, cascade)
      ensures (cascade || Steady(old(Value()), tx)) && MayFail(old(Value()), tx, name, cascade) ==> outcome.Failed?
    {
      hide Blocked, DropsWith, Ranked, Traced, OnlyDrops, Closed;
      ghost var s0 := Value();
      DroppedNothing(s0, tx, 0, true);
      pushed, ops := [], [];
      var found := FindEntry(tx, name);
      if found.Missing? {
        return NotDone, [], [];
      }
      if found.Conflict? || entries[found.index][|entries[found.index]| - 1].internal {
        return Failed, [], [];
      }
      var ok;
      ok, pushed, ops := DropEntryInternal(tx, found.index, cascade, name, bound);
      outcome := if ok then Success else Failed;
    }

    /** Takes back a version that a transaction pushed. */
    method UndoRecord(r: Record)
      requires RecordOk(Value(), r)
      modifies this
      ensures Value() == Undo(old(Value()), r)
    {
      hide Erase, PopMapping;
      var chain := entries[r.index];
      var entry, removed := chain[r.height - 1], chain[r.height];
      EraseLike(Value(), Value(), removed.ref);
      if !removed.Deleted() {
        EraseObject(removed.ref);
      }
      if entry.ref.name != removed.ref.name {
        RemoveMapping(removed.ref.name);
      }
      PopKeeps(Value(), removed.ref.name);
      var names := if entry.ref.name in mapping then mapping[entry.ref.name] else [];
      if r.height < |chain| - 1 {
        entries := entries[r.index := chain[..r.height] + chain[r.height + 1..]];
      } else if names != [] {
        entries := entries[r.index := [removed]][names[|names| - 1].index := chain[..r.height]];
      }
      if names != [] && (names[|names| - 1].deleted || entry.kind.Invalid?) {
        RemoveMapping(entry.ref.name);
      }
    }

    /** Stamps a version and the newest value of its name. */
    method StampVersion(index: nat, height: nat, timestamp: nat)
      requires height < Height(Value(), index)
      modifies this`entries, this`mapping
      ensures Value() == UpdateTimestamp(old(Value()), index, height, timestamp)
    {
      var chain := entries[index];
      var v := chain[height].(timestamp := timestamp);
      var names := if v.ref.name in mapping then mapping[v.ref.name] else [];
      entries := entries[index := chain[height := v]];
      if names != [] {
        var last := |names| - 1;
        mapping := mapping[v.ref.name := names[last := names[last].(timestamp := timestamp)]];
      }
    }

    /** Stamps everything in an undo buffer with the commit time. */
    method CommitRecords(records: seq<Record>, timestamp: nat)
      modifies this
      ensures Value() == CommitAll(old(Value()), records, timestamp)
    {
      hide UpdateTimestamp;
      for n := 0 to |records|
        invariant Value() == CommitAll(old(Value()), records[..n], timestamp)
      {
        assert records[..n + 1][..n] == records[..n];
        var r := records[n];
        if RecordOk(Value(), r) {
          var chain := entries[r.index];
          StampKeepsHeight(Value(), r.index, r.height, timestamp);
          StampVersion(r.index, r.height, timestamp);
          if chain[r.height - 1].ref.name != chain[r.height].ref.name {
            StampVersion(r.index, r.height - 1, timestamp);
          }
        }
      }
      assert records[..|records|] == records;
    }

    /** Takes back everything in an undo buffer, the last record first. */
    method RollbackRecords(records: seq<Record>)
      modifies this
      ensures Value() == Rollback(old(Value()), records)
    {
      hide Undo;
      var n := |records|;
      while n > 0
        invariant 0 <= n <= |records| && Value() == Rollback(old(Value()), records[n..])
      {
        RollbackTail(old(Value()), records, n);
        n := n - 1;
        if RecordOk(Value(), records[n]) {
          UndoRecord(records[n]);
        }
      }
      assert records[0..] == records;
    }
  }

  lemma StampKeepsHeight(s: State, index: nat, height: nat, timestamp: nat)
    requires height < Height(s, index)
    ensures Height(UpdateTimestamp(s, index, height, timestamp), index) == Height(s, index)
  {
  }

  lemma RollbackTail(s: State, records: seq<Record>, n: nat)
    requires 0 < n <= |records|
    ensures Rollback(s, records[n - 1..]) == UndoIfThere(Rollback(s, records[n..]), records[n - 1])
  {
    assert records[n - 1..][1..] == records[n..];
  }

  lemma PopKeeps(s: State, name: Name)
    ensures PopMapping(s, name).entries == s.entries
  {
  }

  lemma RankedBound(s: State, tx: Transaction, bound: nat, index: nat)
    requires Ranked(s, tx, bound) && GetEntryAt(s, tx, index).Found?
    ensures Top(s.entries[index]).ref.id < bound
  {
    assert LiveAt(s, index);
  }

  lemma DroppedWeaker(s: State, tx: Transaction, ops: seq<Op>, s': State, pushed: seq<Record>, rank: nat, rank': nat,
                      ok: bool)
    requires Dropped(s, tx, ops, s', pushed, rank', ok) && rank <= rank'
    ensures Dropped(s, tx, ops, s', pushed, rank, ok)
  {
  }

  /** Dropping younger entries leaves an entry in place. */
  lemma StillThere(s: State, tx: Transaction, ops: seq<Op>, s': State, pushed: seq<Record>, index: nat)
    requires GetEntryAt(s, tx, index).Found? && Dropped(s, tx, ops, s', pushed, Top(s.entries[index]).ref.id + 1, true)
    ensures GetEntryAt(s', tx, index).Found? && s'.entries[index] == s.entries[index]
  {
    assert DroppedAt(s, s', tx, index);
  }

  lemma DropTop(s: State, tx: Transaction, ops: seq<Op>, s1: State, pushed: seq<Record>, index: nat, name: Name)
    requires GetEntryAt(s, tx, index).Found? && Dropped(s, tx, ops, s1, pushed, Top(s.entries[index]).ref.id + 1, true)
    requires forall d | d in Dependents(s, Top(s.entries[index]).ref) :: Dead(s1, tx, d)
    requires GetMapping(s, tx, name).Some? && GetMapping(s, tx, name).value.index == index
    ensures HasChain(s1, index)
    ensures var s2 := DropVersion(s1, tx, index);
      && Dropped(s, tx, ops + [Drop(name)], s2, pushed + [Record(index, Height(s1, index))],
                 Top(s.entries[index]).ref.id, true)
      && CatalogDependencies.Drops(s, s2, tx, index)
  {
    StillThere(s, tx, ops, s1, pushed, index);
    var rank, s2 := Top(s.entries[index]).ref.id, DropVersion(s1, tx, index);
    SameDependents(s, s1, tx, Top(s.entries[index]).ref);
    assert GetMapping(s1, tx, name) == GetMapping(s, tx, name);
    DropOne(s1, tx, index);
    TracedDrop(s1, tx, name, index);
    DroppedWeaker(s, tx, ops, s1, pushed, rank, rank + 1, true);
    DroppedTwice(s, s1, s2, tx, index);
    hide Traced, OnlyDrops, Closed, DropsFrom;
    DroppedMore(s, tx, ops, s1, pushed, [Drop(name)], s2, [Record(index, Height(s1, index))], rank, rank, true);
  }

  lemma SameAfterDrops(s: State, tx: Transaction, ops: seq<Op>, s': State, pushed: seq<Record>, rank: nat, o: Ref,
                       ok: bool)
    requires Dropped(s, tx, ops, s', pushed, rank, ok)
    ensures Dependents(s', o) == Dependents(s, o) && (o in s.dependents <==> o in s'.dependents)
  {
  }

  lemma DeadAfterDrops(s: State, tx: Transaction, ops: seq<Op>, s': State, pushed: seq<Record>, rank: nat, ok: bool,
                       ds: set<Ref>)
    requires Dropped(s, tx, ops, s', pushed, rank, ok) && forall d | d in ds :: Dead(s, tx, d)
    ensures forall d | d in ds :: Dead(s', tx, d)
  {
    hide Dead;
    forall d | d in ds ensures Dead(s', tx, d) {
      DeadStays(s, s', tx, d);
    }
  }

  lemma DropsWithTop(s: State, tx: Transaction, ops: seq<Op>, s1: State, pushed: seq<Record>, index: nat, cascade: bool)
    requires GetEntryAt(s, tx, index).Found? && Dropped(s, tx, ops, s1, pushed, Top(s.entries[index]).ref.id + 1, true)
    requires Justified(s, s1, tx, cascade, Top(s.entries[index]).ref)
    ensures HasChain(s1, index) && DropsWith(s, DropVersion(s1, tx, index), tx, cascade, index)
  {
    StillThere(s, tx, ops, s1, pushed, index);
    DropLast(s, s1, tx, cascade, index);
  }

  lemma JustifiedMore(s0: State, tx: Transaction, a: seq<Op>, s1: State, p: seq<Record>, b: seq<Op>, s2: State,
                      q: seq<Record>, rank: nat, cascade: bool, source: Ref)
    requires Dropped(s0, tx, a, s1, p, rank, true) && Dropped(s1, tx, b, s2, q, rank, true)
    requires Justified(s0, s1, tx, cascade, source) && Justified(s1, s2, tx, cascade, source)
    ensures Justified(s0, s2, tx, cascade, source)
  {
    MoreJustified(s0, s1, s2, tx, cascade, source);
  }

  lemma NotBlockedAfterDrops(s: State, tx: Transaction, ops: seq<Op>, s': State, pushed: seq<Record>, rank: nat,
                             cascade: bool, bound: nat, index: nat)
    requires Dropped(s, tx, ops, s', pushed, rank, true) && CatalogDependencies.Drops(s, s', tx, index)
    requires Ranked(s, tx, bound) && DropsWith(s, s', tx, cascade, index)
    ensures cascade || Steady(s, tx) ==> !Blocked(s, tx, cascade, index)
  {
    if cascade || Steady(s, tx) {
      SuccessIsNotBlocked(s, s', tx, cascade, bound, index);
    }
  }

  lemma BlockedBeforeDrops(s: State, tx: Transaction, ops: seq<Op>, s': State, pushed: seq<Record>, rank: nat,
                           cascade: bool, needed: bool, d: Ref)
    requires Dropped(s, tx, ops, s', pushed, rank, true) && tx.id >= TRANSACTION_ID_START
    requires BlockedAt(s', tx, cascade, needed, d)
    ensures BlockedAt(s, tx, cascade, needed, d)
  {
    BlockedAtBefore(s, s', tx, cascade, needed, d);
  }

  lemma RankedAfterDrops(s: State, tx: Transaction, ops: seq<Op>, s': State, pushed: seq<Record>, rank: nat, ok: bool,
                         bound: nat)
    requires Dropped(s, tx, ops, s', pushed, rank, ok) && Ranked(s, tx, bound)
    ensures Ranked(s', tx, bound)
  {
    DropsKeepRanked(s, s', tx, bound);
  }

  lemma DropsMakeDead(s: State, tx: Transaction, ops: seq<Op>, s': State, pushed: seq<Record>, rank: nat, d: Ref,
                      index: nat)
    requires Dropped(s, tx, ops, s', pushed, rank, true) && CatalogDependencies.Drops(s, s', tx, index)
    requires tx.id >= TRANSACTION_ID_START && GetMapping(s, tx, d.name).Some?
    requires GetMapping(s, tx, d.name).value.index == index
    ensures Dead(s', tx, d)
  {
    assert GetMapping(s', tx, d.name) == GetMapping(s, tx, d.name);
  }
}
