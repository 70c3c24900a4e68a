/**
 * What an operation means to the transaction that makes it: what it reads afterwards, and what a later drop does with
 * the dependencies that were registered (src/catalog/catalog_set.cpp:18-207, 341-373;
 * src/catalog/dependency_manager.cpp:10-92).
 */
module CatalogEffects {
  import opened Catalog
  import opened CatalogDependencies
  import opened CatalogRollback
  import opened Common
  import Sets = CatalogSet

  // ---------- creating ----------

  /** A version is on top of the chain that a transaction finds under a name. */
  ghost predicate OnTopOf(s: State, tx: Transaction, name: Name, i: nat, v: Version) {
    var m := GetMapping(s, tx, name);
    m.Some? && m.value.index == i && !m.value.deleted && HasChain(s, i) && Top(s.entries[i]) == v
  }

  /** A transaction reads what it has put on top, and nothing if that is a deletion. */
  lemma TopIsRead(s: State, tx: Transaction, name: Name, i: nat, v: Version)
    requires OnTopOf(s, tx, name, i, v) && v.timestamp == tx.id && v.ref.name == name
    ensures GetEntry(s, tx, name) == if v.Deleted() then None else Some(v)
  {
  }

  /** The names a transaction finds are as they were, except one. */
  ghost predicate SameNamesBut(s: State, s': State, tx: Transaction, name: Name) {
    forall n: Name | n != name :: GetMapping(s', tx, n) == GetMapping(s, tx, n)
  }

  /** The chains are as they were, except one that has a new version on top. */
  ghost predicate SameChainsBut(s: State, s': State, i: nat) {
    && (forall k | k in s.entries && k != i :: k in s'.entries && s'.entries[k] == s.entries[k])
    && (forall k | k in s'.entries && k != i :: k in s.entries)
  }

  ghost predicate RegistersIn(s: State, s': State, target: Ref, cascade: bool, on: set<Ref>) {
    var s1 := Register(s, target, cascade, on);
    s'.dependents == s1.dependents && s'.dependencies == s1.dependencies
  }

  lemma PutIsFound(s: State, tx: Transaction, name: Name, m: MappingValue)
    requires m.timestamp == tx.id
    ensures GetMapping(PushMapping(s, name, m), tx, name) == Some(m)
    ensures SameNamesBut(s, PushMapping(s, name, m), tx, name)
  {
  }

  /** The chain found under a name has a deletion on top. */
  ghost predicate FreeUnder(s: State, tx: Transaction, name: Name, i: nat) {
    && GetMapping(s, tx, name).Some? && GetMapping(s, tx, name).value.index == i
    && HasChain(s, i) && Top(s.entries[i]).Deleted()
  }

  /** What creating an entry does: a version of the given kind on a chain that is new or was deleted. */
  ghost predicate Creates(s: State, tx: Transaction, op: Op, s': State, i: nat, v: Version)
    requires op.Create?
  {
    && v == Version(Ref(v.ref.id, op.name), op.kind, op.internal, tx.id) && s.currentRef <= v.ref.id < s'.currentRef
    && OnTopOf(s', tx, op.name, i, v) && SameNamesBut(s, s', tx, op.name) && SameChainsBut(s, s', i)
    && (i == s.currentEntry || FreeUnder(s, tx, op.name, i))
    && RegistersIn(s, s', v.ref, !op.kind.IndexEntry?, op.on)
  }

  lemma FinishCreateTells(s: State, tx: Transaction, op: Op, i: nat) returns (v: Version)
    requires op.Create? && HasChain(s, i) && GetMapping(s, tx, op.name).Some?
    requires GetMapping(s, tx, op.name).value.index == i && !GetMapping(s, tx, op.name).value.deleted
    requires FinishCreate(s, tx, op.name, i, op.kind, op.internal, op.on).outcome.Success?
    ensures var s' := FinishCreate(s, tx, op.name, i, op.kind, op.internal, op.on).state;
      && v == Version(Ref(s.currentRef, op.name), op.kind, op.internal, tx.id) && s'.currentRef == s.currentRef + 1
      && OnTopOf(s', tx, op.name, i, v) && s'.mapping == s.mapping && SameChainsBut(s, s', i)
      && RegistersIn(s, s', v.ref, !op.kind.IndexEntry?, op.on)
  {
    v := NewVersion(s, tx, op.name, op.kind, op.internal);
    RegisterKeeps(s, v.ref, !op.kind.IndexEntry?, op.on);
    hide Register, DependenciesLive;
  }

  lemma CreateTells(s: State, tx: Transaction, op: Op) returns (i: nat, v: Version)
    requires op.Create? && Apply(s, tx, op).outcome.Success?
    ensures Creates(s, tx, op, Apply(s, tx, op).state, i, v)
  {
    var m := GetMapping(s, tx, op.name);
    hide FinishCreate, RegistersIn;
    if m.None? || m.value.deleted {
      i := s.currentEntry;
      var s1 := StartChain(s, op.name);
      var value := MappingValue(i, tx.id, false);
      var names := PutMapping(s1, tx, op.name, i);
      PutIsFound(s1, tx, op.name, value);
      v := FinishCreateTells(names, tx, op, i);
      SameRegisters(names, s, Apply(s, tx, op).state, v.ref, !op.kind.IndexEntry?, op.on);
    } else {
      i := m.value.index;
      v := FinishCreateTells(s, tx, op, i);
    }
  }

  lemma SameRegisters(s: State, s0: State, s': State, target: Ref, cascade: bool, on: set<Ref>)
    requires RegistersIn(s, s', target, cascade, on)
    requires s0.dependents == s.dependents && s0.dependencies == s.dependencies
    ensures RegistersIn(s0, s', target, cascade, on)
  {
    forall d ensures Dependents(s, d) == Dependents(s0, d) {
    }
    assert Register(s, target, cascade, on).dependents == Register(s0, target, cascade, on).dependents;
  }

  /** After creating an entry its transaction reads it, with the kind it was created with. */
  lemma CreateIsRead(s: State, tx: Transaction, op: Op)
    requires op.Create? && (op.kind.ObjectEntry? || op.kind.IndexEntry?) && Apply(s, tx, op).outcome.Success?
    ensures var read := GetEntry(Apply(s, tx, op).state, tx, op.name);
      && read.Some? && read.value.kind == op.kind && read.value.internal == op.internal
      && read.value.ref.name == op.name && read.value.timestamp == tx.id && read.value.ref.id >= s.currentRef
  {
    var i, v := CreateTells(s, tx, op);
    hide Apply;
    TopIsRead(Apply(s, tx, op).state, tx, op.name, i, v);
  }

  // ---------- altering ----------

  lemma FinishAlterTells(s: State, tx: Transaction, i: nat, current: Version, newName: Name) returns (v: Version)
    requires HasChain(s, i) && FinishAlter(s, tx, i, current, newName).outcome.Success?
    ensures var s' := FinishAlter(s, tx, i, current, newName).state;
      && v == Version(Ref(s.currentRef, newName), current.kind, current.internal, tx.id)
      && HasChain(s', i) && Top(s'.entries[i]) == v && s'.mapping == s.mapping && SameChainsBut(s, s', i)
      && RegistersIn(s, s', v.ref, true, Dependencies(s, current.ref))
  {
    v := NewVersion(s, tx, newName, current.kind, current.internal);
    RegisterKeeps(s, v.ref, true, Dependencies(s, current.ref));
    hide Register, NoLiveDependents;
  }

  /** The entry an alteration replaces. */
  function Altered(s: State, tx: Transaction, name: Name): Option<Version> {
    match GetEntryInternal(s, tx, name)
    case Found(i) => Some(Top(s.entries[i]))
    case _ => None
  }

  /** The new name is found to lead to the chain of the entry, if the entry keeps its name and is not found under it. */
  predicate KeepsPlace(s: State, tx: Transaction, name: Name, newName: Name) {
    var m := GetMapping(s, tx, newName);
    Altered(s, tx, name).Some? && newName == Altered(s, tx, name).value.ref.name ==>
      m.Some? && !m.value.deleted && GetEntryInternal(s, tx, name) == Found(m.value.index)
  }

  /** Keeping the name the entry was looked up by, or taking another one, is always found. */
  lemma PlaceIsKept(s: State, tx: Transaction, name: Name, newName: Name)
    requires newName == name || !Altered(s, tx, name).Some? || newName != Altered(s, tx, name).value.ref.name
    ensures KeepsPlace(s, tx, name, newName)
  {
  }

  /** An alteration puts a version with the kind and flag of the entry on its chain, which then has the new name. */
  lemma AlterTells(s: State, tx: Transaction, name: Name, newName: Name) returns (i: nat, v: Version)
    requires AlterEntry(s, tx, name, Some(newName)).outcome.Success?
    ensures GetEntryInternal(s, tx, name) == Found(i) && Altered(s, tx, name).Some?
    ensures var s', entry := AlterEntry(s, tx, name, Some(newName)).state, Altered(s, tx, name).value;
      && v == Version(Ref(s.currentRef, newName), entry.kind, entry.internal, tx.id) && !entry.internal
      && HasChain(s', i) && Top(s'.entries[i]) == v && SameChainsBut(s, s', i)
      && RegistersIn(s, s', v.ref, true, Dependencies(s, entry.ref))
      && (OnTopOf(s', tx, newName, i, v) <==> KeepsPlace(s, tx, name, newName))
      && (newName != entry.ref.name ==> GetEntry(s', tx, entry.ref.name) == None)
  {
    var found := GetEntryInternal(s, tx, name);
    i := found.index;
    var entry := Top(s.entries[i]);
    hide FinishAlter, RegistersIn, NameIsTaken, CanPutMapping;
    if newName == entry.ref.name {
      v := FinishAlterTells(s, tx, i, entry, newName);
    } else {
      var s1 := PutMapping(s, tx, newName, i);
      var s2 := DeleteMapping(s1, tx, entry.ref.name);
      PutIsFound(s, tx, newName, MappingValue(i, tx.id, false));
      PutIsFound(s1, tx, entry.ref.name, MappingValue(NewestIndex(s1, entry.ref.name), tx.id, true));
      v := FinishAlterTells(s2, tx, i, entry, newName);
      SameRegisters(s2, s, AlterEntry(s, tx, name, Some(newName)).state, v.ref, true, Dependencies(s, entry.ref));
    }
  }

  /**
   * After altering an entry its transaction reads under the new name a version with the kind and the flag of the entry
   * it replaced, and nothing under an old name, if and only if the new name leads to the entry. It may alter or drop
   * the entry again.
   */
  lemma AlterIsRead(s: State, tx: Transaction, name: Name, newName: Name)
    requires tx.id >= TRANSACTION_ID_START && AlterEntry(s, tx, name, Some(newName)).outcome.Success?
    ensures var s', entry := AlterEntry(s, tx, name, Some(newName)).state, Altered(s, tx, name);
      && entry.Some? && (newName != entry.value.ref.name ==> GetEntry(s', tx, entry.value.ref.name) == None)
      && (KeepsPlace(s, tx, name, newName) ==>
            && GetEntry(s', tx, newName) == Some(Version(Ref(s.currentRef, newName), entry.value.kind,
                                                         entry.value.internal, tx.id))
            && !Sets.FindsInternal(s', tx, newName) && GetEntryInternal(s', tx, newName).Found?)
      && (!KeepsPlace(s, tx, name, newName) ==> GetMapping(s', tx, newName) == GetMapping(s, tx, newName))
  {
    var i, v := AlterTells(s, tx, name, newName);
    assert GetEntryAt(s, tx, i) == Found(i) && !Top(s.entries[i]).Deleted();
    if newName == Top(s.entries[i]).ref.name {
      AlterKeepsNames(s, tx, name, newName);
    }
    hide AlterEntry, RegistersIn;
    if KeepsPlace(s, tx, name, newName) {
      TopIsRead(AlterEntry(s, tx, name, Some(newName)).state, tx, newName, i, v);
    }
  }

  lemma AlterKeepsNames(s: State, tx: Transaction, name: Name, newName: Name)
    requires Altered(s, tx, name).Some? && newName == Altered(s, tx, name).value.ref.name
    ensures AlterEntry(s, tx, name, Some(newName)).state.mapping == s.mapping
  {
    var i := GetEntryInternal(s, tx, name).index;
    var entry := Top(s.entries[i]);
    RegisterKeeps(s, NewVersion(s, tx, newName, entry.kind, entry.internal).ref, true, Dependencies(s, entry.ref));
    hide Register, NoLiveDependents;
  }

  /** An altered entry depends on what it depended on, and takes a cascade when any of that is dropped. */
  lemma AlterRegisters(s: State, tx: Transaction, name: Name, newName: Name, o: Ref)
    requires Sound(s) && AlterEntry(s, tx, name, Some(newName)).outcome.Success?
    requires Altered(s, tx, name).Some? && o in Dependencies(s, Altered(s, tx, name).value.ref)
    ensures var s', v := AlterEntry(s, tx, name, Some(newName)).state, Ref(s.currentRef, newName);
      IsDependent(s', o, v) && s'.dependents[o][v] && DependsOn(s', v, o)
  {
    var i, v := AlterTells(s, tx, name, newName);
    OlderDependencies(s, Altered(s, tx, name).value.ref);
  }

  // ---------- dropping ----------

  /** After dropping an entry its transaction reads nothing under the name. */
  lemma DropIsRead(s: State, s': State, tx: Transaction, name: Name, cascade: bool)
    requires OnlyDrops(s, s', tx) && Sets.DropsAll(s, s', tx, name, cascade)
    ensures GetEntry(s', tx, name) == None
  {
  }

  // ---------- what a dependency means for a drop ----------

  /** Chain `i` is all that depends on the entry of chain `t` and is still found, and nothing found depends on it. */
  ghost predicate SoleDependent(s: State, tx: Transaction, t: nat, i: nat) {
    && GetEntryAt(s, tx, t).Found? && GetEntryAt(s, tx, i).Found? && t != i
    && (exists d :: LeadsTo(s, tx, Top(s.entries[t]).ref, d, i))
    && (forall d | d in Dependents(s, Top(s.entries[t]).ref) ::
          Dead(s, tx, d) || LeadsTo(s, tx, Top(s.entries[t]).ref, d, i))
    && (forall d | d in Dependents(s, Top(s.entries[i]).ref) :: Dead(s, tx, d))
  }

  /** Every edge that leads to a chain takes a cascade, or none does. */
  ghost predicate EdgesTake(s: State, tx: Transaction, i: nat, needed: bool) {
    forall o, d | LeadsTo(s, tx, o, d, i) :: s.dependents[o][d] == needed
  }

  lemma DeadDoesNotStop(s: State, tx: Transaction, cascade: bool, needed: bool, d: Ref)
    requires Dead(s, tx, d)
    ensures !Stops(s, tx, cascade, needed, d)
  {
  }

  lemma NoLiveBelow(s: State, tx: Transaction, i: nat, j: nat)
    requires HasChain(s, i) && forall d | d in Dependents(s, Top(s.entries[i]).ref) :: Dead(s, tx, d)
    ensures !LiveDependent(s, tx, i, j)
  {
  }

  lemma OnlyLiveBelow(s: State, tx: Transaction, t: nat, i: nat, j: nat)
    requires SoleDependent(s, tx, t, i) && LiveDependent(s, tx, t, j)
    ensures j == i
  {
  }

  /** What stops the drop of an entry with a sole dependent is that the dependent takes a cascade. */
  lemma SoleBlocksIff(s: State, tx: Transaction, cascade: bool, t: nat, i: nat, needed: bool)
    requires SoleDependent(s, tx, t, i) && EdgesTake(s, tx, i, needed)
    ensures Blocked(s, tx, cascade, t) <==> needed && !cascade
  {
    var ref := Top(s.entries[t]).ref;
    if needed && !cascade {
      var d :| LeadsTo(s, tx, ref, d, i);
      assert Stops(s, tx, cascade, Dependents(s, ref)[d], d);
      assert BlockedBy(s, tx, cascade, [t]);
    } else if Blocked(s, tx, cascade, t) {
      var path :| BlockedBy(s, tx, cascade, path) && path[0] == t;
      SolePath(s, tx, t, i, path);
      var last := path[|path| - 1];
      SoleStopsNot(s, tx, cascade, t, i, needed, last);
    }
  }

  /** A path of live dependents from the entry ends there or at its sole dependent. */
  lemma SolePath(s: State, tx: Transaction, t: nat, i: nat, path: seq<nat>)
    requires SoleDependent(s, tx, t, i) && path != [] && path[0] == t
    requires forall x | 0 <= x < |path| - 1 :: LiveDependent(s, tx, path[x], path[x + 1])
    ensures path[|path| - 1] == t || path[|path| - 1] == i
  {
    if |path| > 1 {
      assert LiveDependent(s, tx, path[0], path[0 + 1]);
      OnlyLiveBelow(s, tx, t, i, path[1]);
      if |path| > 2 {
        assert LiveDependent(s, tx, path[1], path[1 + 1]);
        NoLiveBelow(s, tx, i, path[2]);
      }
    }
  }

  lemma SoleStopsNot(s: State, tx: Transaction, cascade: bool, t: nat, i: nat, needed: bool, last: nat)
    requires SoleDependent(s, tx, t, i) && EdgesTake(s, tx, i, needed) && !(needed && !cascade)
    requires last == t || last == i
    ensures !StopsAt(s, tx, cascade, last)
  {
    var deps := Dependents(s, Top(s.entries[last]).ref);
    forall d | d in deps ensures !Stops(s, tx, cascade, deps[d], d) {
      if Dead(s, tx, d) {
        DeadDoesNotStop(s, tx, cascade, deps[d], d);
      } else {
        assert LeadsTo(s, tx, Top(s.entries[t]).ref, d, i);
      }
    }
  }

  /**
   * Dropping an entry with a sole dependent succeeds exactly if the dependent takes no cascade or one was asked for,
   * and then the dependent is gone as well.
   */
  lemma SoleDropIff(s: State, s': State, tx: Transaction, name: Name, cascade: bool, bound: nat, outcome: Outcome,
                    t: nat, i: nat, needed: bool)
    requires tx.id >= TRANSACTION_ID_START && Ranked(s, tx, bound) && OnlyDrops(s, s', tx)
    requires outcome.Success? ==> Sets.DropsAll(s, s', tx, name, cascade)
    requires outcome.NotDone? <==> GetEntryInternal(s, tx, name).Missing?
    requires outcome.Failed? ==> Sets.MayFail(s, tx, name, cascade)
    requires GetEntryInternal(s, tx, name) == Found(t) && !Top(s.entries[t]).internal
    requires SoleDependent(s, tx, t, i) && EdgesTake(s, tx, i, needed)
    ensures outcome.Success? <==> cascade || !needed
    ensures outcome.Success? ==> Drops(s, s', tx, t) && Drops(s, s', tx, i)
  {
    SoleBlocksIff(s, tx, cascade, t, i, needed);
    hide Blocked, Ranked, OnlyDrops, Closed, EdgesTake;
    if outcome.Success? {
      var d :| LeadsTo(s, tx, Top(s.entries[t]).ref, d, i);
      DependentDropped(s, s', tx, bound, t, d, i);
      if !cascade {
        EdgesSteady(s, tx, i, needed);
        PlainDropFollows(s, s', tx, bound, t, t, d, i);
        EdgeTakes(s, tx, i, needed, Top(s.entries[t]).ref, d);
      }
    }
  }

  lemma EdgesSteady(s: State, tx: Transaction, i: nat, needed: bool)
    requires EdgesTake(s, tx, i, needed)
    ensures SteadyAt(s, tx, i)
  {
  }

  lemma EdgeTakes(s: State, tx: Transaction, i: nat, needed: bool, o: Ref, d: Ref)
    requires EdgesTake(s, tx, i, needed) && LeadsTo(s, tx, o, d, i)
    ensures s.dependents[o][d] == needed
  {
  }

  // ---------- a drop after a create ----------

  /** What is registered under the name or chain of a new entry takes a cascade exactly if the entry does. */
  ghost predicate SameFlags(s: State, tx: Transaction, op: Op)
    requires op.Create?
  {
    forall o, d | IsDependent(s, o, d) && SharesChain(s, tx, d.name, op.name) ::
      s.dependents[o][d] == !op.kind.IndexEntry?
  }

  ghost predicate SharesChain(s: State, tx: Transaction, a: Name, b: Name) {
    || a == b
    || (&& GetMapping(s, tx, a).Some? && GetMapping(s, tx, b).Some?
        && GetMapping(s, tx, a).value.index == GetMapping(s, tx, b).value.index)
  }

  /** A create that is about to become the sole dependent of an entry. */
  ghost predicate BecomesSole(s: State, tx: Transaction, table: Name, op: Op) {
    && op.Create? && (op.kind.ObjectEntry? || op.kind.IndexEntry?) && op.on <= s.dependents.Keys
    && GetEntryInternal(s, tx, table).Found? && SameFlags(s, tx, op)
    && var entry := Top(s.entries[GetEntryInternal(s, tx, table).index]);
       !entry.internal && entry.ref in op.on && forall d | d in Dependents(s, entry.ref) :: Dead(s, tx, d)
  }

  lemma CreatedEdge(s: State, tx: Transaction, op: Op, s': State, i: nat, v: Version, o: Ref, d: Ref)
    requires op.Create? && Sound(s) && op.on <= s.dependents.Keys && Creates(s, tx, op, s', i, v)
    ensures IsDependent(s', o, d) <==> o != v.ref && (IsDependent(s, o, d) || (d == v.ref && o in op.on))
    ensures IsDependent(s', o, d) ==>
            s'.dependents[o][d] == if d == v.ref then !op.kind.IndexEntry? else s.dependents[o][d]
    ensures d == v.ref ==> !IsDependent(s, o, d)
    ensures Dependents(s', v.ref) == map[]
  {
    FreshRefUnknown(s, v.ref);
    RegisterDependent(s, v.ref, !op.kind.IndexEntry?, op.on, o, d);
  }

  /** Where a name leads after a create. */
  lemma CreatedLeads(s: State, tx: Transaction, op: Op, s': State, i: nat, v: Version, n: Name)
    requires op.Create? && Sound(s) && Creates(s, tx, op, s', i, v)
    ensures GetMapping(s', tx, n).Some? && GetMapping(s', tx, n).value.index == i ==> SharesChain(s, tx, n, op.name)
    ensures n != op.name ==> GetMapping(s', tx, n) == GetMapping(s, tx, n)
    ensures n == op.name ==> GetMapping(s', tx, n).Some? && GetMapping(s', tx, n).value.index == i
  {
    if n != op.name && GetMapping(s, tx, n).Some? {
      assert Leading(s.mapping[n], s.currentEntry);
      VisibleInChain(s.mapping[n], tx);
    }
  }

  lemma CreatedFlags(s: State, tx: Transaction, op: Op, s': State, i: nat, v: Version)
    requires op.Create? && Sound(s) && op.on <= s.dependents.Keys
    requires Creates(s, tx, op, s', i, v) && SameFlags(s, tx, op)
    ensures EdgesTake(s', tx, i, !op.kind.IndexEntry?)
  {
    hide Sound, Creates, SharesChain;
    forall o, d | LeadsTo(s', tx, o, d, i) ensures s'.dependents[o][d] == !op.kind.IndexEntry? {
      CreatedEdge(s, tx, op, s', i, v, o, d);
      CreatedLeads(s, tx, op, s', i, v, d.name);
    }
  }

  lemma CreatedRanked(s: State, tx: Transaction, op: Op, s': State, i: nat, v: Version, bound: nat)
    requires op.Create? && Sound(s) && op.on <= s.dependents.Keys && Creates(s, tx, op, s', i, v)
    requires Ranked(s, tx, bound) && v.ref.id < bound
    ensures Ranked(s', tx, bound)
  {
    forall o, d | IsDependent(s', o, d) ensures o.id < d.id && RankedAt(s', tx, d) {
      CreatedEdge(s, tx, op, s', i, v, o, d);
      CreatedLeads(s, tx, op, s', i, v, d.name);
      if d != v.ref {
        assert Older(s.dependents[o].Keys, s.currentRef) && RankedAt(s, tx, d);
      } else {
        assert Older(s.dependents.Keys, s.currentRef);
      }
    }
    forall k | LiveAt(s', k) ensures Top(s'.entries[k]).ref.id < bound {
      assert k != i ==> LiveAt(s, k);
    }
  }

  lemma CreatedDead(s: State, tx: Transaction, op: Op, s': State, i: nat, v: Version, d: Ref)
    requires op.Create? && Sound(s) && Creates(s, tx, op, s', i, v) && Dead(s, tx, d)
    ensures Dead(s', tx, d) || (GetMapping(s', tx, d.name).Some? && GetMapping(s', tx, d.name).value.index == i)
  {
    CreatedLeads(s, tx, op, s', i, v, d.name);
    var m := GetMapping(s', tx, d.name);
    if m.Some? && m.value.index != i {
      assert m == GetMapping(s, tx, d.name);
      var k := m.value.index;
      assert k in s'.entries <==> k in s.entries;
      assert k in s.entries ==> s'.entries[k] == s.entries[k];
    }
  }

  lemma CreatedIsSole(s: State, tx: Transaction, table: Name, op: Op, s': State, i: nat, v: Version)
    requires Sound(s) && tx.id >= TRANSACTION_ID_START && BecomesSole(s, tx, table, op) && Creates(s, tx, op, s', i, v)
    requires op.name != table
    ensures var t := GetEntryInternal(s, tx, table).index;
      GetEntryInternal(s', tx, table) == Found(t) && s'.entries[t] == s.entries[t] && SoleDependent(s', tx, t, i)
  {
    var t := GetEntryInternal(s, tx, table).index;
    var ref := Top(s.entries[t]).ref;
    assert t != i && s'.entries[t] == s.entries[t];
    CreatedEdge(s, tx, op, s', i, v, ref, v.ref);
    FreshRefUnknown(s, v.ref);
    CreatedLeads(s, tx, op, s', i, v, op.name);
    assert LeadsTo(s', tx, ref, v.ref, i);
    forall d | d in Dependents(s', ref) ensures Dead(s', tx, d) || LeadsTo(s', tx, ref, d, i) {
      CreatedEdge(s, tx, op, s', i, v, ref, d);
      if d != v.ref {
        assert Dead(s, tx, d);
        CreatedDead(s, tx, op, s', i, v, d);
      }
    }
  }

  /** A create does not succeed under the name of an entry that the transaction finds. */
  lemma CreateElsewhere(s: State, tx: Transaction, op: Op, table: Name)
    requires op.Create? && Apply(s, tx, op).outcome.Success? && GetEntryInternal(s, tx, table).Found?
    ensures op.name != table
  {
    hide FinishCreate;
  }

  /**
   * Creating an entry that becomes the sole dependent of another, and then dropping the other: it takes a cascade
   * unless the new entry is an index, and then both are gone.
   */
  method CreateThenDrop(sets: Sets.CatalogSet, tx: Transaction, table: Name, name: Name, kind: Kind, internal: bool,
                        on: set<Ref>, cascade: bool, ghost bound: nat) returns (created: Outcome, dropped: Outcome)
    requires tx.id >= TRANSACTION_ID_START && Sound(sets.Value()) && Ranked(sets.Value(), tx, bound)
    requires BecomesSole(sets.Value(), tx, table, Create(name, kind, internal, on))
    modifies sets
    ensures created.Success? ==> (dropped.Success? <==> cascade || kind.IndexEntry?)
    ensures created.Success? && dropped.Success? ==>
            GetEntry(sets.Value(), tx, table) == None && GetEntry(sets.Value(), tx, name) == None
    ensures created.Success? && !dropped.Success? ==> dropped.Failed?
  {
    ghost var s, op := sets.Value(), Create(name, kind, internal, on);
    dropped := NotDone;
    var pushed;
    created, pushed := sets.CreateEntry(tx, name, kind, internal, on);
    if created.Success? {
      ghost var s1 := sets.Value();
      assert Apply(s, tx, op).state == s1;
      ghost var i, v := CreateTells(s, tx, op);
      CreateElsewhere(s, tx, op, table);
      hide Apply, Sound, Ranked, SoleDependent, EdgesTake, Creates, BecomesSole, Sets.MayFail, Sets.DropsAll,
           Catalog.CreateEntry;
      ghost var bound' := if bound <= v.ref.id then v.ref.id + 1 else bound;
      AfterCreate(s, tx, table, op, s1, i, v, bound, bound');
      ghost var ops;
      dropped, pushed, ops := sets.DropEntry(tx, table, cascade, bound');
      AfterDrop(s1, sets.Value(), tx, table, name, cascade, bound', dropped, i, v, !kind.IndexEntry?);
    }
  }

  lemma AfterCreate(s: State, tx: Transaction, table: Name, op: Op, s': State, i: nat, v: Version, bound: nat,
                    bound': nat)
    requires Sound(s) && tx.id >= TRANSACTION_ID_START && BecomesSole(s, tx, table, op) && Creates(s, tx, op, s', i, v)
    requires op.name != table && Ranked(s, tx, bound) && bound <= bound' && v.ref.id < bound'
    ensures Ranked(s', tx, bound') && EdgesTake(s', tx, i, !op.kind.IndexEntry?) && OnTopOf(s', tx, op.name, i, v)
    ensures GetEntryInternal(s', tx, table).Found? && var t := GetEntryInternal(s', tx, table).index;
      !Top(s'.entries[t]).internal && SoleDependent(s', tx, t, i)
  {
    assert Ranked(s, tx, bound') by {
      RankedMore(s, tx, bound, bound');
    }
    hide Ranked, Sound;
    CreatedRanked(s, tx, op, s', i, v, bound');
    CreatedFlags(s, tx, op, s', i, v);
    CreatedIsSole(s, tx, table, op, s', i, v);
  }

  lemma RankedMore(s: State, tx: Transaction, bound: nat, bound': nat)
    requires Ranked(s, tx, bound) && bound <= bound'
    ensures Ranked(s, tx, bound')
  {
  }

  lemma AfterDrop(s: State, s': State, tx: Transaction, table: Name, name: Name, cascade: bool, bound: nat,
                  outcome: Outcome, i: nat, v: Version, needed: bool)
    requires tx.id >= TRANSACTION_ID_START && Ranked(s, tx, bound) && OnlyDrops(s, s', tx)
    requires outcome.Success? ==> Sets.DropsAll(s, s', tx, table, cascade)
    requires outcome.NotDone? <==> GetEntryInternal(s, tx, table).Missing?
    requires outcome.Failed? ==> Sets.MayFail(s, tx, table, cascade)
    requires GetEntryInternal(s, tx, table).Found? && var t := GetEntryInternal(s, tx, table).index;
      !Top(s.entries[t]).internal && SoleDependent(s, tx, t, i)
    requires EdgesTake(s, tx, i, needed) && OnTopOf(s, tx, name, i, v)
    ensures outcome.Success? <==> cascade || !needed
    ensures outcome.Success? ==> GetEntry(s', tx, table) == None && GetEntry(s', tx, name) == None
    ensures !outcome.Success? ==> outcome.Failed?
  {
    var t := GetEntryInternal(s, tx, table).index;
    SoleDropIff(s, s', tx, table, cascade, bound, outcome, t, i, needed);
    if outcome.Success? {
      DropIsRead(s, s', tx, table, cascade);
      assert GetMapping(s', tx, name) == GetMapping(s, tx, name);
    }
  }
}
