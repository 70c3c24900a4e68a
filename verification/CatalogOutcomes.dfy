/**
 * When the operations of a transaction succeed, in every state of a run without renames, and that an uncommitted rename
 * is not seen (src/catalog/catalog_set.cpp:18-207; src/catalog/dependency_manager.cpp:10-92).
 */
module CatalogOutcomes {
  import opened Catalog
  import opened CatalogReads
  import opened CatalogRenames
  import opened CatalogRollback
  import opened CatalogRuns
  import opened Common

  /** Some version is another transaction's, or was committed after this one began. */
  ghost predicate Contested(chain: seq<Version>, tx: Transaction) {
    exists h | 1 <= h < |chain| ::
      if chain[h].timestamp >= TRANSACTION_ID_START then chain[h].timestamp != tx.id else chain[h].timestamp > tx.start
  }

  /** An entry that a transaction may change: it is there, and no other transaction is in the way. */
  ghost predicate Writable(chain: seq<Version>, tx: Transaction) {
    chain != [] && !Contested(chain, tx) && !Top(chain).Deleted()
  }

  /** Nothing is there, and no other transaction is in the way. */
  ghost predicate Vacant(chain: seq<Version>, tx: Transaction) {
    chain == [] || (!Contested(chain, tx) && Top(chain).Deleted())
  }

  lemma ContestedIffTop(y: System, id: nat, n: Name)
    requires Inv(y) && id in y.starts && ChainOf(y.catalog, n) != []
    ensures var chain, tx := ChainOf(y.catalog, n), TxOf(y, id);
      Contested(chain, tx) <==> HasConflict(tx, Top(chain).timestamp)
  {
    var chain, tx := ChainOf(y.catalog, n), TxOf(y, id);
    ChainOfOk(y, n);
    assert RunningOk(y, id);
    hide Inv;
    if Contested(chain, tx) {
      var h :| 1 <= h < |chain| && HasConflict(tx, chain[h].timestamp);
      NoLostUpdate(chain, y.starts, tx, h);
    } else if |chain| > 1 {
      var h := |chain| - 1;
      assert !HasConflict(tx, chain[h].timestamp);
    }
  }

  /** What looking an entry up for writing reports. */
  lemma LookupLaw(y: System, id: nat, n: Name)
    requires Inv(y) && id in y.starts
    ensures var chain, tx := ChainOf(y.catalog, n), TxOf(y, id);
      var found := GetEntryInternal(y.catalog, tx, n);
      && (found.Missing? <==> Vacant(chain, tx)) && (found.Found? <==> Writable(chain, tx))
      && (found.Found? ==> y.catalog.entries[found.index] == chain)
      && (chain != [] ==> GetMapping(y.catalog, tx, n) == Some(y.catalog.mapping[n][0]))
      && (chain == [] ==> n !in y.catalog.mapping)
  {
    MappingFound(y.catalog, y.starts, y.clock, TxOf(y, id), n);
    if ChainOf(y.catalog, n) != [] {
      ContestedIffTop(y, id, n);
    }
  }

  /** Everything a new entry depends on can still be changed by the transaction. */
  ghost predicate AllWritable(s: State, tx: Transaction, on: set<Ref>) {
    forall d | d in on :: Writable(ChainOf(s, d.name), tx)
  }

  /** Nothing that depends on an object is there, for this transaction or another one. */
  ghost predicate AllVacant(s: State, tx: Transaction, target: Ref) {
    forall d | d in Dependents(s, target) :: Vacant(ChainOf(s, d.name), tx)
  }

  lemma DependenciesLaw(y: System, id: nat, on: set<Ref>)
    requires Inv(y) && id in y.starts
    ensures DependenciesLive(y.catalog, TxOf(y, id), on) <==> AllWritable(y.catalog, TxOf(y, id), on)
  {
    forall d | d in on
      ensures GetEntryInternal(y.catalog, TxOf(y, id), d.name).Found? <==>
              Writable(ChainOf(y.catalog, d.name), TxOf(y, id))
    {
      LookupLaw(y, id, d.name);
    }
  }

  lemma DependentsLaw(y: System, id: nat, target: Ref)
    requires Inv(y) && id in y.starts
    ensures NoLiveDependents(y.catalog, TxOf(y, id), target) <==> AllVacant(y.catalog, TxOf(y, id), target)
  {
    forall d | d in Dependents(y.catalog, target)
      ensures GetEntryInternal(y.catalog, TxOf(y, id), d.name).Missing? <==>
              Vacant(ChainOf(y.catalog, d.name), TxOf(y, id))
    {
      LookupLaw(y, id, d.name);
    }
  }

  /** The new chain of a name is not found before it has a real version. */
  lemma NamedDependencies(s: State, tx: Transaction, name: Name, on: set<Ref>)
    requires name !in s.mapping && s.currentEntry !in s.entries
    requires forall n | n in s.mapping && s.mapping[n] != [] :: GetMapping(s, tx, n).value.index != s.currentEntry
    ensures DependenciesLive(Named(s, tx, name), tx, on) <==> DependenciesLive(s, tx, on)
  {
    var s' := Named(s, tx, name);
    forall n: Name ensures GetEntryInternal(s', tx, n).Found? <==> GetEntryInternal(s, tx, n).Found? {
      if n != name {
        assert GetMapping(s', tx, n) == GetMapping(s, tx, n);
      }
    }
  }

  lemma FinishCreateOutcome(s: State, tx: Transaction, name: Name, i: nat, kind: Kind, internal: bool, on: set<Ref>)
    ensures FinishCreate(s, tx, name, i, kind, internal, on).outcome ==
            if DependenciesLive(s, tx, on) then Success else Failed
  {
  }

  /** When creating an entry succeeds. */
  lemma CreateOutcome(y: System, id: nat, op: Op)
    requires Inv(y) && id in y.starts && op.Create?
    ensures var chain, tx := ChainOf(y.catalog, op.name), TxOf(y, id);
      Apply(y.catalog, tx, op).outcome ==
      if Writable(chain, tx) then NotDone
      else if Vacant(chain, tx) && AllWritable(y.catalog, tx, op.on) then Success else Failed
  {
    var s, tx := y.catalog, TxOf(y, id);
    LookupLaw(y, id, op.name);
    DependenciesLaw(y, id, op.on);
    forall n | n in s.mapping && s.mapping[n] != [] ensures GetMapping(s, tx, n).value.index != s.currentEntry {
      MappingFound(s, y.starts, y.clock, tx, n);
    }
    hide Inv, DependenciesLive, FinishCreate, AllWritable;
    var chain := ChainOf(s, op.name);
    if chain == [] {
      assert s.currentEntry !in s.entries by {
        InvNext(y);
      }
      NamedDependencies(s, tx, op.name, op.on);
      FinishCreateOutcome(Named(s, tx, op.name), tx, op.name, s.currentEntry, op.kind, op.internal, op.on);
    } else {
      ContestedIffTop(y, id, op.name);
      FinishCreateOutcome(s, tx, op.name, s.mapping[op.name][0].index, op.kind, op.internal, op.on);
    }
  }

  lemma InvNext(y: System)
    requires Inv(y)
    ensures y.catalog.currentEntry !in y.catalog.entries
  {
  }

  /** When altering an entry under its name succeeds. */
  lemma AlterOutcome(y: System, id: nat, op: Op)
    requires Inv(y) && id in y.starts && op.Alter? && KeepsNames(op)
    ensures var chain, tx := ChainOf(y.catalog, op.name), TxOf(y, id);
      Apply(y.catalog, tx, op).outcome ==
      if Vacant(chain, tx) then NotDone
      else if Writable(chain, tx) && !Top(chain).internal &&
              (op.newName.None? || AllVacant(y.catalog, tx, Top(chain).ref)) then Success
      else Failed
  {
    var s, tx := y.catalog, TxOf(y, id);
    var chain := ChainOf(s, op.name);
    LookupLaw(y, id, op.name);
    if chain != [] {
      ChainOfOk(y, op.name);
      DependentsLaw(y, id, Top(chain).ref);
      assert chain[0].ref.name == op.name by {
        MappingFound(s, y.starts, y.clock, tx, op.name);
      }
    }
    hide Inv, NoLiveDependents, AllVacant, Register, NameIsTaken, CanPutMapping, Contested;
  }

  /** When dropping an entry that nothing depends on succeeds. */
  lemma DropOutcome(y: System, id: nat, name: Name)
    requires Inv(y) && id in y.starts
    ensures var chain, tx := ChainOf(y.catalog, name), TxOf(y, id);
      Apply(y.catalog, tx, Drop(name)).outcome ==
      if Vacant(chain, tx) then NotDone else if Writable(chain, tx) then Success else Failed
  {
    LookupLaw(y, id, name);
    MappingFound(y.catalog, y.starts, y.clock, TxOf(y, id), name);
    hide Inv, Contested;
  }

  /** A transaction reads nothing under a name exactly if a rename to it is not refused as taken. */
  lemma TakenIffRead(y: System, id: nat, n: Name)
    requires Inv(y) && id in y.starts
    ensures NameIsTaken(y.catalog, TxOf(y, id), n) <==> GetEntry(y.catalog, TxOf(y, id), n).Some?
  {
    MappingFound(y.catalog, y.starts, y.clock, TxOf(y, id), n);
    if n in y.catalog.mapping {
      VisibleHasName(ChainOf(y.catalog, n), y.starts, y.clock, TxOf(y, id));
    }
  }

  /** When renaming an entry succeeds: the new name is free, and nobody else has taken it. */
  lemma RenameOutcome(y: System, id: nat, n: Name, m: Name)
    requires Inv(y) && id in y.starts && n != m
    ensures var s, chain, tx := y.catalog, ChainOf(y.catalog, n), TxOf(y, id);
      AlterEntry(s, tx, n, Some(m)).outcome ==
      if Vacant(chain, tx) then NotDone
      else if Writable(chain, tx) && !Top(chain).internal && GetEntry(s, tx, m).None? &&
              (m in s.mapping ==> !HasConflict(tx, s.mapping[m][0].timestamp)) &&
              NoLiveDependents(Renamed(s, tx, s.mapping[n][0].index, n, m), tx, Top(chain).ref) then Success
      else Failed
  {
    var s, tx := y.catalog, TxOf(y, id);
    LookupLaw(y, id, n);
    TakenIffRead(y, id, m);
    MappingFound(s, y.starts, y.clock, tx, n);
    MappingFound(s, y.starts, y.clock, tx, m);
    hide Inv, NoLiveDependents, Register, NameIsTaken, Contested, GetEntry;
  }

  /** Until it is committed, no other transaction sees a rename: they read what they read before, under every name. */
  lemma UncommittedRenameUnseen(y: System, writer: nat, reader: nat, n: Name, m: Name, k: Name)
    requires Inv(y) && writer in y.starts && reader in y.starts && reader != writer
    requires n != m && AlterEntry(y.catalog, TxOf(y, writer), n, Some(m)).outcome.Success?
    ensures var s' := AlterEntry(y.catalog, TxOf(y, writer), n, Some(m)).state;
      GetEntry(s', TxOf(y, reader), k) == GetEntry(y.catalog, TxOf(y, reader), k)
  {
    var s, tx := y.catalog, TxOf(y, reader);
    assert RunningOk(y, writer) && RunningOk(y, reader);
    var i, v := RenameEffect(s, y.starts, y.clock, TxOf(y, writer), n, m);
    var s' := AlterEntry(s, TxOf(y, writer), n, Some(m)).state;
    MappingFound(s, y.starts, y.clock, tx, k);
    MappingFound(s, y.starts, y.clock, tx, n);
    VisibleHasName(s.entries[i], y.starts, y.clock, tx);
    hide Inv, AlterEntry;
    assert (s.entries[i] + [v])[..|s.entries[i]|] == s.entries[i];
    assert VisibleVersion(s'.entries[i], tx) == VisibleVersion(s.entries[i], tx);
    if k in s.mapping && s'.mapping[k] != s.mapping[k] {
      assert s'.mapping[k][..1] == s.mapping[k];
    }
  }
}
