/**
 * In every reachable state of the catalog the dependency graph is ranked by age, so that dropping an entry with its
 * dependents comes to an end (src/catalog/dependency_manager.cpp:10-119; src/catalog/catalog_set.cpp:163-207).
 */
module CatalogCascades {
  import opened Catalog
  import opened CatalogDependencies
  import opened CatalogRollback
  import opened CatalogRuns
  import opened Common

  ghost predicate IdsRise(chain: seq<Version>, n: nat) {
    && (forall h | 0 <= h < |chain| :: chain[h].ref.id < n)
    && (forall h, k | 0 <= h < k < |chain| :: chain[h].ref.id < chain[k].ref.id)
  }

  ghost predicate Ascending(s: State) {
    forall i | i in s.entries :: IdsRise(s.entries[i], s.currentRef)
  }

  ghost predicate PresentAt(s: State, d: Ref, i: nat, h: nat) {
    i in s.entries && 0 < h < |s.entries[i]| && s.entries[i][h].ref == d && !s.entries[i][h].Deleted()
  }

  ghost predicate Present(s: State, d: Ref) {
    exists i, h :: PresentAt(s, d, i, h)
  }

  /** Objects are younger than what they depend on, and every dependent is a version in some chain. */
  ghost predicate ByAge(s: State) {
    && Fresh(s) && Acyclic(s) && Ascending(s)
    && (forall o, d :: IsDependent(s, o, d) ==> DependsOn(s, d, o))
    && (forall o, d :: IsDependent(s, o, d) ==> Present(s, d))
    && (forall d | d in s.dependencies :: d in s.dependents)
  }

  lemma PresentStays(s: State, s': State, d: Ref)
    requires Present(s, d) && forall i | i in s.entries :: i in s'.entries && s.entries[i] <= s'.entries[i]
    ensures Present(s', d)
  {
    var i, h :| PresentAt(s, d, i, h);
    assert PresentAt(s', d, i, h);
  }

  lemma PushAscending(s: State, s': State, i: nat, v: Version)
    requires Ascending(s) && HasChain(s, i) && s'.entries == s.entries[i := s.entries[i] + [v]]
    requires v.ref.id == s.currentRef < s'.currentRef
    ensures Ascending(s') && forall k | k in s.entries :: k in s'.entries && s.entries[k] <= s'.entries[k]
  {
    forall k | k in s'.entries ensures IdsRise(s'.entries[k], s'.currentRef) {
      assert IdsRise(s.entries[k], s.currentRef);
    }
  }

  /** A new object on top of a chain. */
  lemma RegisteredByAge(s: State, cascade: bool, on: set<Ref>, i: nat, v: Version)
    requires ByAge(s) && HasChain(s, i) && v.ref.id == s.currentRef && Older(on, s.currentRef) && !v.Deleted()
    ensures ByAge(Push(Register(s, v.ref, cascade, on), i, v))
  {
    FreshRefUnknown(s, v.ref);
    var s' := Push(Register(s, v.ref, cascade, on), i, v);
    RegisterKeeps(s, v.ref, cascade, on);
    RegisterOlder(s, v.ref, cascade, on, s');
    assert forall d | d in s'.dependencies :: d in s'.dependents;
    hide Register, IsDependent, DependsOn, Fresh, Present, PresentAt;
    PushAscending(s, s', i, v);
    hide Ascending;
    forall o, d | IsDependent(s', o, d) ensures o.id < d.id && DependsOn(s', d, o) && Present(s', d) {
      RegisteredEdge(s, v.ref, cascade, on, s', o, d);
      if d == v.ref {
        assert Present(s', d) by {
          PushedIsPresent(s, s', i, v);
        }
      } else {
        PresentStays(s, s', d);
      }
    }
  }

  lemma PushedIsPresent(s: State, s': State, i: nat, v: Version)
    requires HasChain(s, i) && i in s'.entries && s'.entries[i] == s.entries[i] + [v] && !v.Deleted()
    ensures Present(s', v.ref)
  {
    assert PresentAt(s', v.ref, i, |s.entries[i]|);
  }

  /** An edge after an object was registered: an old one, or one from what it depends on. */
  lemma RegisteredEdge(s: State, target: Ref, cascade: bool, on: set<Ref>, s': State, o: Ref, d: Ref)
    requires Acyclic(s) && Older(on, s.currentRef) && target !in s.dependents && s.currentRef <= target.id
    requires s'.dependents == Register(s, target, cascade, on).dependents
    requires s'.dependencies == Register(s, target, cascade, on).dependencies
    requires forall o, d :: IsDependent(s, o, d) ==> DependsOn(s, d, o)
    requires forall r | r in s.dependents :: target !in s.dependents[r]
    requires IsDependent(s', o, d)
    ensures o.id < d.id && DependsOn(s', d, o) && (d == target || IsDependent(s, o, d))
  {
    if d != target {
      assert IsDependent(s, o, d) && DependsOn(s, d, o);
    }
  }

  lemma RegisterOlder(s: State, target: Ref, cascade: bool, on: set<Ref>, s': State)
    requires Fresh(s) && Older(on, s.currentRef) && s.currentRef <= target.id < s'.currentRef
    requires s'.dependents == Register(s, target, cascade, on).dependents
    requires s'.dependencies == Register(s, target, cascade, on).dependencies
    ensures Fresh(s')
  {
    forall r | r in s'.dependents ensures Older(s'.dependents[r].Keys, s'.currentRef) {
      if r in s.dependents {
        assert Older(s.dependents[r].Keys, s.currentRef);
      }
    }
  }

  lemma SameDependenciesByAge(s: State, s': State)
    requires ByAge(s) && s'.dependents == s.dependents && s'.dependencies == s.dependencies
    requires s.currentRef <= s'.currentRef
    requires Ascending(s') && forall k | k in s.entries :: k in s'.entries && s.entries[k] <= s'.entries[k]
    ensures ByAge(s')
  {
    forall o, d | IsDependent(s', o, d) ensures o.id < d.id && DependsOn(s', d, o) && Present(s', d) {
      assert IsDependent(s, o, d) && DependsOn(s, d, o);
      PresentStays(s, s', d);
    }
  }

  lemma NamedByAge(s: State, tx: Transaction, name: Name)
    requires ByAge(s) && s.currentEntry !in s.entries
    ensures ByAge(Named(s, tx, name))
  {
    var s' := Named(s, tx, name);
    forall k | k in s'.entries ensures IdsRise(s'.entries[k], s'.currentRef) {
      if k in s.entries {
        assert IdsRise(s.entries[k], s.currentRef);
      }
    }
    SameDependenciesByAge(s, s');
  }

  lemma DropByAge(s: State, tx: Transaction, i: nat)
    requires ByAge(s) && HasChain(s, i)
    ensures ByAge(DropVersion(s, tx, i))
  {
    var s' := DropVersion(s, tx, i);
    PushAscending(s, s', i, s'.entries[i][|s.entries[i]|]);
    SameDependenciesByAge(s, s');
  }

  lemma FinishCreateByAge(s: State, tx: Transaction, name: Name, i: nat, kind: Kind, internal: bool, on: set<Ref>)
    requires ByAge(s) && HasChain(s, i) && Older(on, s.currentRef) && (kind.ObjectEntry? || kind.IndexEntry?)
    ensures ByAge(FinishCreate(s, tx, name, i, kind, internal, on).state)
  {
    hide ByAge, DependenciesLive, Register, Older;
    RegisteredByAge(s, !kind.IndexEntry?, on, i, NewVersion(s, tx, name, kind, internal));
  }

  /** Creating an entry is finishing it on the chain of its name, or on a new one. */
  lemma CreateCases(s: State, starts: map<nat, nat>, clock: nat, tx: Transaction, op: Op)
    requires ChainsOk(s, starts, clock) && op.Create?
    ensures op.name in s.mapping ==> s.mapping[op.name] != [] && HasChain(s, s.mapping[op.name][0].index)
    ensures op.name in s.mapping ==>
              || Apply(s, tx, op).state == s
              || Apply(s, tx, op) ==
                 FinishCreate(s, tx, op.name, s.mapping[op.name][0].index, op.kind, op.internal, op.on)
    ensures op.name !in s.mapping ==>
              Apply(s, tx, op) ==
              FinishCreate(Named(s, tx, op.name), tx, op.name, s.currentEntry, op.kind, op.internal, op.on)
  {
    MappingFound(s, starts, clock, tx, op.name);
    hide ChainsOk, ChainOk, FinishCreate;
  }

  lemma CreateByAge(s: State, starts: map<nat, nat>, clock: nat, tx: Transaction, op: Op)
    requires ChainsOk(s, starts, clock) && op.Create? && OpOk(s, op) && ByAge(s)
    ensures ByAge(Apply(s, tx, op).state)
  {
    CreateCases(s, starts, clock, tx, op);
    assert s.currentEntry !in s.entries;
    KnownOlder(s, op.on);
    hide ChainsOk, ByAge, FinishCreate, Apply;
    if op.name in s.mapping {
      FinishCreateByAge(s, tx, op.name, s.mapping[op.name][0].index, op.kind, op.internal, op.on);
    } else {
      NamedByAge(s, tx, op.name);
      FinishCreateByAge(Named(s, tx, op.name), tx, op.name, s.currentEntry, op.kind, op.internal, op.on);
    }
  }

  lemma AlterByAge(s: State, starts: map<nat, nat>, clock: nat, tx: Transaction, op: Op)
    requires ChainsOk(s, starts, clock) && op.Alter? && KeepsNames(op) && ByAge(s)
    ensures ByAge(Apply(s, tx, op).state)
  {
    MappingFound(s, starts, clock, tx, op.name);
    if op.name in s.mapping {
      var i := s.mapping[op.name][0].index;
      var top := Top(s.entries[i]);
      TopName(s, starts, clock, i);
      AgeOfDependencies(s, top.ref);
      hide ChainsOk, Register, ByAge, NoLiveDependents, ChainOk, NameIsTaken, Older;
      if !top.Deleted() {
        RegisteredByAge(s, true, Dependencies(s, top.ref), i, NewVersion(s, tx, top.ref.name, top.kind, top.internal));
      }
    }
  }

  lemma ApplyByAge(s: State, starts: map<nat, nat>, clock: nat, tx: Transaction, op: Op)
    requires ChainsOk(s, starts, clock) && KeepsNames(op) && OpOk(s, op) && ByAge(s)
    ensures ByAge(Apply(s, tx, op).state)
  {
    hide ByAge;
    match op
    case Create(_, _, _, _) => CreateByAge(s, starts, clock, tx, op);
    case Alter(_, _) => AlterByAge(s, starts, clock, tx, op);
    case Drop(name) =>
      MappingFound(s, starts, clock, tx, name);
      if name in s.mapping {
        DropByAge(s, tx, s.mapping[name][0].index);
      }
  }

  lemma KnownOlder(s: State, on: set<Ref>)
    requires ByAge(s) && on <= s.dependents.Keys
    ensures Older(on, s.currentRef)
  {
  }

  lemma AgeOfDependencies(s: State, d: Ref)
    requires ByAge(s)
    ensures Older(Dependencies(s, d), s.currentRef)
  {
  }

  lemma TopName(s: State, starts: map<nat, nat>, clock: nat, i: nat)
    requires ChainsOk(s, starts, clock) && HasChain(s, i)
    ensures Top(s.entries[i]).ref.name == s.entries[i][0].ref.name
  {
    assert ChainOk(s.entries[i], starts, clock);
  }

  lemma EraseFresh(s: State, target: Ref, s': State)
    requires Fresh(s) && s'.dependents == Erase(s, target).dependents
    requires s'.dependencies == Erase(s, target).dependencies
    requires s'.currentRef == s.currentRef
    ensures Fresh(s')
  {
    forall r | r in s'.dependents ensures Older(s'.dependents[r].Keys, s'.currentRef) {
      assert Older(s.dependents[r].Keys, s.currentRef);
    }
  }

  lemma ErasedEdge(s: State, target: Ref, s': State, o: Ref, d: Ref)
    requires s'.dependents == Erase(s, target).dependents && s'.dependencies == Erase(s, target).dependencies
    requires forall o, d :: IsDependent(s, o, d) ==> DependsOn(s, d, o)
    requires IsDependent(s', o, d)
    requires forall d | d in s.dependencies :: d in s.dependents
    ensures IsDependent(s, o, d) && DependsOn(s', d, o) && d != target
  {
    assert IsDependent(s, o, d) && DependsOn(s, d, o);
  }

  /** Every dependent but the version taken back is still in a chain. */
  lemma UncoveredPresent(s: State, i: nat, s': State, d: Ref)
    requires Uncovered(s, i, s') && Present(s, d) && (Top(s.entries[i]).Deleted() || Top(s.entries[i]).ref != d)
    ensures Present(s', d)
  {
    var k, h :| PresentAt(s, d, k, h);
    assert PresentAt(s', d, k, h);
  }

  lemma UncoveredAscending(s: State, i: nat, s': State)
    requires Ascending(s) && Uncovered(s, i, s') && s'.currentRef == s.currentRef
    ensures Ascending(s')
  {
    forall k | k in s'.entries ensures IdsRise(s'.entries[k], s'.currentRef) {
      assert IdsRise(s.entries[k], s.currentRef);
    }
  }

  /** The top version of a chain is taken back, and with it what was recorded of its dependencies. */
  lemma UndoByAge(s: State, starts: map<nat, nat>, clock: nat, r: Record)
    requires ChainsOk(s, starts, clock) && ByAge(s) && r.index in s.entries && 0 < r.height == |s.entries[r.index]| - 1
    ensures RecordOk(s, r) && ByAge(Undo(s, r))
  {
    UndoUncovers(s, starts, clock, r);
    var s', removed := Undo(s, r), s.entries[r.index][r.height];
    UndoDependencies(s, r);
    UncoveredAscending(s, r.index, s');
    if removed.Deleted() {
      hide Undo, Erase, ChainsOk, Present, Uncovered, Fresh;
      forall o, d | IsDependent(s', o, d) ensures o.id < d.id && DependsOn(s', d, o) && Present(s', d) {
        assert IsDependent(s, o, d) && DependsOn(s, d, o);
        UncoveredPresent(s, r.index, s', d);
      }
      assert Fresh(s') by {
        SameFresh(s, s');
      }
    } else {
      EraseFresh(s, removed.ref, s');
      assert forall d | d in s'.dependencies :: d in s'.dependents;
      hide Undo, Erase, ChainsOk, Present, Uncovered, Fresh;
      forall o, d | IsDependent(s', o, d) ensures o.id < d.id && DependsOn(s', d, o) && Present(s', d) {
        ErasedEdge(s, removed.ref, s', o, d);
        UncoveredPresent(s, r.index, s', d);
      }
    }
  }

  lemma {:induction false} UndoAllByAge(y: System, id: nat)
    requires Inv(y) && ByAge(y.catalog) && id in y.starts && id in y.undo
    ensures ByAge(UndoAll(y, id).catalog)
    decreases |y.undo[id]|
  {
    if y.undo[id] != [] {
      var r := y.undo[id][|y.undo[id]| - 1];
      assert RunningOk(y, id);
      LastIsOnTop(y.catalog, y.starts, y.clock, id, y.undo[id]);
      UndoByAge(y.catalog, y.starts, y.clock, r);
      UndoStep(y, id);
      hide ByAge, Inv, Undo;
      UndoAllByAge(UndoLast(y, id), id);
    }
  }

  lemma CommitRecordKeeps(s: State, r: Record, c: nat)
    ensures var s' := CommitRecord(s, r, c);
      s'.dependents == s.dependents && s'.dependencies == s.dependencies && s'.currentRef == s.currentRef
  {
  }

  lemma {:induction false} CommitKeepsDependencies(s: State, records: seq<Record>, c: nat)
    ensures var s' := CommitAll(s, records, c);
      s'.dependents == s.dependents && s'.dependencies == s.dependencies && s'.currentRef == s.currentRef
  {
    hide CommitRecord;
    if records != [] {
      CommitKeepsDependencies(s, records[..|records| - 1], c);
      CommitRecordKeeps(CommitAll(s, records[..|records| - 1], c), records[|records| - 1], c);
    }
  }

  lemma StampedByAge(s: State, done: seq<Record>, c: nat, s': State)
    requires ByAge(s) && EntriesStamped(s, done, c, s')
    requires s'.dependents == s.dependents && s'.dependencies == s.dependencies && s'.currentRef == s.currentRef
    ensures ByAge(s')
  {
    forall i | i in s'.entries ensures IdsRise(s'.entries[i], s'.currentRef) {
      assert IdsRise(s.entries[i], s.currentRef) && ChainStamped(s.entries[i], i, done, c, s'.entries[i]);
    }
    forall o, d | IsDependent(s', o, d) ensures o.id < d.id && DependsOn(s', d, o) && Present(s', d) {
      assert IsDependent(s, o, d) && DependsOn(s, d, o);
      var i, h :| PresentAt(s, d, i, h);
      assert ChainStamped(s.entries[i], i, done, c, s'.entries[i]);
      assert PresentAt(s', d, i, h);
    }
  }

  lemma CommitByAge(y: System, id: nat)
    requires Inv(y) && ByAge(y.catalog) && Enabled(y, Commit(id))
    ensures ByAge(CommitAll(y.catalog, y.undo[id], y.clock))
  {
    assert RunningOk(y, id);
    UndoRecordsOk(y.catalog, id, y.undo[id]);
    CommitStamps(y.catalog, y.starts, y.clock, y.undo[id], y.clock);
    CommitKeepsDependencies(y.catalog, y.undo[id], y.clock);
    hide ByAge, Inv, ChainsOk, EntriesStamped, NamesKept;
    StampedByAge(y.catalog, y.undo[id], y.clock, CommitAll(y.catalog, y.undo[id], y.clock));
  }

  lemma StepByAge(y: System, step: Step)
    requires Inv(y) && ByAge(y.catalog) && Enabled(y, step) && (step.Perform? ==> OpOk(y.catalog, step.op))
    ensures ByAge(Next(y, step).catalog)
  {
    match step
    case Begin =>
    case Perform(id, op) =>
      ApplyByAge(y.catalog, y.starts, y.clock, TxOf(y, id), op);
    case Commit(id) => CommitByAge(y, id);
    case Abort(id) =>
      UndoAllByAge(y, id);
      UndoAllIsRollback(y, id);
  }

  /** A run whose new entries depend on registered objects. */
  ghost predicate ProperRun(y: System, steps: seq<Step>)
    decreases |steps|
  {
    steps != [] ==>
      && Enabled(y, steps[0]) && (steps[0].Perform? ==> OpOk(y.catalog, steps[0].op))
      && ProperRun(Next(y, steps[0]), steps[1..])
  }

  lemma {:induction false} RunByAge(y: System, steps: seq<Step>)
    requires Inv(y) && ByAge(y.catalog) && ProperRun(y, steps)
    ensures RunSteps(y, steps).Some? && Inv(RunSteps(y, steps).value) && ByAge(RunSteps(y, steps).value.catalog)
    decreases |steps|
  {
    hide Inv, ByAge, Next, Ready, KeepsNames, OpOk;
    if steps != [] {
      StepKeepsInv(y, steps[0]);
      StepByAge(y, steps[0]);
      RunByAge(Next(y, steps[0]), steps[1..]);
    }
  }

  lemma RankedByAge(s: State, starts: map<nat, nat>, clock: nat, tx: Transaction, d: Ref)
    requires ChainsOk(s, starts, clock) && Ascending(s) && Present(s, d)
    ensures RankedAt(s, tx, d)
  {
    var i, h :| PresentAt(s, d, i, h);
    assert ChainOk(s.entries[i], starts, clock) && Linked(s, i) && IdsRise(s.entries[i], s.currentRef);
    MappingFound(s, starts, clock, tx, d.name);
  }

  /** In every reachable state a transaction's drop of an entry and its dependents comes to an end. */
  lemma CascadesEnd(steps: seq<Step>, id: nat)
    requires ProperRun(Initial(), steps)
    ensures RunSteps(Initial(), steps).Some?
    ensures var y := RunSteps(Initial(), steps).value;
      id in y.starts ==> Ranked(y.catalog, TxOf(y, id), y.catalog.currentRef)
  {
    RunByAge(Initial(), steps);
    var y := RunSteps(Initial(), steps).value;
    if id in y.starts {
      var s, tx := y.catalog, TxOf(y, id);
      forall o, d | IsDependent(s, o, d) ensures RankedAt(s, tx, d) {
        RankedByAge(s, y.starts, y.clock, tx, d);
      }
      forall i | LiveAt(s, i) ensures Top(s.entries[i]).ref.id < s.currentRef {
        assert IdsRise(s.entries[i], s.currentRef);
      }
    }
  }
}
