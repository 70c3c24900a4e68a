/**
 * In every reachable state the two dependency maps are inverse to each other: an object that others depend on is never
 * erased before them (src/catalog/dependency_manager.cpp:10-119; src/catalog/catalog_set.cpp:386-433).
 */
module CatalogInverse {
  import opened Catalog
  import opened CatalogCascades
  import opened CatalogDependencies
  import opened CatalogRollback
  import opened CatalogRuns
  import opened Common

  ghost predicate At(s: State, i: nat, h: nat) {
    i in s.entries && h < |s.entries[i]|
  }

  /** No two versions have the same identity. */
  ghost predicate Unique(s: State) {
    forall i, h: nat, k, l: nat | At(s, i, h) && At(s, k, l) ::
      s.entries[i][h].ref.id == s.entries[k][l].ref.id ==> i == k && h == l
  }

  ghost predicate PresentWith(s: State, r: Ref, t: nat) {
    exists k, l: nat :: PresentAt(s, r, k, l) && s.entries[k][l].timestamp == t
  }

  /** While an object is not committed, only versions of the same transaction depend on it. */
  ghost predicate Together(s: State, r: Ref, d: Ref) {
    forall i, h: nat | PresentAt(s, d, i, h) ::
      s.entries[i][h].timestamp >= TRANSACTION_ID_START ==> PresentWith(s, r, s.entries[i][h].timestamp)
  }

  /** Registered objects are versions in some chain, and what one map records the other does. */
  ghost predicate Grounded(s: State) {
    && Unique(s) && (forall r | r in s.dependents :: r in s.dependencies && Present(s, r))
    && (forall r, d :: DependsOn(s, r, d) ==> IsDependent(s, d, r) && Together(s, r, d))
  }

  lemma GroundedIsInverse(s: State)
    requires ByAge(s) && Grounded(s)
    ensures Inverse(s) && Registered(s)
  {
    hide Unique, Present, Together, Fresh, Ascending;
    forall r | r in s.dependencies ensures s.dependencies[r] <= s.dependents.Keys {
      forall d | d in s.dependencies[r] ensures d in s.dependents {
        assert DependsOn(s, r, d);
      }
    }
  }

  /** Every version of an object is committed or of one transaction. */
  ghost predicate OnlyOf(s: State, d: Ref, t: nat) {
    forall i, h: nat | PresentAt(s, d, i, h) ::
      s.entries[i][h].timestamp >= TRANSACTION_ID_START ==> s.entries[i][h].timestamp == t
  }

  lemma PushUnique(s: State, s': State, i: nat, v: Version)
    requires Unique(s) && Ascending(s) && HasChain(s, i) && s'.entries == s.entries[i := s.entries[i] + [v]]
    requires v.ref.id >= s.currentRef
    ensures Unique(s')
  {
    forall k, l: nat | At(s', k, l) ensures At(s, k, l) || (k == i && l == |s.entries[i]|) {
    }
    forall k, l: nat | At(s, k, l) ensures s.entries[k][l].ref.id < s.currentRef {
      assert IdsRise(s.entries[k], s.currentRef);
    }
    forall k, h: nat, m, l: nat | At(s', k, h) && At(s', m, l) && s'.entries[k][h].ref.id == s'.entries[m][l].ref.id
      ensures k == m && h == l
    {
      assert At(s, k, h) ==> s.entries[k][h].ref.id < s.currentRef;
      assert At(s, m, l) ==> s.entries[m][l].ref.id < s.currentRef;
    }
  }

  /** A version on top of a chain leaves what was in the chains where it was. */
  lemma PushTogether(s: State, s': State, i: nat, v: Version, r: Ref, d: Ref)
    requires HasChain(s, i) && s'.entries == s.entries[i := s.entries[i] + [v]]
    requires Together(s, r, d) && (v.ref != d || v.Deleted())
    ensures Together(s', r, d)
  {
    forall k, h: nat | PresentAt(s', d, k, h) && s'.entries[k][h].timestamp >= TRANSACTION_ID_START
      ensures PresentWith(s', r, s'.entries[k][h].timestamp)
    {
      assert PresentAt(s, d, k, h);
      var t := s.entries[k][h].timestamp;
      assert PresentWith(s, r, t);
      var m, l: nat :| PresentAt(s, r, m, l) && s.entries[m][l].timestamp == t;
      assert PresentAt(s', r, m, l);
    }
  }

  lemma NewTogether(s: State, s': State, i: nat, v: Version, d: Ref)
    requires HasChain(s, i) && s'.entries == s.entries[i := s.entries[i] + [v]] && !v.Deleted()
    requires OnlyOf(s, d, v.timestamp) && v.ref != d
    ensures Together(s', v.ref, d)
  {
    assert PresentAt(s', v.ref, i, |s.entries[i]|);
    forall k, h: nat | PresentAt(s', d, k, h) && s'.entries[k][h].timestamp >= TRANSACTION_ID_START
      ensures PresentWith(s', v.ref, s'.entries[k][h].timestamp)
    {
      assert PresentAt(s, d, k, h);
    }
  }

  /** What an object depends on after another was registered. */
  lemma RegisteredDependency(s: State, target: Ref, cascade: bool, on: set<Ref>, s': State, r: Ref, d: Ref)
    requires target !in s.dependents && target !in s.dependencies && on <= s.dependents.Keys
    requires s'.dependents == Register(s, target, cascade, on).dependents
    requires s'.dependencies == Register(s, target, cascade, on).dependencies
    requires forall r, d :: DependsOn(s, r, d) ==> IsDependent(s, d, r)
    requires DependsOn(s', r, d)
    ensures IsDependent(s', d, r) && d != target && if r == target then d in on else DependsOn(s, r, d)
  {
    if r != target {
      assert DependsOn(s, r, d) && IsDependent(s, d, r);
    }
  }

  lemma RegisterKeys(s: State, target: Ref, cascade: bool, on: set<Ref>)
    requires on <= s.dependents.Keys
    ensures var s' := Register(s, target, cascade, on);
      s'.dependents.Keys == s.dependents.Keys + {target} && s'.dependencies.Keys == s.dependencies.Keys + {target}
  {
  }

  /** A new object on top of a chain that depends on committed objects and on objects of its own transaction. */
  lemma RegisterGrounded(s: State, cascade: bool, on: set<Ref>, i: nat, v: Version)
    requires ByAge(s) && Grounded(s) && HasChain(s, i) && v.ref.id == s.currentRef && !v.Deleted()
    requires on <= s.dependents.Keys && forall d | d in on :: OnlyOf(s, d, v.timestamp)
    ensures Grounded(Push(Register(s, v.ref, cascade, on), i, v))
  {
    hide Register, Fresh, Unique, Present, Together, OnlyOf, Ascending, Acyclic;
    FreshRefUnknown(s, v.ref);
    var s' := Push(Register(s, v.ref, cascade, on), i, v);
    RegisterKeeps(s, v.ref, cascade, on);
    RegisterKeys(s, v.ref, cascade, on);
    PushUnique(s, s', i, v);
    PushAscending(s, s', i, v);
    forall r | r in s'.dependents ensures Present(s', r) {
      if r == v.ref {
        PushedIsPresent(s, s', i, v);
      } else {
        PresentStays(s, s', r);
      }
    }
    forall r, d | DependsOn(s', r, d) ensures IsDependent(s', d, r) && Together(s', r, d) {
      RegisteredDependency(s, v.ref, cascade, on, s', r, d);
      if r == v.ref {
        NewTogether(s, s', i, v, d);
      } else {
        PushTogether(s, s', i, v, r, d);
      }
    }
  }

  /** The same dependency maps with longer chains. */
  lemma LongerGrounded(s: State, s': State)
    requires Grounded(s) && Unique(s') && s'.dependents == s.dependents && s'.dependencies == s.dependencies
    requires forall k | k in s.entries :: k in s'.entries && s.entries[k] <= s'.entries[k]
    requires forall r, d | DependsOn(s, r, d) :: Together(s', r, d)
    ensures Grounded(s')
  {
    hide Unique, Together, Present;
    forall r | r in s'.dependents ensures Present(s', r) {
      PresentStays(s, s', r);
    }
    forall r, d | DependsOn(s', r, d) ensures IsDependent(s', d, r) && Together(s', r, d) {
      assert DependsOn(s, r, d) && IsDependent(s, d, r);
    }
  }

  lemma DropGrounded(s: State, tx: Transaction, i: nat)
    requires ByAge(s) && Grounded(s) && HasChain(s, i)
    ensures Grounded(DropVersion(s, tx, i))
  {
    var s' := DropVersion(s, tx, i);
    var v := s'.entries[i][|s.entries[i]|];
    PushUnique(s, s', i, v);
    PushAscending(s, s', i, v);
    hide Unique, Together, Present, Fresh;
    forall r, d | DependsOn(s, r, d) ensures Together(s', r, d) {
      PushTogether(s, s', i, v, r, d);
    }
    LongerGrounded(s, s');
  }

  lemma NamedUnique(s: State, tx: Transaction, name: Name)
    requires Ascending(s) && Unique(s) && s.currentEntry !in s.entries
    ensures Unique(Named(s, tx, name))
  {
    var s', e := Named(s, tx, name), s.currentEntry;
    forall k, l: nat | At(s', k, l) ensures At(s, k, l) || (k == e && l == 0) {
    }
    forall k, l: nat | At(s, k, l) ensures s.entries[k][l].ref.id < s.currentRef {
      assert IdsRise(s.entries[k], s.currentRef);
    }
    forall k, h: nat, m, l: nat | At(s', k, h) && At(s', m, l) && s'.entries[k][h].ref.id == s'.entries[m][l].ref.id
      ensures k == m && h == l
    {
      assert At(s, k, h) ==> s.entries[k][h].ref.id < s.currentRef;
      assert At(s, m, l) ==> s.entries[m][l].ref.id < s.currentRef;
    }
  }

  lemma NamedTogether(s: State, tx: Transaction, name: Name, r: Ref, d: Ref)
    requires s.currentEntry !in s.entries && Together(s, r, d)
    ensures Together(Named(s, tx, name), r, d)
  {
    var s' := Named(s, tx, name);
    forall k, h: nat | PresentAt(s', d, k, h) && s'.entries[k][h].timestamp >= TRANSACTION_ID_START
      ensures PresentWith(s', r, s'.entries[k][h].timestamp)
    {
      assert PresentAt(s, d, k, h);
      var t := s.entries[k][h].timestamp;
      assert PresentWith(s, r, t);
      var m, l: nat :| PresentAt(s, r, m, l) && s.entries[m][l].timestamp == t;
      assert PresentAt(s', r, m, l);
    }
  }

  lemma NamedGrounded(s: State, tx: Transaction, name: Name)
    requires ByAge(s) && Grounded(s) && s.currentEntry !in s.entries
    ensures Grounded(Named(s, tx, name))
  {
    hide Unique, Together, Present, Fresh, Ascending, Acyclic;
    var s' := Named(s, tx, name);
    NamedUnique(s, tx, name);
    forall r, d | DependsOn(s, r, d) ensures Together(s', r, d) {
      NamedTogether(s, tx, name, r, d);
    }
    LongerGrounded(s, s');
  }

  /** What a transaction finds alive is committed or its own, and so are all versions below it. */
  lemma LiveIsOwn(s: State, starts: map<nat, nat>, clock: nat, tx: Transaction, d: Ref)
    requires ChainsOk(s, starts, clock) && tx.id in starts && starts[tx.id] == tx.start
    requires tx.start < TRANSACTION_ID_START <= tx.id && GetEntryInternal(s, tx, d.name).Found?
    ensures OnlyOf(s, d, tx.id)
  {
    MappingFound(s, starts, clock, tx, d.name);
    forall i, h: nat | PresentAt(s, d, i, h) && s.entries[i][h].timestamp >= TRANSACTION_ID_START
      ensures s.entries[i][h].timestamp == tx.id
    {
      assert ChainOk(s.entries[i], starts, clock) && Linked(s, i);
      if HasConflict(tx, s.entries[i][h].timestamp) {
        NoLostUpdate(s.entries[i], starts, tx, h);
      }
    }
  }

  /** What an object that a transaction may write depends on is committed or the transaction's own. */
  lemma DependencyIsOwn(s: State, tx: Transaction, i: nat, d: Ref)
    requires Grounded(s) && HasChain(s, i) && |s.entries[i]| > 1 && !Top(s.entries[i]).Deleted()
    requires !HasConflict(tx, Top(s.entries[i]).timestamp) && d in Dependencies(s, Top(s.entries[i]).ref)
    ensures OnlyOf(s, d, tx.id)
  {
    var r, top := Top(s.entries[i]).ref, |s.entries[i]| - 1;
    assert DependsOn(s, r, d) && Together(s, r, d);
    assert PresentAt(s, r, i, top);
    forall k, h: nat | PresentAt(s, d, k, h) && s.entries[k][h].timestamp >= TRANSACTION_ID_START
      ensures s.entries[k][h].timestamp == tx.id
    {
      var t := s.entries[k][h].timestamp;
      assert PresentWith(s, r, t);
      var m, l: nat :| PresentAt(s, r, m, l) && s.entries[m][l].timestamp == t;
      assert At(s, m, l) && At(s, i, top);
    }
  }

  lemma FinishCreateGrounded(s: State, tx: Transaction, name: Name, i: nat, kind: Kind, internal: bool, on: set<Ref>)
    requires ByAge(s) && Grounded(s) && HasChain(s, i) && on <= s.dependents.Keys
    requires kind.ObjectEntry? || kind.IndexEntry?
    requires DependenciesLive(s, tx, on) ==> forall d | d in on :: OnlyOf(s, d, tx.id)
    ensures Grounded(FinishCreate(s, tx, name, i, kind, internal, on).state)
  {
    hide ByAge, Grounded, Register, OnlyOf, DependenciesLive;
    if DependenciesLive(s, tx, on) {
      RegisterGrounded(s, !kind.IndexEntry?, on, i, NewVersion(s, tx, name, kind, internal));
    }
  }

  lemma LiveAreOwn(s: State, starts: map<nat, nat>, clock: nat, tx: Transaction, on: set<Ref>)
    requires ChainsOk(s, starts, clock) && tx.id in starts && starts[tx.id] == tx.start
    requires tx.start < TRANSACTION_ID_START <= tx.id && DependenciesLive(s, tx, on)
    ensures forall d | d in on :: OnlyOf(s, d, tx.id)
  {
    hide ChainsOk, OnlyOf, GetEntryInternal;
    forall d | d in on ensures OnlyOf(s, d, tx.id) {
      LiveIsOwn(s, starts, clock, tx, d);
    }
  }

  lemma FinishCreateOwn(s: State, starts: map<nat, nat>, clock: nat, tx: Transaction, i: nat, op: Op)
    requires ChainsOk(s, starts, clock) && ByAge(s) && Grounded(s) && op.Create? && OpOk(s, op) && HasChain(s, i)
    requires tx.id in starts && starts[tx.id] == tx.start && tx.start < TRANSACTION_ID_START <= tx.id
    ensures Grounded(FinishCreate(s, tx, op.name, i, op.kind, op.internal, op.on).state)
  {
    hide ChainsOk, ByAge, Grounded, FinishCreate, OnlyOf, DependenciesLive;
    if DependenciesLive(s, tx, op.on) {
      LiveAreOwn(s, starts, clock, tx, op.on);
    }
    FinishCreateGrounded(s, tx, op.name, i, op.kind, op.internal, op.on);
  }

  lemma NamedChainsOk(s: State, starts: map<nat, nat>, clock: nat, tx: Transaction, name: Name)
    requires ChainsOk(s, starts, clock) && name !in s.mapping
    ensures ChainsOk(Named(s, tx, name), starts, clock) && HasChain(Named(s, tx, name), s.currentEntry)
  {
    hide ChainsOk, NewlyNamed;
    var m, dummy := NamedIsNew(s, tx, name);
    NamedKeepsChains(s, starts, clock, name, m, dummy, Named(s, tx, name));
  }

  lemma CreateGrounded(s: State, starts: map<nat, nat>, clock: nat, tx: Transaction, op: Op)
    requires ChainsOk(s, starts, clock) && ByAge(s) && Grounded(s) && op.Create? && OpOk(s, op)
    requires tx.id in starts && starts[tx.id] == tx.start && tx.start < TRANSACTION_ID_START <= tx.id
    ensures Grounded(Apply(s, tx, op).state)
  {
    CreateCases(s, starts, clock, tx, op);
    assert s.currentEntry !in s.entries;
    hide ChainsOk, ByAge, Grounded, FinishCreate, Apply;
    if op.name in s.mapping {
      FinishCreateOwn(s, starts, clock, tx, s.mapping[op.name][0].index, op);
    } else {
      NamedChainsOk(s, starts, clock, tx, op.name);
      NamedGrounded(s, tx, op.name);
      NamedByAge(s, tx, op.name);
      assert OpOk(Named(s, tx, op.name), op);
      hide Named;
      FinishCreateOwn(Named(s, tx, op.name), starts, clock, tx, s.currentEntry, op);
    }
  }

  lemma AlterGrounded(s: State, starts: map<nat, nat>, clock: nat, tx: Transaction, op: Op)
    requires ChainsOk(s, starts, clock) && op.Alter? && KeepsNames(op) && ByAge(s) && Grounded(s)
    ensures Grounded(Apply(s, tx, op).state)
  {
    MappingFound(s, starts, clock, tx, op.name);
    if op.name in s.mapping {
      var i := s.mapping[op.name][0].index;
      var top := Top(s.entries[i]);
      TopName(s, starts, clock, i);
      GroundedIsInverse(s);
      RegisteredOn(s, top.ref);
      hide ChainsOk, Register, ByAge, NoLiveDependents, NameIsTaken, Grounded, OnlyOf, Registered, Inverse;
      if !top.Deleted() && !HasConflict(tx, top.timestamp) {
        forall d | d in Dependencies(s, top.ref) ensures OnlyOf(s, d, tx.id) {
          DependencyIsOwn(s, tx, i, d);
        }
        RegisterGrounded(s, true, Dependencies(s, top.ref), i, NewVersion(s, tx, top.ref.name, top.kind, top.internal));
      }
    }
  }

  lemma ApplyGrounded(s: State, starts: map<nat, nat>, clock: nat, tx: Transaction, op: Op)
    requires ChainsOk(s, starts, clock) && KeepsNames(op) && OpOk(s, op) && ByAge(s) && Grounded(s)
    requires tx.id in starts && starts[tx.id] == tx.start && tx.start < TRANSACTION_ID_START <= tx.id
    ensures Grounded(Apply(s, tx, op).state)
  {
    hide ByAge, Grounded;
    match op
    case Create(_, _, _, _) => CreateGrounded(s, starts, clock, tx, op);
    case Alter(_, _) => AlterGrounded(s, starts, clock, tx, op);
    case Drop(name) =>
      MappingFound(s, starts, clock, tx, name);
      if name in s.mapping {
        DropGrounded(s, tx, s.mapping[name][0].index);
      }
  }

  function IdAt(s: State, r: Record): nat {
    if RecordOk(s, r) then s.entries[r.index][r.height].ref.id else 0
  }

  /** An undo buffer lists versions in the order of their identities. */
  ghost predicate Sorted(s: State, undo: seq<Record>) {
    forall x, z | 0 <= x < z < |undo| :: IdAt(s, undo[x]) < IdAt(s, undo[z])
  }

  /** What holds of the dependency maps and the undo buffers in every reachable state. */
  ghost predicate Rooted(y: System) {
    && ByAge(y.catalog) && Grounded(y.catalog)
    && forall id | id in y.starts && id in y.undo :: Sorted(y.catalog, y.undo[id])
  }

  /** No object that is left depends on the last version a transaction pushed. */
  lemma NothingDependsOnLast(s: State, id: nat, undo: seq<Record>, r: Ref)
    requires Acyclic(s) && Grounded(s) && UndoOk(s, id, undo) && Sorted(s, undo) && undo != []
    requires id >= TRANSACTION_ID_START
    ensures var last := undo[|undo| - 1];
      && RecordOk(s, last)
      && (!s.entries[last.index][last.height].Deleted() ==> !DependsOn(s, r, s.entries[last.index][last.height].ref))
  {
    hide Acyclic, Grounded, UndoOk, Sorted, Present;
    var last := undo[|undo| - 1];
    assert Owned(s, id, last.index, last.height) by {
      RecordsAreOwned(s, id, undo, |undo| - 1);
    }
    var u := s.entries[last.index][last.height];
    if !u.Deleted() && DependsOn(s, r, u.ref) {
      DependentIsYounger(s, r, u.ref);
      assert PresentAt(s, u.ref, last.index, last.height);
      assert PresentWith(s, r, id);
      var k, l: nat :| PresentAt(s, r, k, l) && s.entries[k][l].timestamp == id;
      assert Owned(s, id, k, l);
      var x := OwnedIsRecorded(s, id, undo, k, l);
      assert IdAt(s, undo[x]) == r.id && IdAt(s, last) == u.ref.id;
      if x < |undo| - 1 {
        SortedPair(s, undo, x, |undo| - 1);
      }
    }
  }

  lemma DependentIsYounger(s: State, r: Ref, d: Ref)
    requires Acyclic(s) && Grounded(s) && DependsOn(s, r, d)
    ensures d.id < r.id && Together(s, r, d)
  {
    assert IsDependent(s, d, r);
  }

  lemma RecordsAreOwned(s: State, id: nat, undo: seq<Record>, x: nat)
    requires UndoOk(s, id, undo) && x < |undo|
    ensures Owned(s, id, undo[x].index, undo[x].height)
  {
  }

  lemma OwnedIsRecorded(s: State, id: nat, undo: seq<Record>, k: nat, l: nat) returns (x: nat)
    requires UndoOk(s, id, undo) && Owned(s, id, k, l)
    ensures x < |undo| && undo[x] == Record(k, l)
  {
    assert Record(k, l) in undo;
    x :| x < |undo| && undo[x] == Record(k, l);
  }

  lemma SortedPair(s: State, undo: seq<Record>, x: nat, z: nat)
    requires Sorted(s, undo) && x < z < |undo|
    ensures IdAt(s, undo[x]) < IdAt(s, undo[z])
  {
  }

  lemma UncoveredUnique(s: State, i: nat, s': State)
    requires Unique(s) && Uncovered(s, i, s')
    ensures Unique(s')
  {
    forall k, l: nat | At(s', k, l) ensures At(s, k, l) && s'.entries[k][l] == s.entries[k][l] {
    }
  }

  lemma UncoveredTogether(s: State, i: nat, s': State, r: Ref, d: Ref)
    requires Uncovered(s, i, s') && Together(s, r, d) && (Top(s.entries[i]).Deleted() || Top(s.entries[i]).ref != r)
    ensures Together(s', r, d)
  {
    forall k, h: nat | PresentAt(s', d, k, h) && s'.entries[k][h].timestamp >= TRANSACTION_ID_START
      ensures PresentWith(s', r, s'.entries[k][h].timestamp)
    {
      assert PresentAt(s, d, k, h);
      var t := s.entries[k][h].timestamp;
      assert PresentWith(s, r, t);
      var m, l: nat :| PresentAt(s, r, m, l) && s.entries[m][l].timestamp == t;
      assert PresentAt(s', r, m, l);
    }
  }

  ghost predicate ErasedFrom(s: State, u: Ref, s': State) {
    s'.dependents == Erase(s, u).dependents && s'.dependencies == Erase(s, u).dependencies
  }

  lemma ErasedKeys(s: State, u: Ref, s': State, r: Ref)
    requires ErasedFrom(s, u, s') && (r in s.dependents ==> r in s.dependencies) && r in s'.dependents
    ensures r in s.dependents && r != u && r in s'.dependencies
  {
  }

  lemma ErasedDependency(s: State, u: Ref, s': State, r: Ref, d: Ref)
    requires ErasedFrom(s, u, s') && DependsOn(s', r, d) && !DependsOn(s, r, u)
    requires (DependsOn(s, r, d) ==> IsDependent(s, d, r)) && (u in s.dependencies ==> u in s.dependents)
    ensures r != u && d != u && DependsOn(s, r, d) && IsDependent(s', d, r)
  {
  }

  /** The maps after the version on top of a chain was erased, which nothing depends on. */
  lemma ErasedGrounded(s: State, i: nat, s': State)
    requires Grounded(s) && Uncovered(s, i, s') && !Top(s.entries[i]).Deleted()
    requires forall r :: !DependsOn(s, r, Top(s.entries[i]).ref)
    requires ErasedFrom(s, Top(s.entries[i]).ref, s')
    requires forall d | d in s.dependencies :: d in s.dependents
    ensures Grounded(s')
  {
    var u := Top(s.entries[i]).ref;
    UncoveredUnique(s, i, s');
    hide ErasedFrom, Unique, Present, Together, Uncovered, IsDependent;
    forall r | r in s'.dependents ensures r in s'.dependencies && Present(s', r) {
      ErasedKeys(s, u, s', r);
      UncoveredPresent(s, i, s', r);
    }
    forall r, d | DependsOn(s', r, d) ensures IsDependent(s', d, r) && Together(s', r, d) {
      ErasedDependency(s, u, s', r, d);
      UncoveredTogether(s, i, s', r, d);
    }
  }

  lemma UncoveredGrounded(s: State, i: nat, s': State)
    requires Grounded(s) && Uncovered(s, i, s') && Top(s.entries[i]).Deleted()
    requires s'.dependents == s.dependents && s'.dependencies == s.dependencies
    ensures Grounded(s')
  {
    UncoveredUnique(s, i, s');
    hide Unique, Present, Together, Uncovered;
    forall r | r in s'.dependents ensures Present(s', r) {
      UncoveredPresent(s, i, s', r);
    }
    forall r, d | DependsOn(s', r, d) ensures IsDependent(s', d, r) && Together(s', r, d) {
      assert DependsOn(s, r, d) && IsDependent(s, d, r);
      UncoveredTogether(s, i, s', r, d);
    }
  }

  /** The records that are left are of the versions they were of. */
  lemma UncoveredSorted(s: State, i: nat, s': State, id: nat, undo: seq<Record>, undo': seq<Record>)
    requires Sorted(s, undo) && Uncovered(s, i, s') && undo' <= undo && UndoOk(s', id, undo')
    ensures Sorted(s', undo')
  {
    forall x | 0 <= x < |undo'| ensures IdAt(s', undo'[x]) == IdAt(s, undo[x]) {
      assert Owned(s', id, undo'[x].index, undo'[x].height);
    }
  }

  lemma UndoLastByAge(y: System, id: nat)
    requires Inv(y) && ByAge(y.catalog) && id in y.starts && id in y.undo && y.undo[id] != []
    ensures ByAge(UndoLast(y, id).catalog)
  {
    hide ByAge, Undo, ChainsOk, UndoOk;
    assert RunningOk(y, id);
    LastIsOnTop(y.catalog, y.starts, y.clock, id, y.undo[id]);
    UndoByAge(y.catalog, y.starts, y.clock, y.undo[id][|y.undo[id]| - 1]);
  }

  lemma UndoSorted(y: System, id: nat, k: nat)
    requires Inv(y) && id in y.starts && id in y.undo && y.undo[id] != []
    requires k in y.starts && k in y.undo && Sorted(y.catalog, y.undo[k])
    ensures Sorted(UndoLast(y, id).catalog, UndoLast(y, id).undo[k])
  {
    hide ChainsOk, UndoOk, Undo, Sorted, Uncovered, SameViews;
    var y', undo := UndoLast(y, id), y.undo[id];
    UndoStep(y, id);
    assert RunningOk(y', k);
    UncoveredSorted(y.catalog, undo[|undo| - 1].index, y'.catalog, k, y.undo[k], y'.undo[k]);
  }

  /** Taking back the last version of a transaction. */
  lemma UndoRooted(y: System, id: nat)
    requires Inv(y) && Rooted(y) && id in y.starts && id in y.undo && y.undo[id] != []
    ensures Rooted(UndoLast(y, id))
  {
    UndoLastByAge(y, id);
    UndoGrounded(y, id);
    UndoLastKeeps(y, id);
    hide ByAge, Grounded, Inv, Sorted, UndoIfThere;
    forall k | k in y.starts && k in y.undo ensures Sorted(UndoLast(y, id).catalog, UndoLast(y, id).undo[k]) {
      UndoSorted(y, id, k);
    }
  }

  lemma UndoGrounded(y: System, id: nat)
    requires Inv(y) && Rooted(y) && id in y.starts && id in y.undo && y.undo[id] != []
    ensures Grounded(UndoLast(y, id).catalog)
  {
    var undo := y.undo[id];
    var s, s', r := y.catalog, UndoLast(y, id).catalog, undo[|undo| - 1];
    assert RunningOk(y, id);
    LastIsOnTop(s, y.starts, y.clock, id, undo);
    UndoStep(y, id);
    UndoDependencies(s, r);
    forall o ensures !Top(s.entries[r.index]).Deleted() ==> !DependsOn(s, o, Top(s.entries[r.index]).ref) {
      NothingDependsOnLast(s, id, undo, o);
    }
    hide Grounded, Undo, Uncovered, Inv, Fresh, Acyclic, Ascending, Present, Erase;
    if Top(s.entries[r.index]).Deleted() {
      UncoveredGrounded(s, r.index, s');
    } else {
      ErasedGrounded(s, r.index, s');
    }
  }

  lemma {:induction false} UndoAllRooted(y: System, id: nat)
    requires Inv(y) && Rooted(y) && id in y.starts && id in y.undo
    ensures Rooted(UndoAll(y, id))
    decreases |y.undo[id]|
  {
    hide Inv, Rooted, UndoLast;
    if y.undo[id] != [] {
      UndoRooted(y, id);
      UndoStep(y, id);
      UndoLastKeeps(y, id);
      UndoAllRooted(UndoLast(y, id), id);
    }
  }

  lemma StampedUnique(s: State, done: seq<Record>, c: nat, s': State)
    requires Unique(s) && EntriesStamped(s, done, c, s')
    ensures Unique(s')
  {
    forall k, l: nat | At(s', k, l) ensures At(s, k, l) && s'.entries[k][l].ref == s.entries[k][l].ref {
      assert ChainStamped(s.entries[k], k, done, c, s'.entries[k]);
    }
  }

  lemma StampedAt(s: State, done: seq<Record>, c: nat, s': State, d: Ref, k: nat, l: nat)
    requires EntriesStamped(s, done, c, s')
    ensures PresentAt(s', d, k, l) <==> PresentAt(s, d, k, l)
    ensures PresentAt(s, d, k, l) ==>
            s'.entries[k][l].timestamp == if Record(k, l) in done then c else s.entries[k][l].timestamp
  {
    if k in s.entries {
      assert ChainStamped(s.entries[k], k, done, c, s'.entries[k]);
    }
  }

  /** Versions of one transaction are stamped together. */
  lemma StampedTogether(s: State, id: nat, undo: seq<Record>, c: nat, s': State, r: Ref, d: Ref)
    requires EntriesStamped(s, undo, c, s') && UndoOk(s, id, undo) && c < TRANSACTION_ID_START && Together(s, r, d)
    ensures Together(s', r, d)
  {
    hide EntriesStamped, UndoOk;
    forall k, h: nat | PresentAt(s', d, k, h) && s'.entries[k][h].timestamp >= TRANSACTION_ID_START
      ensures PresentWith(s', r, s'.entries[k][h].timestamp)
    {
      StampedAt(s, undo, c, s', d, k, h);
      var t := s.entries[k][h].timestamp;
      assert PresentWith(s, r, t);
      var m, l: nat :| PresentAt(s, r, m, l) && s.entries[m][l].timestamp == t;
      StampedAt(s, undo, c, s', r, m, l);
      if Record(m, l) in undo {
        RecordedIsOwned(s, id, undo, m, l);
        var x := OwnedIsRecorded(s, id, undo, k, h);
      }
    }
  }

  lemma RecordedIsOwned(s: State, id: nat, undo: seq<Record>, k: nat, l: nat)
    requires UndoOk(s, id, undo) && Record(k, l) in undo
    ensures Owned(s, id, k, l)
  {
    var x :| 0 <= x < |undo| && undo[x] == Record(k, l);
    assert Owned(s, id, undo[x].index, undo[x].height);
  }

  lemma StampedGrounded(s: State, id: nat, undo: seq<Record>, c: nat, s': State)
    requires Grounded(s) && EntriesStamped(s, undo, c, s') && UndoOk(s, id, undo) && c < TRANSACTION_ID_START
    requires s'.dependents == s.dependents && s'.dependencies == s.dependencies
    ensures Grounded(s')
  {
    hide Unique, Together, EntriesStamped, UndoOk;
    StampedUnique(s, undo, c, s');
    forall r | r in s'.dependents ensures Present(s', r) {
      var i, h :| PresentAt(s, r, i, h);
      StampedAt(s, undo, c, s', r, i, h);
    }
    forall r, d | DependsOn(s', r, d) ensures IsDependent(s', d, r) && Together(s', r, d) {
      assert DependsOn(s, r, d) && IsDependent(s, d, r);
      StampedTogether(s, id, undo, c, s', r, d);
    }
  }

  lemma StampedSorted(s: State, done: seq<Record>, c: nat, s': State, undo: seq<Record>)
    requires EntriesStamped(s, done, c, s') && Sorted(s, undo)
    ensures Sorted(s', undo)
  {
    forall x | 0 <= x < |undo| ensures IdAt(s', undo[x]) == IdAt(s, undo[x]) {
      var r := undo[x];
      if r.index in s.entries {
        assert ChainStamped(s.entries[r.index], r.index, done, c, s'.entries[r.index]);
      }
    }
  }

  lemma CommitRooted(y: System, id: nat)
    requires Inv(y) && Rooted(y) && Enabled(y, Commit(id))
    ensures Rooted(Next(y, Commit(id)))
  {
    CommitByAge(y, id);
    assert RunningOk(y, id);
    hide ChainsOk, UndoOk, ByAge, Grounded, Sorted, EntriesStamped, NamesKept, CommitAll, RecordOk;
    UndoRecordsOk(y.catalog, id, y.undo[id]);
    CommitStamps(y.catalog, y.starts, y.clock, y.undo[id], y.clock);
    CommitKeepsDependencies(y.catalog, y.undo[id], y.clock);
    var y', s' := Next(y, Commit(id)), CommitAll(y.catalog, y.undo[id], y.clock);
    StampedGrounded(y.catalog, id, y.undo[id], y.clock, s');
    forall k | k in y'.starts && k in y'.undo ensures Sorted(s', y'.undo[k]) {
      StampedSorted(y.catalog, y.undo[id], y.clock, s', y.undo[k]);
    }
  }

  ghost predicate Grows(s: State, s': State) {
    forall i | i in s.entries :: i in s'.entries && s.entries[i] <= s'.entries[i]
  }

  /** New versions are younger than all there were. */
  ghost predicate PushesYoung(s: State, s': State, pushed: seq<Record>) {
    |pushed| <= 1 && forall x | 0 <= x < |pushed| :: RecordOk(s', pushed[x]) && IdAt(s', pushed[x]) >= s.currentRef
  }

  lemma FinishCreateGrows(s: State, tx: Transaction, name: Name, i: nat, kind: Kind, internal: bool, on: set<Ref>)
    requires HasChain(s, i)
    ensures var result := FinishCreate(s, tx, name, i, kind, internal, on);
      Grows(s, result.state) && PushesYoung(s, result.state, result.pushed)
  {
    var v := NewVersion(s, tx, name, kind, internal);
    RegisterKeeps(s, v.ref, !kind.IndexEntry?, on);
    hide Register, DependenciesLive;
  }

  lemma NamedGrows(s: State, tx: Transaction, name: Name)
    requires s.currentEntry !in s.entries
    ensures Grows(s, Named(s, tx, name)) && Grows(s, StartChain(s, name))
    ensures s.currentRef <= Named(s, tx, name).currentRef
    ensures HasChain(Named(s, tx, name), s.currentEntry)
  {
  }

  lemma SameGrows(s: State, tx: Transaction)
    ensures Grows(s, s) && forall s': State :: PushesYoung(s, s', [])
  {
  }

  lemma GrowsTwice(s: State, s1: State, s2: State, pushed: seq<Record>)
    requires Grows(s, s1) && Grows(s1, s2) && PushesYoung(s1, s2, pushed) && s.currentRef <= s1.currentRef
    ensures Grows(s, s2) && PushesYoung(s, s2, pushed)
  {
  }

  /** Creating an entry leaves things as they are, starts a chain, or finishes the entry on a chain. */
  lemma CreateShapes(s: State, tx: Transaction, name: Name, kind: Kind, internal: bool, on: set<Ref>)
    ensures var result := CreateEntry(s, tx, name, kind, internal, on);
      || (result.state == s && result.pushed == [])
      || (result.state == StartChain(s, name) && result.pushed == [])
      || result == FinishCreate(Named(s, tx, name), tx, name, s.currentEntry, kind, internal, on)
      || exists i :: HasChain(s, i) && result == FinishCreate(s, tx, name, i, kind, internal, on)
  {
    hide FinishCreate, VisibleMapping, StartChain, PutMapping, CanPutMapping;
    var m := GetMapping(s, tx, name);
    if m.Some? && HasChain(s, m.value.index) {
      var i := m.value.index;
      assert HasChain(s, i);
    }
  }

  lemma CreateGrows(s: State, tx: Transaction, name: Name, kind: Kind, internal: bool, on: set<Ref>)
    requires s.currentEntry !in s.entries
    ensures var result := CreateEntry(s, tx, name, kind, internal, on);
      Grows(s, result.state) && PushesYoung(s, result.state, result.pushed)
  {
    hide CreateEntry, FinishCreate, IdAt, Grows, PushesYoung, Named, StartChain;
    var result, names := CreateEntry(s, tx, name, kind, internal, on), Named(s, tx, name);
    CreateShapes(s, tx, name, kind, internal, on);
    SameGrows(s, tx);
    NamedGrows(s, tx, name);
    if result == FinishCreate(names, tx, name, s.currentEntry, kind, internal, on) {
      FinishCreateGrows(names, tx, name, s.currentEntry, kind, internal, on);
      GrowsTwice(s, names, result.state, result.pushed);
    } else if i :| HasChain(s, i) && result == FinishCreate(s, tx, name, i, kind, internal, on) {
      FinishCreateGrows(s, tx, name, i, kind, internal, on);
    }
  }

  lemma FinishAlterGrows(s: State, names: State, tx: Transaction, i: nat, entry: Version, newName: Name)
    requires HasChain(s, i) && names.entries == s.entries && names.currentRef == s.currentRef
    ensures var result := FinishAlter(names, tx, i, entry, newName);
      Grows(s, result.state) && PushesYoung(s, result.state, result.pushed)
  {
    var v := NewVersion(names, tx, newName, entry.kind, entry.internal);
    RegisterKeeps(names, v.ref, true, Dependencies(names, entry.ref));
    hide Register, NoLiveDependents;
  }

  lemma AlterGrows(s: State, tx: Transaction, name: Name, newName: Option<Name>)
    ensures var result := AlterEntry(s, tx, name, newName);
      Grows(s, result.state) && PushesYoung(s, result.state, result.pushed)
  {
    hide FinishAlter, IdAt, NameIsTaken, CanPutMapping, Renamed;
    var found := GetEntryInternal(s, tx, name);
    if found.Found? && newName.Some? {
      var entry := Top(s.entries[found.index]);
      RenamedIs(s, tx, found.index, entry.ref.name, newName.value);
      FinishAlterGrows(s, s, tx, found.index, entry, newName.value);
      FinishAlterGrows(s, Renamed(s, tx, found.index, entry.ref.name, newName.value), tx, found.index, entry,
                       newName.value);
    }
  }

  lemma ApplyGrows(s: State, tx: Transaction, op: Op)
    requires s.currentEntry !in s.entries
    ensures var result := Apply(s, tx, op); Grows(s, result.state) && PushesYoung(s, result.state, result.pushed)
  {
    match op
    case Create(name, kind, internal, on) => CreateGrows(s, tx, name, kind, internal, on);
    case Alter(name, newName) => AlterGrows(s, tx, name, newName);
    case Drop(name) =>
  }

  /** The record of a new version has a larger identity than those before it. */
  lemma MoreSorted(s: State, s': State, id: nat, undo: seq<Record>, pushed: seq<Record>)
    requires Sorted(s, undo) && UndoOk(s, id, undo) && Ascending(s) && Grows(s, s') && PushesYoung(s, s', pushed)
    ensures Sorted(s', undo) && Sorted(s', undo + pushed)
  {
    forall x | 0 <= x < |undo| ensures IdAt(s', undo[x]) == IdAt(s, undo[x]) < s.currentRef {
      var r := undo[x];
      assert Owned(s, id, r.index, r.height);
      assert IdsRise(s.entries[r.index], s.currentRef);
    }
  }

  lemma WorkRooted(y: System, id: nat, op: Op)
    requires Inv(y) && Rooted(y) && id in y.starts && id in y.undo && KeepsNames(op) && OpOk(y.catalog, op)
    ensures Rooted(Work(y, id, op))
  {
    var y', s, tx := Work(y, id, op), y.catalog, TxOf(y, id);
    assert RunningOk(y, id);
    assert s.currentEntry !in s.entries;
    assert Ascending(s);
    hide ChainsOk, ByAge, Grounded, Sorted, UndoOk, Apply, Grows, PushesYoung, Ascending;
    ApplyByAge(s, y.starts, y.clock, tx, op);
    ApplyGrounded(s, y.starts, y.clock, tx, op);
    ApplyGrows(s, tx, op);
    forall k | k in y'.starts && k in y'.undo ensures Sorted(y'.catalog, y'.undo[k]) {
      assert RunningOk(y, k);
      MoreSorted(s, y'.catalog, k, y.undo[k], Apply(s, tx, op).pushed);
    }
  }

  lemma AbortRooted(y: System, id: nat)
    requires Inv(y) && Rooted(y) && Enabled(y, Abort(id))
    ensures Rooted(Next(y, Abort(id)))
  {
    hide Inv, ByAge, Grounded, Sorted, Rollback, UndoAll, SameViews;
    UndoAllRooted(y, id);
    UndoAllStep(y, id);
    UndoAllIsRollback(y, id);
  }

  lemma BeginRooted(y: System)
    requires Rooted(y) && Enabled(y, Begin)
    ensures Rooted(Next(y, Begin))
  {
    hide ByAge, Grounded;
  }

  lemma StepRooted(y: System, step: Step)
    requires Inv(y) && Rooted(y) && Enabled(y, step) && (step.Perform? ==> OpOk(y.catalog, step.op))
    ensures Rooted(Next(y, step))
  {
    hide Inv, Rooted, Apply, CommitAll, Rollback, OpOk;
    match step
    case Begin => BeginRooted(y);
    case Perform(id, op) => WorkRooted(y, id, op);
    case Commit(id) => CommitRooted(y, id);
    case Abort(id) => AbortRooted(y, id);
  }

  lemma {:induction false} RunRooted(y: System, steps: seq<Step>)
    requires Inv(y) && Rooted(y) && ProperRun(y, steps)
    ensures RunSteps(y, steps).Some? && Inv(RunSteps(y, steps).value) && Rooted(RunSteps(y, steps).value)
    decreases |steps|
  {
    hide Inv, Rooted, Next, Ready, KeepsNames, OpOk;
    if steps != [] {
      StepKeepsInv(y, steps[0]);
      StepRooted(y, steps[0]);
      RunRooted(Next(y, steps[0]), steps[1..]);
    }
  }

  /** In every reachable state the dependency maps are inverse to each other and acyclic. */
  lemma MapsAreInverse(steps: seq<Step>)
    requires ProperRun(Initial(), steps)
    ensures RunSteps(Initial(), steps).Some?
    ensures var s := RunSteps(Initial(), steps).value.catalog; Inverse(s) && Acyclic(s) && Registered(s)
  {
    RunRooted(Initial(), steps);
    GroundedIsInverse(RunSteps(Initial(), steps).value.catalog);
  }
}
