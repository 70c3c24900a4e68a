/**
 * Whose versions are in the chains, in every run whose rollbacks found their chains, renames and late failures included
 * (src/catalog/catalog_set.cpp:18-433; src/transaction/commit_state.cpp:168-183;
 * src/transaction/undo_buffer.cpp:106-136).
 */
module CatalogOwners {
  import opened Catalog
  import opened CatalogAborts
  import opened CatalogCascades
  import opened CatalogDependencies
  import opened CatalogInverse
  import opened CatalogReach
  import opened CatalogRollback
  import opened CatalogRuns
  import opened Common

  // ---------- what an operation does to the chains ----------

  /** A version on a chain that the transaction has no conflict with, and in both dependency maps if it is live. */
  ghost predicate Pushes(base: State, tx: Transaction, i: nat, v: Version, s': State, pushed: seq<Record>) {
    && HasChain(base, i) && !HasConflict(tx, Top(base.entries[i]).timestamp) && v.timestamp == tx.id
    && s'.entries == base.entries[i := base.entries[i] + [v]] && pushed == [Record(i, |base.entries[i]|)]
    && v.ref.id == base.currentRef && (!v.Deleted() ==> v.ref in s'.dependents && v.ref in s'.dependencies)
  }

  ghost predicate KeepsObjects(s: State, s': State) {
    s.dependents.Keys <= s'.dependents.Keys && s.dependencies.Keys <= s'.dependencies.Keys
  }

  lemma RegisterKeepsObjects(s: State, target: Ref, cascade: bool, on: set<Ref>)
    ensures var s' := Register(s, target, cascade, on);
      KeepsObjects(s, s') && target in s'.dependents && target in s'.dependencies
  {
  }

  lemma FinishCreatePushes(s: State, tx: Transaction, name: Name, i: nat, kind: Kind, internal: bool, on: set<Ref>)
    returns (v: Version)
    requires HasChain(s, i) && !HasConflict(tx, Top(s.entries[i]).timestamp)
    ensures var result := FinishCreate(s, tx, name, i, kind, internal, on);
      && KeepsObjects(s, result.state)
      && if result.pushed == [] then result.state == s else Pushes(s, tx, i, v, result.state, result.pushed)
  {
    v := NewVersion(s, tx, name, kind, internal);
    RegisterKeeps(s, v.ref, !kind.IndexEntry?, on);
    RegisterKeepsObjects(s, v.ref, !kind.IndexEntry?, on);
    hide Register, DependenciesLive;
  }

  /** Putting the names of a rename in place leaves the chains and the objects alone. */
  lemma FinishAlterPushes(s: State, names: State, tx: Transaction, i: nat, entry: Version, newName: Name)
    returns (v: Version)
    requires HasChain(s, i) && !HasConflict(tx, Top(s.entries[i]).timestamp) && names.entries == s.entries
    requires names.dependents == s.dependents && names.dependencies == s.dependencies
    requires names.currentRef == s.currentRef
    ensures var result := FinishAlter(names, tx, i, entry, newName);
      && KeepsObjects(s, result.state)
      && if result.pushed == [] then result.state.entries == s.entries
         else Pushes(s, tx, i, v, result.state, result.pushed)
  {
    v := NewVersion(names, tx, newName, entry.kind, entry.internal);
    var on := Dependencies(names, entry.ref);
    RegisterKeeps(names, v.ref, true, on);
    RegisterKeepsObjects(names, v.ref, true, on);
    hide Register, NoLiveDependents;
  }

  /** The chains an operation finds or starts. */
  ghost predicate StartsFrom(s: State, op: Op, base: State) {
    base == s || (op.Create? && base == StartChain(s, op.name))
  }

  ghost predicate Writes(s: State, tx: Transaction, base: State, i: nat, v: Version, result: Result) {
    && KeepsObjects(s, result.state)
    && if result.pushed == [] then result.state.entries == base.entries
       else Pushes(base, tx, i, v, result.state, result.pushed)
  }

  lemma CreateWrites(s: State, tx: Transaction, op: Op) returns (base: State, i: nat, v: Version)
    requires op.Create?
    ensures StartsFrom(s, op, base) && Writes(s, tx, base, i, v, Apply(s, tx, op))
  {
    base, i, v := s, 0, NewVersion(s, tx, op.name, DeletedEntry, false);
    var m := GetMapping(s, tx, op.name);
    if m.None? || m.value.deleted {
      base := StartChain(s, op.name);
      if CanPutMapping(base, tx, op.name) {
        i := s.currentEntry;
        var names := PutMapping(base, tx, op.name, i);
        v := FinishCreatePushes(names, tx, op.name, i, op.kind, op.internal, op.on);
      }
    } else if HasChain(s, m.value.index) {
      i := m.value.index;
      if !HasConflict(tx, Top(s.entries[i]).timestamp) {
        v := FinishCreatePushes(s, tx, op.name, i, op.kind, op.internal, op.on);
      }
    }
    hide FinishCreate, HasConflict;
  }

  lemma AlterWrites(s: State, tx: Transaction, op: Op) returns (base: State, i: nat, v: Version)
    requires op.Alter?
    ensures StartsFrom(s, op, base) && Writes(s, tx, base, i, v, Apply(s, tx, op))
  {
    base, i, v := s, 0, NewVersion(s, tx, op.name, DeletedEntry, false);
    hide FinishAlter, NameIsTaken, CanPutMapping, HasConflict, Renamed;
    var found := GetEntryInternal(s, tx, op.name);
    if found.Found? && op.newName.Some? {
      i := found.index;
      var entry := Top(s.entries[i]);
      if op.newName.value == entry.ref.name {
        v := FinishAlterPushes(s, s, tx, i, entry, op.newName.value);
      } else {
        RenamedIs(s, tx, i, entry.ref.name, op.newName.value);
        v := FinishAlterPushes(s, Renamed(s, tx, i, entry.ref.name, op.newName.value), tx, i, entry, op.newName.value);
      }
    }
  }

  lemma DropWrites(s: State, tx: Transaction, op: Op) returns (base: State, i: nat, v: Version)
    requires op.Drop?
    ensures StartsFrom(s, op, base) && Writes(s, tx, base, i, v, Apply(s, tx, op))
  {
    base, i, v := s, 0, NewVersion(s, tx, op.name, DeletedEntry, false);
    var m := GetMapping(s, tx, op.name);
    if m.Some? && GetEntryAt(s, tx, m.value.index).Found? {
      i := m.value.index;
      v := NewVersion(s, tx, Top(s.entries[i]).ref.name, DeletedEntry, false);
    }
  }

  /** Any operation, renames included, puts at most one version on top of a chain it found or started. */
  lemma ApplyWrites(s: State, tx: Transaction, op: Op) returns (base: State, i: nat, v: Version)
    ensures StartsFrom(s, op, base) && Writes(s, tx, base, i, v, Apply(s, tx, op))
  {
    match op
    case Create(_, _, _, _) => base, i, v := CreateWrites(s, tx, op);
    case Alter(_, _) => base, i, v := AlterWrites(s, tx, op);
    case Drop(_) => base, i, v := DropWrites(s, tx, op);
  }

  // ---------- what holds of the chains ----------

  /** A chain starts with a committed version, and what is not committed is on top and of one transaction. */
  ghost predicate Section(chain: seq<Version>) {
    && chain != [] && chain[0].timestamp < TRANSACTION_ID_START
    && forall h, k | 0 <= h < k < |chain| ::
         chain[h].timestamp >= TRANSACTION_ID_START ==> chain[k].timestamp == chain[h].timestamp
  }

  ghost predicate Sectioned(s: State) {
    forall i | i in s.entries :: Section(s.entries[i])
  }

  /** Stamps are those of commits and of transactions that have begun. */
  ghost predicate Issued(s: State, nextId: nat) {
    forall i, h: nat | At(s, i, h) :: s.entries[i][h].timestamp < nextId
  }

  /** Every live version is an object of both dependency maps. */
  ghost predicate Listed(s: State) {
    forall i, h: nat | At(s, i, h) && h > 0 && !s.entries[i][h].Deleted() ::
      s.entries[i][h].ref in s.dependents && s.entries[i][h].ref in s.dependencies
  }

  ghost predicate Chained(s: State, nextId: nat) {
    Unique(s) && Sectioned(s) && Issued(s, nextId) && Listed(s)
  }

  /** Stamps are in order up every chain, and are those of commits so far and of running transactions. */
  ghost predicate Ordered(s: State, starts: map<nat, nat>, clock: nat) {
    && (forall i | i in s.entries :: Rises(s.entries[i], starts))
    && forall i, h: nat | At(s, i, h) :: StampOk(s.entries[i][h].timestamp, starts, clock)
  }

  /** What holds of the chains and undo buffers in every run whose rollbacks found their chains. */
  ghost predicate Owning(y: System) {
    && y.clock <= TRANSACTION_ID_START <= y.nextId && Sound(y.catalog) && Chained(y.catalog, y.nextId)
    && Ordered(y.catalog, y.starts, y.clock)
    && forall id | id in y.starts :: OwnsAll(y, id)
  }

  /** A running transaction's undo buffer lists exactly its versions. */
  ghost predicate OwnsAll(y: System, id: nat)
    requires id in y.starts
  {
    && id in y.undo && TRANSACTION_ID_START <= id < y.nextId && y.starts[id] < y.clock
    && UndoOk(y.catalog, id, y.undo[id])
  }

  // ---------- an operation ----------

  /** A new chain with nothing but its deleted version. */
  lemma StartChained(s: State, name: Name, nextId: nat)
    requires Sound(s) && Chained(s, nextId) && nextId > 0
    ensures Chained(StartChain(s, name), nextId)
  {
    var s' := StartChain(s, name);
    assert s.currentEntry !in s.entries;
    AgedEntries(s);
    hide Sound;
    forall i, h: nat | At(s', i, h) ensures i != s.currentEntry ==> At(s, i, h) && s'.entries[i] == s.entries[i] {
    }
    forall i, h: nat, k, l: nat | At(s', i, h) && At(s', k, l) && s'.entries[i][h].ref.id == s'.entries[k][l].ref.id
      ensures i == k && h == l
    {
      assert i != s.currentEntry ==> At(s, i, h) && s.entries[i][h].ref.id < s.currentRef;
      assert k != s.currentEntry ==> At(s, k, l) && s.entries[k][l].ref.id < s.currentRef;
    }
    assert Issued(s', nextId) && Sectioned(s');
  }

  lemma AgedEntries(s: State)
    requires Sound(s)
    ensures forall i, h: nat | At(s, i, h) :: s.entries[i][h].ref.id < s.currentRef
  {
    forall i, h: nat | At(s, i, h) ensures s.entries[i][h].ref.id < s.currentRef {
      assert Aged(s.entries[i], s.currentRef);
    }
  }

  lemma StartOwns(s: State, name: Name, id: nat, undo: seq<Record>)
    requires s.currentEntry !in s.entries && UndoOk(s, id, undo)
    ensures UndoOk(StartChain(s, name), id, undo)
  {
    var s' := StartChain(s, name);
    forall i, h ensures Owned(s', id, i, h) <==> Owned(s, id, i, h) {
    }
    forall x | 0 <= x < |undo| ensures Owned(s', id, undo[x].index, undo[x].height) {
      assert Owned(s, id, undo[x].index, undo[x].height);
    }
  }

  lemma PushSection(chain: seq<Version>, tx: Transaction, v: Version)
    requires Section(chain) && !HasConflict(tx, Top(chain).timestamp) && v.timestamp == tx.id
    ensures Section(chain + [v])
  {
  }

  lemma PushesUnique(base: State, i: nat, v: Version, s': State)
    requires Unique(base) && HasChain(base, i) && s'.entries == base.entries[i := base.entries[i] + [v]]
    requires forall k, h: nat | At(base, k, h) :: base.entries[k][h].ref.id < v.ref.id
    ensures Unique(s')
  {
    forall k, h: nat | At(s', k, h) ensures (k == i && h == |base.entries[i]|) || At(base, k, h) {
    }
  }

  lemma PushesListed(base: State, tx: Transaction, i: nat, v: Version, s': State, pushed: seq<Record>)
    requires Listed(base) && Pushes(base, tx, i, v, s', pushed) && KeepsObjects(base, s')
    ensures Listed(s')
  {
    hide HasConflict;
    forall k, h: nat | At(s', k, h) && h > 0 && !s'.entries[k][h].Deleted()
      ensures s'.entries[k][h].ref in s'.dependents && s'.entries[k][h].ref in s'.dependencies
    {
      if !(k == i && h == |base.entries[i]|) {
        assert At(base, k, h) && s'.entries[k][h] == base.entries[k][h];
      }
    }
  }

  lemma PushChained(base: State, tx: Transaction, i: nat, v: Version, s': State, pushed: seq<Record>, nextId: nat)
    requires Chained(base, nextId) && Pushes(base, tx, i, v, s', pushed) && KeepsObjects(base, s') && tx.id < nextId
    requires forall k, h: nat | At(base, k, h) :: base.entries[k][h].ref.id < base.currentRef
    ensures Chained(s', nextId)
  {
    PushesUnique(base, i, v, s');
    PushesListed(base, tx, i, v, s', pushed);
    hide HasConflict, Unique, Listed;
    forall k, h: nat | At(s', k, h) ensures s'.entries[k][h].timestamp < nextId {
      if !(k == i && h == |base.entries[i]|) {
        assert At(base, k, h);
      }
    }
    forall k | k in s'.entries ensures Section(s'.entries[k]) {
      assert Section(base.entries[k]);
      if k == i {
        PushSection(base.entries[i], tx, v);
      }
    }
  }

  lemma PushOrdered(base: State, tx: Transaction, i: nat, v: Version, s': State, pushed: seq<Record>,
                    starts: map<nat, nat>, clock: nat)
    requires Ordered(base, starts, clock) && Pushes(base, tx, i, v, s', pushed)
    requires tx.id in starts && starts[tx.id] == tx.start && TRANSACTION_ID_START <= tx.id
    ensures Ordered(s', starts, clock)
  {
    forall k | k in s'.entries ensures Rises(s'.entries[k], starts) {
      assert Rises(base.entries[k], starts);
    }
    forall k, h: nat | At(s', k, h) ensures StampOk(s'.entries[k][h].timestamp, starts, clock) {
      if !(k == i && h == |base.entries[i]|) {
        assert At(base, k, h);
      }
    }
  }

  lemma StartOrdered(s: State, op: Op, base: State, starts: map<nat, nat>, clock: nat)
    requires StartsFrom(s, op, base) && Ordered(s, starts, clock) && s.currentEntry !in s.entries && clock > 0
    ensures Ordered(base, starts, clock)
  {
    if base != s {
      forall i | i in base.entries ensures Rises(base.entries[i], starts) {
        assert i != s.currentEntry ==> Rises(s.entries[i], starts);
      }
      forall i, h: nat | At(base, i, h) ensures StampOk(base.entries[i][h].timestamp, starts, clock) {
        assert i != s.currentEntry ==> At(s, i, h);
      }
    }
  }

  lemma SameOrdered(s: State, s': State, starts: map<nat, nat>, clock: nat)
    requires Ordered(s, starts, clock) && s'.entries == s.entries
    ensures Ordered(s', starts, clock)
  {
    forall i, h: nat ensures At(s', i, h) <==> At(s, i, h) {
    }
  }

  lemma PushOwns(base: State, tx: Transaction, i: nat, v: Version, s': State, pushed: seq<Record>, id: nat,
                 undo: seq<Record>)
    requires Pushes(base, tx, i, v, s', pushed) && UndoOk(base, id, undo)
    ensures UndoOk(s', id, if id == tx.id then undo + pushed else undo)
  {
    hide HasConflict;
    var n := |base.entries[i]|;
    var undo' := if id == tx.id then undo + pushed else undo;
    forall k, h: nat ensures Owned(s', id, k, h) <==> Owned(base, id, k, h) || (id == tx.id && k == i && h == n) {
    }
    forall x | 0 <= x < |undo| ensures Owned(base, id, undo[x].index, undo[x].height) {
    }
    forall x | 0 <= x < |undo'| ensures Owned(s', id, undo'[x].index, undo'[x].height) {
    }
    forall k, h: nat | Owned(s', id, k, h) ensures Record(k, h) in undo' {
      if Owned(base, id, k, h) {
        assert Record(k, h) in undo;
      } else {
        assert undo'[|undo|] == Record(k, h);
      }
    }
  }

  lemma StartObjects(s: State, op: Op, base: State)
    requires Sound(s) && StartsFrom(s, op, base)
    ensures Sound(base) && KeepsObjects(base, s) && s.currentEntry !in s.entries
  {
    if op.Create? {
      NamedSound(s, Transaction(0, 0), op.name);
    }
  }

  lemma WritesChained(s: State, tx: Transaction, op: Op, base: State, i: nat, v: Version, result: Result, nextId: nat,
                      starts: map<nat, nat>, clock: nat)
    requires StartsFrom(s, op, base) && Writes(s, tx, base, i, v, result) && Sound(s) && Chained(s, nextId)
    requires Ordered(s, starts, clock) && tx.id in starts && starts[tx.id] == tx.start < clock
    requires TRANSACTION_ID_START <= tx.id < nextId
    ensures Chained(result.state, nextId) && Ordered(result.state, starts, clock)
  {
    StartObjects(s, op, base);
    AgedEntries(base);
    ObjectsTwice(base, s, result.state);
    hide Sound, Chained, StartChain, Ordered, KeepsObjects;
    StartsOwning(s, op, base, nextId);
    StartOrdered(s, op, base, starts, clock);
    if result.pushed == [] {
      SameChained(base, result.state, nextId);
      SameOrdered(base, result.state, starts, clock);
    } else {
      PushChained(base, tx, i, v, result.state, result.pushed, nextId);
      PushOrdered(base, tx, i, v, result.state, result.pushed, starts, clock);
    }
  }

  /** An operation adds to the undo buffer of its transaction what it pushed. */
  lemma WritesOwned(s: State, tx: Transaction, op: Op, base: State, i: nat, v: Version, result: Result, id: nat,
                    undo: seq<Record>)
    requires StartsFrom(s, op, base) && Writes(s, tx, base, i, v, result) && s.currentEntry !in s.entries
    requires UndoOk(s, id, undo)
    ensures UndoOk(result.state, id, if id == tx.id then undo + result.pushed else undo)
  {
    hide UndoOk, StartChain, KeepsObjects;
    StartsOwned(s, op, base, id, undo);
    if result.pushed == [] {
      SameOwned(base, result.state, id, undo);
      assert undo + [] == undo;
    } else {
      PushOwns(base, tx, i, v, result.state, result.pushed, id, undo);
    }
  }

  /** An operation keeps what holds of the chains and of every undo buffer. */
  lemma WorkOwns(y: System, id: nat, op: Op)
    requires Owning(y) && id in y.starts && id in y.undo && OpOk(y.catalog, op)
    ensures Owning(Work(y, id, op))
  {
    var s, tx := y.catalog, TxOf(y, id);
    var result, y' := Apply(s, tx, op), Work(y, id, op);
    ApplySound(s, tx, op);
    SoundNext(s);
    assert OwnsAll(y, id);
    hide Sound, Apply, OpOk, UndoOk, Chained, StartChain, Ordered, Writes, StartsFrom;
    var base, i, v := ApplyWrites(s, tx, op);
    WritesChained(s, tx, op, base, i, v, result, y.nextId, y.starts, y.clock);
    forall k | k in y'.starts ensures OwnsAll(y', k) {
      assert OwnsAll(y, k);
      WritesOwned(s, tx, op, base, i, v, result, k, y.undo[k]);
    }
  }

  lemma SoundNext(s: State)
    requires Sound(s)
    ensures s.currentEntry !in s.entries
  {
  }

  lemma ObjectsTwice(a: State, b: State, c: State)
    requires KeepsObjects(a, b) && KeepsObjects(b, c)
    ensures KeepsObjects(a, c)
  {
  }

  lemma StartsOwning(s: State, op: Op, base: State, nextId: nat)
    requires Sound(s) && StartsFrom(s, op, base) && Chained(s, nextId) && nextId > 0
    ensures Chained(base, nextId)
  {
    if base != s {
      StartChained(s, op.name, nextId);
    }
  }

  lemma StartsOwned(s: State, op: Op, base: State, id: nat, undo: seq<Record>)
    requires StartsFrom(s, op, base) && s.currentEntry !in s.entries && UndoOk(s, id, undo)
    ensures UndoOk(base, id, undo)
  {
    if base != s {
      StartOwns(s, op.name, id, undo);
    }
  }

  lemma SameChained(s: State, s': State, nextId: nat)
    requires Chained(s, nextId) && s'.entries == s.entries && KeepsObjects(s, s')
    ensures Chained(s', nextId)
  {
    hide Section;
    forall i, h: nat ensures At(s', i, h) <==> At(s, i, h) {
    }
  }

  lemma SameOwned(s: State, s': State, id: nat, undo: seq<Record>)
    requires UndoOk(s, id, undo) && s'.entries == s.entries
    ensures UndoOk(s', id, undo)
  {
    forall i, h ensures Owned(s', id, i, h) <==> Owned(s, id, i, h) {
    }
    forall x | 0 <= x < |undo| ensures Owned(s', id, undo[x].index, undo[x].height) {
      assert Owned(s, id, undo[x].index, undo[x].height);
    }
  }

  // ---------- a commit ----------

  /** A version after a commit: stamped if it is in the buffer, or committed before and below one that is. */
  ghost predicate RestampedAt(v: Version, v': Version, id: nat, i: nat, h: nat, done: seq<Record>, c: nat) {
    && (v' == v || v' == v.(timestamp := c)) && (Record(i, h) in done ==> v'.timestamp == c)
    && (v' != v ==> v.timestamp == id || (v.timestamp < TRANSACTION_ID_START && Record(i, h + 1) in done))
  }

  ghost predicate Restamped(s: State, id: nat, done: seq<Record>, c: nat, s': State) {
    && s'.entries.Keys == s.entries.Keys
    && (forall i | i in s.entries :: |s'.entries[i]| == |s.entries[i]|)
    && forall i, h: nat | At(s, i, h) :: RestampedAt(s.entries[i][h], s'.entries[i][h], id, i, h, done, c)
  }

  /** Stamping one more version that is the transaction's own, or committed and below one of its own. */
  lemma RestampOne(s: State, id: nat, done: seq<Record>, c: nat, s1: State, i: nat, h: nat, done': seq<Record>)
    requires Restamped(s, id, done, c, s1) && At(s, i, h) && h < Height(s1, i)
    requires done' == done || done' == done + [Record(i, h)]
    requires s.entries[i][h].timestamp != id ==>
             s.entries[i][h].timestamp < TRANSACTION_ID_START && Record(i, h + 1) in done'
    ensures Restamped(s, id, done', c, UpdateTimestamp(s1, i, h, c))
  {
    var s2 := UpdateTimestamp(s1, i, h, c);
    assert s2.entries == s1.entries[i := s1.entries[i][h := s1.entries[i][h].(timestamp := c)]];
    hide UpdateTimestamp;
    forall k, l: nat | At(s, k, l) ensures RestampedAt(s.entries[k][l], s2.entries[k][l], id, k, l, done', c) {
      assert RestampedAt(s.entries[k][l], s1.entries[k][l], id, k, l, done, c);
    }
  }

  /** What is below a version of a transaction is its own or committed. */
  lemma BelowOwned(s: State, id: nat, r: Record)
    requires Sectioned(s) && Owned(s, id, r.index, r.height) && id >= TRANSACTION_ID_START
    ensures At(s, r.index, r.height - 1)
    ensures var t := s.entries[r.index][r.height - 1].timestamp; t < TRANSACTION_ID_START || t == id
  {
    assert Section(s.entries[r.index]);
  }

  lemma CommitRecordCases(s: State, r: Record, c: nat)
    requires RecordOk(s, r)
    ensures var s1 := UpdateTimestamp(s, r.index, r.height, c);
      && r.height - 1 < Height(s1, r.index)
      && (CommitRecord(s, r, c) == s1 || CommitRecord(s, r, c) == UpdateTimestamp(s1, r.index, r.height - 1, c))
  {
  }

  lemma RestampNext(s: State, id: nat, done: seq<Record>, c: nat, s1: State, r: Record)
    requires Sectioned(s) && Restamped(s, id, done, c, s1) && Owned(s, id, r.index, r.height)
    requires id >= TRANSACTION_ID_START
    ensures Restamped(s, id, done + [r], c, CommitRecord(s1, r, c))
  {
    hide UpdateTimestamp, Sectioned, Restamped, CommitRecord;
    BelowOwned(s, id, r);
    RestampedHeight(s, id, done, c, s1, r.index);
    var done', s2 := done + [r], UpdateTimestamp(s1, r.index, r.height, c);
    assert At(s, r.index, r.height) && done'[|done|] == r;
    RestampOne(s, id, done, c, s1, r.index, r.height, done');
    CommitRecordCases(s1, r, c);
    if CommitRecord(s1, r, c) != s2 {
      RestampOne(s, id, done', c, s2, r.index, r.height - 1, done');
    }
  }

  lemma RestampedHeight(s: State, id: nat, done: seq<Record>, c: nat, s': State, i: nat)
    requires Restamped(s, id, done, c, s') && i in s.entries
    ensures Height(s', i) == Height(s, i)
  {
  }

  ghost predicate AllOwned(s: State, id: nat, records: seq<Record>) {
    forall x | 0 <= x < |records| :: Owned(s, id, records[x].index, records[x].height)
  }

  lemma NothingRestamped(s: State, id: nat, c: nat)
    ensures Restamped(s, id, [], c, s)
  {
  }

  lemma {:induction false} CommitRestamps(s: State, id: nat, records: seq<Record>, c: nat)
    requires Sectioned(s) && id >= TRANSACTION_ID_START && AllOwned(s, id, records)
    ensures Restamped(s, id, records, c, CommitAll(s, records, c))
  {
    hide Restamped, Sectioned, CommitRecord, Owned;
    if records == [] {
      NothingRestamped(s, id, c);
    } else {
      var rest, r := records[..|records| - 1], records[|records| - 1];
      CommitRestamps(s, id, rest, c);
      assert rest + [r] == records;
      RestampNext(s, id, rest, c, CommitAll(s, rest, c), r);
    }
  }

  /** Every version of the transaction has the commit stamp, and those of others are untouched. */
  lemma CommitStampsOwn(s: State, id: nat, undo: seq<Record>, c: nat, s': State, i: nat, h: nat)
    requires Sectioned(s) && UndoOk(s, id, undo) && Restamped(s, id, undo, c, s') && At(s, i, h)
    requires c < TRANSACTION_ID_START <= id
    ensures At(s', i, h) && s'.entries[i][h] == s.entries[i][h].(timestamp := s'.entries[i][h].timestamp)
    ensures s'.entries[i][h].timestamp >= TRANSACTION_ID_START || s.entries[i][h].timestamp >= TRANSACTION_ID_START ==>
            if s.entries[i][h].timestamp == id then s'.entries[i][h].timestamp == c
            else s'.entries[i][h] == s.entries[i][h]
  {
    assert RestampedAt(s.entries[i][h], s'.entries[i][h], id, i, h, undo, c);
    assert Section(s.entries[i]);
    if s.entries[i][h].timestamp == id {
      assert Owned(s, id, i, h);
    }
  }

  lemma CommitChained(s: State, id: nat, undo: seq<Record>, c: nat, s': State, nextId: nat)
    requires Chained(s, nextId) && UndoOk(s, id, undo) && Restamped(s, id, undo, c, s')
    requires c < TRANSACTION_ID_START <= id < nextId
    requires s'.dependents == s.dependents && s'.dependencies == s.dependencies
    ensures Chained(s', nextId)
  {
    forall i, h: nat ensures At(s', i, h) <==> At(s, i, h) {
    }
    forall i, h: nat | At(s, i, h)
      ensures s'.entries[i][h] == s.entries[i][h].(timestamp := s'.entries[i][h].timestamp)
      ensures s'.entries[i][h].timestamp >= TRANSACTION_ID_START ||
              s.entries[i][h].timestamp >= TRANSACTION_ID_START ==>
              if s.entries[i][h].timestamp == id then s'.entries[i][h].timestamp == c
              else s'.entries[i][h] == s.entries[i][h]
    {
      CommitStampsOwn(s, id, undo, c, s', i, h);
    }
    hide UndoOk, Restamped;
    assert Unique(s') && Listed(s');
    forall i | i in s'.entries ensures Section(s'.entries[i]) {
      assert Section(s.entries[i]);
      assert forall h: nat | h < |s'.entries[i]| :: At(s, i, h);
    }
  }

  lemma CommitOwns(s: State, id: nat, undo: seq<Record>, c: nat, s': State, other: nat, undo': seq<Record>)
    requires Sectioned(s) && UndoOk(s, id, undo) && Restamped(s, id, undo, c, s') && UndoOk(s, other, undo')
    requires c < TRANSACTION_ID_START <= id && other != id && TRANSACTION_ID_START <= other
    ensures UndoOk(s', other, undo')
  {
    forall i, h: nat ensures Owned(s', other, i, h) <==> Owned(s, other, i, h) {
      if At(s, i, h) {
        CommitStampsOwn(s, id, undo, c, s', i, h);
      }
    }
    forall x | 0 <= x < |undo'| ensures Owned(s', other, undo'[x].index, undo'[x].height) {
      assert Owned(s, other, undo'[x].index, undo'[x].height);
    }
  }

  lemma CommitPair(lower: Version, upper: Version, lower': Version, upper': Version, id: nat, i: nat, h: nat,
                   undo: seq<Record>, starts: map<nat, nat>, c: nat)
    requires RestampedAt(lower, lower', id, i, h, undo, c) && RestampedAt(upper, upper', id, i, h + 1, undo, c)
    requires OrderedPair(lower, upper, starts) && c < TRANSACTION_ID_START <= id
    requires lower.timestamp < TRANSACTION_ID_START ==> lower.timestamp <= c
    requires (upper.timestamp == id <==> Record(i, h + 1) in undo) && (lower.timestamp == id <==> Record(i, h) in undo)
    ensures OrderedPair(lower', upper', starts - {id})
  {
  }

  lemma CommitOrdered(s: State, starts: map<nat, nat>, id: nat, undo: seq<Record>, c: nat, s': State)
    requires Ordered(s, starts, c) && Sectioned(s) && UndoOk(s, id, undo) && Restamped(s, id, undo, c, s')
    requires c < TRANSACTION_ID_START <= id
    ensures Ordered(s', starts - {id}, c + 1)
  {
    forall i | i in s'.entries ensures Rises(s'.entries[i], starts - {id}) {
      OwnedAreRecords(s, id, undo, i);
      assert Rises(s.entries[i], starts);
      forall h | 1 <= h < |s'.entries[i]|
        ensures OrderedPair(s'.entries[i][h - 1], s'.entries[i][h], starts - {id})
      {
        assert At(s, i, h - 1) && At(s, i, h);
        assert OrderedPair(s.entries[i][h - 1], s.entries[i][h], starts);
        CommitPair(s.entries[i][h - 1], s.entries[i][h], s'.entries[i][h - 1], s'.entries[i][h], id, i, h - 1, undo,
                   starts, c);
      }
    }
    forall i, h: nat | At(s', i, h) ensures StampOk(s'.entries[i][h].timestamp, starts - {id}, c + 1) {
      assert At(s, i, h);
      OwnedAreRecords(s, id, undo, i);
      assert RestampedAt(s.entries[i][h], s'.entries[i][h], id, i, h, undo, c);
    }
  }

  lemma {:induction false} CommitObjects(s: State, records: seq<Record>, c: nat)
    ensures var s' := CommitAll(s, records, c);
      s'.dependents == s.dependents && s'.dependencies == s.dependencies
  {
    if records != [] {
      CommitObjects(s, records[..|records| - 1], c);
    }
  }

  lemma CommitStepOwns(y: System, id: nat)
    requires Owning(y) && Ready(y, Commit(id))
    ensures Owning(Next(y, Commit(id)))
  {
    var s, y' := y.catalog, Next(y, Commit(id));
    var undo, c := y.undo[id], y.clock;
    assert OwnsAll(y, id);
    CommitSound(s, undo, c);
    assert AllOwned(s, id, undo);
    CommitRestamps(s, id, undo, c);
    CommitObjects(s, undo, c);
    hide Sound, CommitAll, UndoOk, Sectioned, Restamped;
    CommitChained(s, id, undo, c, y'.catalog, y.nextId);
    CommitOrdered(s, y.starts, id, undo, c, y'.catalog);
    hide Ordered;
    forall k | k in y'.starts ensures OwnsAll(y', k) {
      assert OwnsAll(y, k);
      CommitOwns(s, id, undo, c, y'.catalog, k, y.undo[k]);
    }
  }

  // ---------- a rollback that finds its chains ----------

  lemma OwnedIntact(s: State, id: nat, undo: seq<Record>)
    requires UndoOk(s, id, undo)
    ensures Intact(s, undo)
  {
    forall x | 0 <= x < |undo| ensures RecordOk(s, undo[x]) {
      assert Owned(s, id, undo[x].index, undo[x].height);
    }
  }

  /** The versions of a buffer are those with the transaction's stamp. */
  lemma {:induction false} LeftIsNotOf(chain: seq<Version>, i: nat, id: nat, undo: seq<Record>)
    requires forall h: nat | h < |chain| :: chain[h].timestamp == id <==> Record(i, h) in undo
    ensures Left(chain, i, undo) == NotOf(chain, id)
  {
    if chain != [] {
      LeftIsNotOf(chain[..|chain| - 1], i, id, undo);
    }
  }

  lemma OwnedAreRecords(s: State, id: nat, undo: seq<Record>, i: nat)
    requires Sectioned(s) && UndoOk(s, id, undo) && i in s.entries && id >= TRANSACTION_ID_START
    ensures forall h: nat | h < |s.entries[i]| :: s.entries[i][h].timestamp == id <==> Record(i, h) in undo
  {
    assert Section(s.entries[i]);
    forall h: nat | h < |s.entries[i]| ensures s.entries[i][h].timestamp == id <==> Record(i, h) in undo {
      if s.entries[i][h].timestamp == id {
        assert Owned(s, id, i, h);
      }
      if Record(i, h) in undo {
        var x :| 0 <= x < |undo| && undo[x] == Record(i, h);
        assert Owned(s, id, undo[x].index, undo[x].height);
      }
    }
  }

  /** Every chain is without the versions of a transaction, and nothing else is different. */
  ghost predicate WithoutOwner(s: State, id: nat, s': State) {
    s'.entries.Keys == s.entries.Keys && forall i | i in s.entries :: s'.entries[i] == NotOf(s.entries[i], id)
  }

  lemma TakenOutIsWithoutOwner(s: State, id: nat, undo: seq<Record>, s': State)
    requires Sectioned(s) && UndoOk(s, id, undo) && id >= TRANSACTION_ID_START
    ensures TakenOut(s, undo, s') <==> WithoutOwner(s, id, s')
  {
    hide UndoOk, Sectioned;
    forall i | i in s.entries ensures Left(s.entries[i], i, undo) == NotOf(s.entries[i], id) {
      OwnedAreRecords(s, id, undo, i);
      LeftIsNotOf(s.entries[i], i, id, undo);
    }
  }

  /** Taking the versions of a transaction off the top of a chain, or nothing. */
  lemma {:induction false} NotOfSection(chain: seq<Version>, id: nat) returns (n: nat)
    requires Section(chain) && id >= TRANSACTION_ID_START
    ensures 0 < n <= |chain| && NotOf(chain, id) == chain[..n]
    ensures forall h: nat | h < |chain| :: chain[h].timestamp == id <==> h >= n
  {
    if Top(chain).timestamp == id {
      var front := chain[..|chain| - 1];
      assert NotOf(chain, id) == NotOf(front, id);
      hide NotOf;
      assert forall h: nat | h < |front| :: front[h] == chain[h];
      n := NotOfSection(front, id);
      assert chain[..n] == front[..n];
    } else {
      n := |chain|;
      forall h: nat | h < |chain| ensures chain[h].timestamp != id {
      }
      NoneOf(chain, id);
      assert chain[..n] == chain;
    }
  }

  lemma TakenOutOwns(s: State, id: nat, s': State, other: nat, undo': seq<Record>)
    requires Sectioned(s) && WithoutOwner(s, id, s') && UndoOk(s, other, undo')
    requires id >= TRANSACTION_ID_START && other >= TRANSACTION_ID_START && other != id
    ensures UndoOk(s', other, undo')
  {
    forall i, h: nat ensures Owned(s', other, i, h) <==> Owned(s, other, i, h) {
      if i in s.entries {
        assert Section(s.entries[i]);
        var n := NotOfSection(s.entries[i], id);
        assert s'.entries[i] == s.entries[i][..n];
      }
    }
    forall x | 0 <= x < |undo'| ensures Owned(s', other, undo'[x].index, undo'[x].height) {
      assert Owned(s, other, undo'[x].index, undo'[x].height);
    }
  }

  /** What is left of the chains is part of what there was. */
  lemma TakenOutSectioned(s: State, id: nat, s': State, nextId: nat)
    requires Sectioned(s) && Issued(s, nextId) && WithoutOwner(s, id, s') && id >= TRANSACTION_ID_START
    ensures Sectioned(s') && Issued(s', nextId)
  {
    forall i | i in s.entries
      ensures Section(s'.entries[i]) && forall h: nat | At(s', i, h) :: s'.entries[i][h].timestamp < nextId
    {
      assert Section(s.entries[i]);
      var n := NotOfSection(s.entries[i], id);
      assert s'.entries[i] == s.entries[i][..n];
      forall h: nat | At(s', i, h) ensures s'.entries[i][h].timestamp < nextId {
        assert At(s, i, h);
      }
    }
  }

  lemma TakenOutOrdered(s: State, starts: map<nat, nat>, clock: nat, id: nat, s': State)
    requires Sectioned(s) && Ordered(s, starts, clock) && WithoutOwner(s, id, s') && id >= TRANSACTION_ID_START
    ensures Ordered(s', starts - {id}, clock)
  {
    forall i | i in s.entries
      ensures Rises(s'.entries[i], starts - {id})
      ensures forall h: nat | At(s', i, h) :: StampOk(s'.entries[i][h].timestamp, starts - {id}, clock)
    {
      assert Section(s.entries[i]) && Rises(s.entries[i], starts);
      var n := NotOfSection(s.entries[i], id);
      assert s'.entries[i] == s.entries[i][..n];
      forall h: nat | At(s', i, h) ensures StampOk(s'.entries[i][h].timestamp, starts - {id}, clock) {
        assert At(s, i, h);
      }
      forall h | 1 <= h < |s'.entries[i]|
        ensures OrderedPair(s'.entries[i][h - 1], s'.entries[i][h], starts - {id})
      {
        assert OrderedPair(s.entries[i][h - 1], s.entries[i][h], starts);
      }
    }
  }

  lemma EraseOthers(s: State, target: Ref, d: Ref)
    requires d != target && d in s.dependents && d in s.dependencies
    ensures d in Erase(s, target).dependents && d in Erase(s, target).dependencies
  {
  }

  /** Taking a version out of its chain and of the dependency maps. */
  lemma UndoListed(t: State, r: Record)
    requires RecordOk(t, r) && Unique(t) && Listed(t)
    requires Undo(t, r).entries == t.entries[r.index := Without(t.entries[r.index], r.height)]
    ensures Listed(Undo(t, r))
  {
    var t', removed := Undo(t, r), t.entries[r.index][r.height];
    UndoDependencies(t, r);
    hide Undo, Erase;
    assert At(t, r.index, r.height);
    forall i, h: nat | At(t', i, h) && h > 0 && !t'.entries[i][h].Deleted()
      ensures t'.entries[i][h].ref in t'.dependents && t'.entries[i][h].ref in t'.dependencies
    {
      var g := if i == r.index && h >= r.height then h + 1 else h;
      assert At(t, i, g) && t.entries[i][g] == t'.entries[i][h];
      EraseOthers(t, removed.ref, t.entries[i][g].ref);
    }
  }

  lemma {:induction false} RollbackListed(s: State, records: seq<Record>)
    requires Intact(s, records) && Homeward(s, records) && Unique(s) && Listed(s)
    ensures Listed(Rollback(s, records))
  {
    if records != [] {
      var rest := records[1..];
      IntactRest(s, records);
      RollbackListed(s, rest);
      HomewardTakesOut(s, rest);
      RollbackUnique(s, rest);
      hide Intact, Unique, Listed, TakenOut, Undo, LeadsHome, Covered, PoppedAll, RecordOk, Without;
      OneMoreTakenOut(s, records, Rollback(s, rest));
      UndoListed(Rollback(s, rest), records[0]);
    }
  }

  lemma AbortOwns(y: System, id: nat)
    requires Owning(y) && Ready(y, Abort(id)) && Homeward(y.catalog, y.undo[id])
    ensures Owning(Next(y, Abort(id)))
  {
    var s, undo, y' := y.catalog, y.undo[id], Next(y, Abort(id));
    assert OwnsAll(y, id);
    OwnedIntact(s, id, undo);
    HomewardTakesOut(s, undo);
    RollbackSound(s, undo);
    RollbackUnique(s, undo);
    RollbackListed(s, undo);
    hide Sound, Unique, Listed, Sectioned, Issued, UndoOk, Intact, Rollback, Homeward, TakenOut, WithoutOwner,
         PoppedAll;
    TakenOutIsWithoutOwner(s, id, undo, y'.catalog);
    TakenOutSectioned(s, id, y'.catalog, y.nextId);
    TakenOutOrdered(s, y.starts, y.clock, id, y'.catalog);
    hide Ordered;
    forall k | k in y'.starts ensures OwnsAll(y', k) {
      assert OwnsAll(y, k);
      TakenOutOwns(s, id, y'.catalog, k, y.undo[k]);
    }
  }

  // ---------- runs ----------

  lemma BeginOrdered(s: State, starts: map<nat, nat>, clock: nat, id: nat)
    requires Ordered(s, starts, clock) && Issued(s, id)
    ensures Ordered(s, starts[id := clock], clock + 1)
  {
    forall i | i in s.entries ensures Rises(s.entries[i], starts[id := clock]) {
      assert Rises(s.entries[i], starts);
      forall h | 1 <= h < |s.entries[i]|
        ensures OrderedPair(s.entries[i][h - 1], s.entries[i][h], starts[id := clock])
      {
        assert OrderedPair(s.entries[i][h - 1], s.entries[i][h], starts) && At(s, i, h);
      }
    }
  }

  lemma BeginOwns(y: System)
    requires Owning(y) && Ready(y, Begin)
    ensures Owning(Next(y, Begin))
  {
    var s, y', id := y.catalog, Next(y, Begin), y.nextId;
    assert Issued(s, y.nextId + 1);
    forall i, h: nat ensures !Owned(s, id, i, h) {
      assert At(s, i, h) ==> s.entries[i][h].timestamp < id;
    }
    assert UndoOk(s, id, []);
    BeginOrdered(s, y.starts, y.clock, id);
    hide Ordered, Sound, Unique, Listed, Sectioned, Issued, UndoOk;
    forall k | k in y'.starts ensures OwnsAll(y', k) {
      assert k != id ==> OwnsAll(y, k);
    }
  }

  /** A run of any steps, renames included, whose rollbacks found their chains. */
  ghost predicate SafeRun(y: System, steps: seq<Step>)
    decreases |steps|
  {
    steps != [] ==>
      && Ready(y, steps[0]) && (steps[0].Perform? ==> OpOk(y.catalog, steps[0].op))
      && (steps[0].Abort? ==> Homeward(y.catalog, y.undo[steps[0].id]))
      && SafeRun(Next(y, steps[0]), steps[1..])
  }

  lemma {:induction false} RunOwns(y: System, steps: seq<Step>)
    requires Owning(y) && SafeRun(y, steps)
    ensures AnyRun(y, steps) && Owning(After(y, steps))
    decreases |steps|
  {
    hide Owning, Homeward, OpOk, Next, Ready;
    if steps != [] {
      match steps[0] {
        case Begin => BeginOwns(y);
        case Perform(id, op) => PerformOwns(y, id, op);
        case Commit(id) => CommitStepOwns(y, id);
        case Abort(id) => AbortOwns(y, id);
      }
      RunOwns(Next(y, steps[0]), steps[1..]);
    }
  }

  lemma PerformOwns(y: System, id: nat, op: Op)
    requires Owning(y) && Ready(y, Perform(id, op)) && OpOk(y.catalog, op)
    ensures Owning(Next(y, Perform(id, op)))
  {
    hide Owning, OpOk, Work;
    WorkOwns(y, id, op);
  }

  /**
   * In every state of such a run rolling a transaction back takes its versions out of every chain and leaves all others
   * where they are if and only if every undo finds its chain.
   */
  lemma SafeRollbackIff(steps: seq<Step>, id: nat)
    requires SafeRun(Initial(), steps)
    ensures AnyRun(Initial(), steps)
    ensures var y := After(Initial(), steps);
      id in y.starts ==>
        id in y.undo &&
        (WithoutOwner(y.catalog, id, Rollback(y.catalog, y.undo[id])) <==> Homeward(y.catalog, y.undo[id]))
  {
    RunOwns(Initial(), steps);
    var y := After(Initial(), steps);
    if id in y.starts {
      assert OwnsAll(y, id);
      hide Sound, Unique, UndoOk, Sectioned, SafeRun, AnyRun, After, Rollback, Homeward, TakenOut, WithoutOwner, Intact;
      OwnedIntact(y.catalog, id, y.undo[id]);
      RollbackTakesOutIff(y.catalog, y.undo[id]);
      TakenOutIsWithoutOwner(y.catalog, id, y.undo[id], Rollback(y.catalog, y.undo[id]));
    }
  }

  /**
   * No lost update in any such run, renames included: a transaction finds a conflict on top of a chain if any version
   * of it is another one's or was committed after the transaction began.
   */
  lemma RunLosesNoUpdate(steps: seq<Step>, id: nat, i: nat, h: nat)
    requires SafeRun(Initial(), steps)
    ensures AnyRun(Initial(), steps)
    ensures var y := After(Initial(), steps);
      id in y.starts && At(y.catalog, i, h) && HasConflict(TxOf(y, id), y.catalog.entries[i][h].timestamp) ==>
        HasConflict(TxOf(y, id), Top(y.catalog.entries[i]).timestamp)
  {
    RunOwns(Initial(), steps);
    var y := After(Initial(), steps);
    if id in y.starts && At(y.catalog, i, h) && HasConflict(TxOf(y, id), y.catalog.entries[i][h].timestamp) {
      assert OwnsAll(y, id) && Rises(y.catalog.entries[i], y.starts);
      hide Sound, UndoOk, Chained, SafeRun, AnyRun, After;
      NoLostUpdate(y.catalog.entries[i], y.starts, TxOf(y, id), h);
    }
  }

  /** Stamps in any such run: commits in order, and on top of them versions of one running transaction. */
  lemma RunInOrder(steps: seq<Step>, i: nat, h: nat, k: nat)
    requires SafeRun(Initial(), steps)
    ensures AnyRun(Initial(), steps)
    ensures var y := After(Initial(), steps);
      h <= k && At(y.catalog, i, k) ==>
        var lower, upper := y.catalog.entries[i][h].timestamp, y.catalog.entries[i][k].timestamp;
        if upper < TRANSACTION_ID_START then lower <= upper
        else upper in y.starts && (lower < TRANSACTION_ID_START || lower == upper)
  {
    RunOwns(Initial(), steps);
    var y := After(Initial(), steps);
    if h <= k && At(y.catalog, i, k) {
      var chain := y.catalog.entries[i];
      assert Rises(chain, y.starts) && StampOk(chain[k].timestamp, y.starts, y.clock);
      hide Sound, UndoOk, Chained, SafeRun, AnyRun, After;
      if chain[k].timestamp < TRANSACTION_ID_START {
        CommitsInOrder(chain, y.starts, h, k);
      } else if chain[h].timestamp >= TRANSACTION_ID_START {
        UncommittedOnTop(chain, y.starts, h, k);
      }
    }
  }

  /** In every state of such a run every live version is registered in both dependency maps. */
  lemma LiveAreListed(steps: seq<Step>)
    requires SafeRun(Initial(), steps)
    ensures AnyRun(Initial(), steps) && Listed(After(Initial(), steps).catalog)
  {
    RunOwns(Initial(), steps);
  }

  // ---------- all runs ----------

  /** The same versions, perhaps with other stamps. */
  ghost predicate SameRefs(s: State, s': State) {
    && s'.entries.Keys == s.entries.Keys && (forall i | i in s.entries :: |s'.entries[i]| == |s.entries[i]|)
    && forall i, h: nat | At(s, i, h) :: s'.entries[i][h].ref == s.entries[i][h].ref
  }

  lemma UpdateRefs(s: State, s1: State, index: nat, height: nat, timestamp: nat)
    requires SameRefs(s, s1) && height < Height(s1, index)
    ensures SameRefs(s, UpdateTimestamp(s1, index, height, timestamp))
  {
    var s2, chain := UpdateTimestamp(s1, index, height, timestamp), s1.entries[index];
    assert s2.entries == s1.entries[index := chain[height := chain[height].(timestamp := timestamp)]];
  }

  lemma {:induction false} CommitRefs(s: State, records: seq<Record>, c: nat)
    ensures SameRefs(s, CommitAll(s, records, c))
  {
    if records != [] {
      var rest, r := records[..|records| - 1], records[|records| - 1];
      CommitRefs(s, rest, c);
      var s1 := CommitAll(s, rest, c);
      hide SameRefs, UpdateTimestamp;
      if RecordOk(s1, r) {
        UpdateRefs(s, s1, r.index, r.height, c);
        UpdateHeight(s1, r.index, r.height, c);
        UpdateRefs(s, UpdateTimestamp(s1, r.index, r.height, c), r.index, r.height - 1, c);
      }
    }
  }

  lemma SameRefsUnique(s: State, s': State)
    requires Unique(s) && SameRefs(s, s')
    ensures Unique(s')
  {
    forall i, h: nat ensures At(s', i, h) <==> At(s, i, h) {
    }
  }

  lemma StartUnique(s: State, name: Name)
    requires Unique(s) && Sound(s)
    ensures Unique(StartChain(s, name))
  {
    var s' := StartChain(s, name);
    AgedEntries(s);
    assert s.currentEntry !in s.entries;
    hide Sound;
    forall i, h: nat | At(s', i, h) ensures (i == s.currentEntry && h == 0) || At(s, i, h) {
    }
  }

  lemma ApplyUnique(s: State, tx: Transaction, op: Op)
    requires Unique(s) && Sound(s)
    ensures Unique(Apply(s, tx, op).state)
  {
    var base, i, v := ApplyWrites(s, tx, op);
    StartObjects(s, op, base);
    AgedEntries(base);
    if op.Create? {
      StartUnique(s, op.name);
    }
    hide Sound, Apply, Unique;
    var result := Apply(s, tx, op);
    if result.pushed == [] {
      SameRefsUnique(base, result.state);
    } else {
      PushesUnique(base, i, v, result.state);
    }
  }

  lemma {:induction false} RunUnique(y: System, steps: seq<Step>)
    requires Unique(y.catalog) && Sound(y.catalog) && AnyRun(y, steps)
    ensures Unique(After(y, steps).catalog)
    decreases |steps|
  {
    hide Unique, Sound, OpOk, Apply, CommitAll, Rollback;
    if steps != [] {
      SoundStep(y, steps[0]);
      match steps[0] {
        case Begin =>
        case Perform(id, op) => ApplyUnique(y.catalog, TxOf(y, id), op);
        case Commit(id) =>
          CommitRefs(y.catalog, y.undo[id], y.clock);
          SameRefsUnique(y.catalog, CommitAll(y.catalog, y.undo[id], y.clock));
        case Abort(id) => RollbackUnique(y.catalog, y.undo[id]);
      }
      RunUnique(Next(y, steps[0]), steps[1..]);
    }
  }

  /**
   * In every state of every run: rolling back a transaction whose records are still of versions, the lower ones of a
   * chain first, takes exactly these versions out of the chains if and only if every undo finds its chain.
   */
  lemma AnyRollbackIff(steps: seq<Step>, id: nat)
    requires AnyRun(Initial(), steps)
    ensures var y := After(Initial(), steps);
      id in y.undo && Intact(y.catalog, y.undo[id]) ==>
        (TakenOut(y.catalog, y.undo[id], Rollback(y.catalog, y.undo[id])) <==> Homeward(y.catalog, y.undo[id]))
  {
    RunSound(Initial(), steps);
    RunUnique(Initial(), steps);
    var y := After(Initial(), steps);
    if id in y.undo && Intact(y.catalog, y.undo[id]) {
      hide Sound, Unique, AnyRun, After, Rollback, Homeward, TakenOut, Intact;
      RollbackTakesOutIff(y.catalog, y.undo[id]);
    }
  }

  // ---------- runs without renames ----------

  lemma InvSectioned(y: System)
    requires Inv(y)
    ensures Sectioned(y.catalog)
  {
    forall i | i in y.catalog.entries ensures Section(y.catalog.entries[i]) {
      var chain := y.catalog.entries[i];
      assert ChainOk(chain, y.starts, y.clock);
      forall h: nat, k: nat | h < k < |chain| && chain[h].timestamp >= TRANSACTION_ID_START
        ensures chain[k].timestamp == chain[h].timestamp
      {
        UncommittedOnTop(chain, y.starts, h, k);
      }
    }
  }

  lemma {:induction false} RollbackKeys(s: State, records: seq<Record>)
    ensures Rollback(s, records).currentEntry == s.currentEntry
  {
    if records != [] {
      RollbackKeys(s, records[1..]);
      var t := Rollback(s, records[1..]);
      if RecordOk(t, records[0]) {
        UndoDependencies(t, records[0]);
      }
    }
  }

  lemma SoundKeys(s: State, s': State)
    requires Sound(s) && Sound(s') && s'.currentEntry == s.currentEntry
    ensures s'.entries.Keys == s.entries.Keys
  {
    assert forall i: nat :: i in s.entries <==> i in s'.entries;
  }

  /** Without renames every undo finds its chain. */
  lemma KeptNamesHomeward(y: System, id: nat)
    requires Inv(y) && Sound(y.catalog) && Unique(y.catalog) && id in y.starts && id in y.undo
    ensures Homeward(y.catalog, y.undo[id])
  {
    var s, undo := y.catalog, y.undo[id];
    var s' := Rollback(s, undo);
    assert RunningOk(y, id);
    InvSectioned(y);
    OwnedIntact(s, id, undo);
    UndoAllIsRollback(y, id);
    RollbackSound(s, undo);
    RollbackKeys(s, undo);
    SoundKeys(s, s');
    hide Inv, Sound, Unique, Sectioned, UndoOk, Intact, Rollback, Homeward, TakenOut;
    forall i | i in s.entries ensures s'.entries[i] == NotOf(s.entries[i], id) {
      RollbackTakesOut(y, id, i);
    }
    TakenOutIsWithoutOwner(s, id, undo, s');
    RollbackTakesOutIff(s, undo);
  }

  lemma {:induction false} ProperIsSafe(y: System, steps: seq<Step>)
    requires Inv(y) && Owning(y) && ProperRun(y, steps)
    ensures SafeRun(y, steps)
    decreases |steps|
  {
    if steps != [] {
      if steps[0].Abort? {
        KeptNamesHomeward(y, steps[0].id);
      }
      StepKeepsInv(y, steps[0]);
      hide Inv, Owning, Homeward, OpOk, Next, Ready, KeepsNames;
      match steps[0] {
        case Begin => BeginOwns(y);
        case Perform(id, op) => PerformOwns(y, id, op);
        case Commit(id) => CommitStepOwns(y, id);
        case Abort(id) => AbortOwns(y, id);
      }
      ProperIsSafe(Next(y, steps[0]), steps[1..]);
    }
  }

  /** In every state of a run without renames the maps are inverse to each other, acyclic, and hold every live entry. */
  lemma MapsHoldLiveEntries(steps: seq<Step>)
    requires ProperRun(Initial(), steps)
    ensures RunSteps(Initial(), steps).Some?
    ensures var s := RunSteps(Initial(), steps).value.catalog; Inverse(s) && Acyclic(s) && Registered(s) && Listed(s)
  {
    MapsAreInverse(steps);
    ProperIsAny(Initial(), steps);
    ProperIsSafe(Initial(), steps);
    LiveAreListed(steps);
  }
}
