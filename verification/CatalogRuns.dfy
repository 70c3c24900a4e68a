/**
 * Runs of concurrent transactions over the catalog, without renames: begin, create, alter, drop, commit and rollback in
 * any order (src/catalog/catalog_set.cpp; src/transaction/commit_state.cpp:168-183;
 * src/transaction/transaction_manager.cpp:55-70, 195-240). Every write holds the catalog's write lock, so steps are
 * atomic.
 */
module CatalogRuns {
  import opened Catalog
  import opened CatalogRollback
  import opened Common

  /** Whether a stamp is that of a commit before `clock` or of a running transaction. */
  predicate StampOk(timestamp: nat, starts: map<nat, nat>, clock: nat) {
    if timestamp < TRANSACTION_ID_START then timestamp < clock else timestamp in starts
  }

  /**
   * Stamps going up a chain: commits in order, and on top of them versions of one transaction that began after them.
   */
  predicate OrderedPair(lower: Version, upper: Version, starts: map<nat, nat>) {
    if upper.timestamp < TRANSACTION_ID_START then lower.timestamp <= upper.timestamp
    else
      || lower.timestamp == upper.timestamp
      || (&& lower.timestamp < TRANSACTION_ID_START && upper.timestamp in starts
          && lower.timestamp <= starts[upper.timestamp])
  }

  ghost predicate ChainOk(chain: seq<Version>, starts: map<nat, nat>, clock: nat) {
    && chain != [] && chain[0].kind.Invalid? && chain[0].timestamp == 0
    && (forall h | 1 <= h < |chain| :: !chain[h].kind.Invalid? && StampOk(chain[h].timestamp, starts, clock))
    && (forall h | 1 <= h < |chain| :: OrderedPair(chain[h - 1], chain[h], starts))
    && (forall h | 0 <= h < |chain| :: chain[h].ref.name == chain[0].ref.name)
  }

  /** A name leads to the chain of its versions. */
  ghost predicate NameOk(s: State, n: Name)
    requires n in s.mapping
  {
    && |s.mapping[n]| == 1 && !s.mapping[n][0].deleted
    && HasChain(s, s.mapping[n][0].index) && s.entries[s.mapping[n][0].index][0].ref.name == n
  }

  /** A chain with real versions is reached by its name. */
  ghost predicate Linked(s: State, i: nat)
    requires HasChain(s, i)
  {
    |s.entries[i]| > 1 ==>
      var n := s.entries[i][0].ref.name;
      n in s.mapping && s.mapping[n] != [] && s.mapping[n][0].index == i
  }

  ghost predicate ChainsOk(s: State, starts: map<nat, nat>, clock: nat) {
    && (forall i | i in s.entries :: i < s.currentEntry && ChainOk(s.entries[i], starts, clock) && Linked(s, i))
    && (forall n | n in s.mapping :: NameOk(s, n))
  }

  ghost predicate Owned(s: State, id: nat, i: nat, h: nat) {
    i in s.entries && 0 < h < |s.entries[i]| && s.entries[i][h].timestamp == id
  }

  ghost predicate Rising(undo: seq<Record>) {
    forall x, y | 0 <= x < y < |undo| :: undo[x].index == undo[y].index ==> undo[x].height < undo[y].height
  }

  /** A transaction's undo buffer lists exactly its versions, the lower ones of a chain first. */
  ghost predicate UndoOk(s: State, id: nat, undo: seq<Record>) {
    && (forall x | 0 <= x < |undo| :: Owned(s, id, undo[x].index, undo[x].height))
    && (forall i, h :: Owned(s, id, i, h) ==> Record(i, h) in undo)
    && Rising(undo)
  }

  /** The running transactions, by their start times, and their undo buffers. */
  datatype System = System(catalog: State, clock: nat, nextId: nat, starts: map<nat, nat>, undo: map<nat, seq<Record>>)

  ghost predicate RunningOk(y: System, id: nat)
    requires id in y.starts
  {
    TRANSACTION_ID_START <= id < y.nextId && y.starts[id] < y.clock && id in y.undo && UndoOk(y.catalog, id, y.undo[id])
  }

  /** What holds in every reachable state. */
  ghost predicate Inv(y: System) {
    && y.clock <= TRANSACTION_ID_START <= y.nextId && ChainsOk(y.catalog, y.starts, y.clock)
    && forall id | id in y.starts :: RunningOk(y, id)
  }

  function TxOf(y: System, id: nat): Transaction
    requires id in y.starts
  {
    Transaction(id, y.starts[id])
  }

  /** Without a conflict on a version there is none on the version below it. */
  lemma NoConflictBelow(lower: Version, upper: Version, starts: map<nat, nat>, tx: Transaction)
    requires OrderedPair(lower, upper, starts) && tx.id in starts && starts[tx.id] == tx.start
    requires tx.start < TRANSACTION_ID_START <= tx.id && !HasConflict(tx, upper.timestamp)
    ensures !HasConflict(tx, lower.timestamp)
  {
  }

  /** Stamps are in order all the way up a chain. */
  ghost predicate Rises(chain: seq<Version>, starts: map<nat, nat>) {
    forall h | 1 <= h < |chain| :: OrderedPair(chain[h - 1], chain[h], starts)
  }

  /**
   * No lost update: a writer is refused if any version of the chain is not committed, or was committed after it began.
   */
  lemma {:induction false} NoLostUpdate(chain: seq<Version>, starts: map<nat, nat>, tx: Transaction, h: nat)
    requires Rises(chain, starts) && tx.id in starts && starts[tx.id] == tx.start
    requires tx.start < TRANSACTION_ID_START <= tx.id && h < |chain| && HasConflict(tx, chain[h].timestamp)
    ensures HasConflict(tx, Top(chain).timestamp)
    decreases |chain| - h
  {
    if h + 1 < |chain| {
      var upper := chain[h + 1];
      assert OrderedPair(chain[h], chain[h + 1], starts) by {
        var k := h + 1;
        assert OrderedPair(chain[k - 1], chain[k], starts);
      }
      if !HasConflict(tx, upper.timestamp) {
        NoConflictBelow(chain[h], upper, starts, tx);
      }
      NoLostUpdate(chain, starts, tx, h + 1);
    }
  }

  /** The versions that are not committed are on top and belong to one transaction. */
  lemma {:induction false} UncommittedOnTop(chain: seq<Version>, starts: map<nat, nat>, h: nat, k: nat)
    requires Rises(chain, starts) && h <= k < |chain| && chain[h].timestamp >= TRANSACTION_ID_START
    ensures chain[k].timestamp == chain[h].timestamp
    decreases k - h
  {
    if h < k {
      UncommittedOnTop(chain, starts, h, k - 1);
      assert OrderedPair(chain[k - 1], chain[k], starts);
    }
  }

  /** Committed stamps never increase downwards. */
  lemma {:induction false} CommitsInOrder(chain: seq<Version>, starts: map<nat, nat>, h: nat, k: nat)
    requires Rises(chain, starts) && h <= k < |chain| && chain[k].timestamp < TRANSACTION_ID_START
    ensures chain[h].timestamp <= chain[k].timestamp
    decreases k - h
  {
    if h < k {
      assert OrderedPair(chain[k - 1], chain[k], starts);
      CommitsInOrder(chain, starts, h, k - 1);
    }
  }

  /** The same names and chains; the dependency maps play no part in what transactions see. */
  ghost predicate SameChains(s: State, s': State) {
    s'.mapping == s.mapping && s'.entries == s.entries && s'.currentEntry == s.currentEntry
  }

  /** A name that led nowhere now leads to a new chain with nothing but a deleted version. */
  ghost predicate NewlyNamed(s: State, n: Name, m: MappingValue, dummy: Version, s': State) {
    && n !in s.mapping && s'.currentEntry == s.currentEntry + 1
    && s'.mapping == s.mapping[n := [m]] && s'.entries == s.entries[s.currentEntry := [dummy]]
    && m.index == s.currentEntry && !m.deleted && dummy.kind.Invalid? && dummy.timestamp == 0 && dummy.ref.name == n
  }

  /** A transaction put a version on top of a chain it has no conflict with. */
  ghost predicate PushedOn(s: State, tx: Transaction, i: nat, v: Version, s': State) {
    && HasChain(s, i) && !HasConflict(tx, Top(s.entries[i]).timestamp) && v.timestamp == tx.id && !v.kind.Invalid?
    && v.ref.name == s.entries[i][0].ref.name && s'.mapping == s.mapping && s'.currentEntry == s.currentEntry
    && s.entries[i][0].ref.name in s.mapping && s.mapping[s.entries[i][0].ref.name] != []
    && s.mapping[s.entries[i][0].ref.name][0].index == i
    && s'.entries == s.entries[i := s.entries[i] + [v]]
  }

  /** Operations that keep names: an alteration does not rename. */
  predicate KeepsNames(op: Op) {
    match op
    case Create(_, kind, _, _) => kind.ObjectEntry? || kind.IndexEntry?
    case Alter(name, newName) => newName.None? || newName.value == name
    case Drop(_) => true
  }

  lemma MappingFound(s: State, starts: map<nat, nat>, clock: nat, tx: Transaction, n: Name)
    requires ChainsOk(s, starts, clock)
    ensures n !in s.mapping ==> GetMapping(s, tx, n) == None
    ensures n in s.mapping ==> NameOk(s, n) && GetMapping(s, tx, n) == Some(s.mapping[n][0])
    ensures n in s.mapping ==> ChainOk(s.entries[s.mapping[n][0].index], starts, clock)
  {
    if n in s.mapping {
      assert NameOk(s, n);
    }
  }

  lemma DropEffect(s: State, starts: map<nat, nat>, clock: nat, tx: Transaction, name: Name)
    returns (i: nat, v: Version)
    requires ChainsOk(s, starts, clock)
    ensures var result := DropNamed(s, tx, name);
      if result.pushed == [] then result.state == s
      else PushedOn(s, tx, i, v, result.state) && result.pushed == [Record(i, |s.entries[i]|)]
  {
    MappingFound(s, starts, clock, tx, name);
    i := 0;
    v := NewVersion(s, tx, name, DeletedEntry, false);
    if name in s.mapping {
      i := s.mapping[name][0].index;
    }
  }

  lemma AlterEffect(s: State, starts: map<nat, nat>, clock: nat, tx: Transaction, name: Name, newName: Option<Name>)
    returns (i: nat, v: Version)
    requires ChainsOk(s, starts, clock) && KeepsNames(Alter(name, newName))
    ensures var result := AlterEntry(s, tx, name, newName);
      if result.pushed == [] then result.state == s
      else PushedOn(s, tx, i, v, result.state) && result.pushed == [Record(i, |s.entries[i]|)]
  {
    MappingFound(s, starts, clock, tx, name);
    i := 0;
    v := NewVersion(s, tx, name, DeletedEntry, false);
    if name in s.mapping {
      i := s.mapping[name][0].index;
      var top := Top(s.entries[i]);
      v := NewVersion(s, tx, top.ref.name, top.kind, top.internal);
      RegisterKeeps(s, v.ref, true, Dependencies(s, top.ref));
      hide Register, NoLiveDependents, NameIsTaken;
      assert top.ref.name == name;
    }
  }

  lemma FinishCreateEffect(s: State, tx: Transaction, name: Name, i: nat, kind: Kind, internal: bool, on: set<Ref>)
    returns (v: Version)
    requires HasChain(s, i) && !HasConflict(tx, Top(s.entries[i]).timestamp) && s.entries[i][0].ref.name == name
    requires name in s.mapping && s.mapping[name] != [] && s.mapping[name][0].index == i && !kind.Invalid?
    ensures var result := FinishCreate(s, tx, name, i, kind, internal, on);
      if result.pushed == [] then SameChains(s, result.state)
      else PushedOn(s, tx, i, v, result.state) && result.pushed == [Record(i, |s.entries[i]|)]
  {
    v := NewVersion(s, tx, name, kind, internal);
    RegisterKeeps(s, v.ref, !kind.IndexEntry?, on);
    hide Register, DependenciesLive;
  }

  lemma NamedIsNew(s: State, tx: Transaction, name: Name) returns (m: MappingValue, dummy: Version)
    requires name !in s.mapping
    ensures NewlyNamed(s, name, m, dummy, Named(s, tx, name))
  {
    m := MappingValue(s.currentEntry, tx.id, false);
    dummy := Version(Ref(s.currentRef, name), Invalid, false, 0);
    assert MappingOf(s, name) + [m] == [m];
  }

  /**
   * Creating an entry names a new chain if there is none, and then puts the entry on top unless a dependency is gone.
   */
  lemma CreateEffect(s: State, starts: map<nat, nat>, clock: nat, tx: Transaction, op: Op)
    returns (m: MappingValue, dummy: Version, middle: State, i: nat, v: Version)
    requires ChainsOk(s, starts, clock) && op.Create? && KeepsNames(op)
    ensures middle == s || NewlyNamed(s, op.name, m, dummy, middle)
    ensures var result := Apply(s, tx, op);
      if result.pushed == [] then SameChains(middle, result.state)
      else PushedOn(middle, tx, i, v, result.state) && result.pushed == [Record(i, |middle.entries[i]|)]
  {
    hide FinishCreate, ChainOk, NewlyNamed, PushedOn;
    MappingFound(s, starts, clock, tx, op.name);
    if op.name in s.mapping {
      middle, i := s, s.mapping[op.name][0].index;
      m, dummy, v := s.mapping[op.name][0], s.entries[i][0], s.entries[i][0];
      if !HasConflict(tx, Top(s.entries[i]).timestamp) {
        v := FinishCreateEffect(middle, tx, op.name, i, op.kind, op.internal, op.on);
      }
    } else {
      m, dummy := NamedIsNew(s, tx, op.name);
      middle, i := Named(s, tx, op.name), s.currentEntry;
      assert HasConflict(tx, 0) == false && middle.mapping[op.name] == [MappingValue(i, tx.id, false)];
      v := FinishCreateEffect(middle, tx, op.name, i, op.kind, op.internal, op.on);
    }
  }

  lemma NamedKeepsChains(s: State, starts: map<nat, nat>, clock: nat, n: Name, m: MappingValue, dummy: Version,
                         s': State)
    requires ChainsOk(s, starts, clock) && NewlyNamed(s, n, m, dummy, s')
    ensures ChainsOk(s', starts, clock)
  {
    forall i | i in s'.entries ensures ChainOk(s'.entries[i], starts, clock) && Linked(s', i) {
      if i != s.currentEntry {
        assert ChainOk(s.entries[i], starts, clock) && Linked(s, i);
      }
    }
    forall k | k in s'.mapping ensures NameOk(s', k) {
      if k != n {
        assert NameOk(s, k);
        assert s.mapping[k][0].index < s.currentEntry;
      }
    }
  }

  /** Another chain without versions of any transaction. */
  lemma NamedKeepsUndo(s: State, n: Name, m: MappingValue, dummy: Version, s': State, id: nat, undo: seq<Record>)
    requires NewlyNamed(s, n, m, dummy, s') && UndoOk(s, id, undo) && s.currentEntry !in s.entries
    ensures UndoOk(s', id, undo)
  {
    forall i, h ensures Owned(s', id, i, h) <==> Owned(s, id, i, h) {
    }
  }

  lemma PushKeepsChain(chain: seq<Version>, starts: map<nat, nat>, clock: nat, tx: Transaction, v: Version)
    requires ChainOk(chain, starts, clock) && !HasConflict(tx, Top(chain).timestamp) && v.timestamp == tx.id
    requires !v.kind.Invalid?
    requires tx.id in starts && starts[tx.id] == tx.start && tx.id >= TRANSACTION_ID_START
    requires v.ref.name == chain[0].ref.name
    ensures ChainOk(chain + [v], starts, clock)
  {
    var next := chain + [v];
    assert OrderedPair(Top(chain), v, starts);
    forall h | 1 <= h < |next| ensures OrderedPair(next[h - 1], next[h], starts) {
      if h < |chain| {
        assert OrderedPair(chain[h - 1], chain[h], starts);
      }
    }
  }

  lemma PushKeepsChains(s: State, starts: map<nat, nat>, clock: nat, tx: Transaction, i: nat, v: Version, s': State)
    requires ChainsOk(s, starts, clock) && PushedOn(s, tx, i, v, s')
    requires tx.id in starts && starts[tx.id] == tx.start && tx.id >= TRANSACTION_ID_START
    ensures ChainsOk(s', starts, clock)
  {
    hide HasConflict;
    assert ChainOk(s.entries[i], starts, clock);
    PushKeepsChain(s.entries[i], starts, clock, tx, v);
    forall k | k in s'.entries ensures ChainOk(s'.entries[k], starts, clock) && Linked(s', k) {
      assert ChainOk(s.entries[k], starts, clock) && Linked(s, k);
    }
    forall n | n in s'.mapping ensures NameOk(s', n) {
      assert NameOk(s, n);
    }
  }

  /** The chain of one version more belongs to the transaction that pushed it. */
  lemma PushKeepsUndo(s: State, tx: Transaction, i: nat, v: Version, s': State, id: nat, undo: seq<Record>)
    requires PushedOn(s, tx, i, v, s') && UndoOk(s, id, undo)
    ensures UndoOk(s', id, if id == tx.id then undo + [Record(i, |s.entries[i]|)] else undo)
  {
    var r := Record(i, |s.entries[i]|);
    var after := if id == tx.id then undo + [r] else undo;
    forall k, h ensures Owned(s', id, k, h) <==> Owned(s, id, k, h) || (id == tx.id && Record(k, h) == r) {
    }
    forall x | 0 <= x < |after| ensures Owned(s', id, after[x].index, after[x].height) {
      if x < |undo| {
        assert Owned(s, id, undo[x].index, undo[x].height);
      }
    }
    if id == tx.id {
      forall x | 0 <= x < |undo| && undo[x].index == i ensures undo[x].height < r.height {
        assert Owned(s, id, undo[x].index, undo[x].height);
      }
    }
  }

  /** A transaction does not see what another one put on top of a chain. */
  lemma PushView(s: State, other: Transaction, i: nat, v: Version, s': State, tx: Transaction, n: Name)
    requires PushedOn(s, other, i, v, s') && other.id != tx.id && tx.start <= other.id
    ensures GetEntry(s', tx, n) == GetEntry(s, tx, n)
  {
    assert (s.entries[i] + [v])[..|s.entries[i]|] == s.entries[i];
    assert VisibleVersion(s.entries[i] + [v], tx) == VisibleVersion(s.entries[i], tx);
  }

  lemma NamedView(s: State, starts: map<nat, nat>, clock: nat, name: Name, m: MappingValue, dummy: Version, s': State,
                  tx: Transaction, n: Name)
    requires ChainsOk(s, starts, clock) && NewlyNamed(s, name, m, dummy, s')
    ensures GetEntry(s', tx, n) == GetEntry(s, tx, n)
  {
    MappingFound(s, starts, clock, tx, n);
    if n in s.mapping {
      assert s.mapping[n][0].index != s.currentEntry;
    }
  }

  /** A transaction's operation on the catalog. */
  function Work(y: System, id: nat, op: Op): System
    requires id in y.starts && id in y.undo
  {
    var result := Apply(y.catalog, TxOf(y, id), op);
    y.(catalog := result.state, undo := y.undo[id := y.undo[id] + result.pushed])
  }

  /** The chains, undo buffers and every other transaction's view after a version was pushed. */
  lemma PushStep(y: System, id: nat, i: nat, v: Version, y': System)
    requires Inv(y) && id in y.starts && PushedOn(y.catalog, TxOf(y, id), i, v, y'.catalog)
    requires y' == y.(catalog := y'.catalog, undo := y.undo[id := y.undo[id] + [Record(i, |y.catalog.entries[i]|)]])
    ensures Inv(y')
    ensures forall other, n | other in y.starts && other != id ::
      GetEntry(y'.catalog, TxOf(y, other), n) == GetEntry(y.catalog, TxOf(y, other), n)
  {
    hide PushedOn, UndoOk, ChainsOk, GetEntry;
    assert RunningOk(y, id);
    PushKeepsChains(y.catalog, y.starts, y.clock, TxOf(y, id), i, v, y'.catalog);
    forall k | k in y'.starts ensures RunningOk(y', k) {
      assert RunningOk(y, k);
      PushKeepsUndo(y.catalog, TxOf(y, id), i, v, y'.catalog, k, y.undo[k]);
    }
    forall other, n | other in y.starts && other != id
      ensures GetEntry(y'.catalog, TxOf(y, other), n) == GetEntry(y.catalog, TxOf(y, other), n)
    {
      assert RunningOk(y, other);
      PushView(y.catalog, TxOf(y, id), i, v, y'.catalog, TxOf(y, other), n);
    }
  }

  lemma NameStep(y: System, name: Name, m: MappingValue, dummy: Version, y': System)
    requires Inv(y) && NewlyNamed(y.catalog, name, m, dummy, y'.catalog) && y' == y.(catalog := y'.catalog)
    ensures Inv(y')
    ensures forall other, n | other in y.starts ::
      GetEntry(y'.catalog, TxOf(y, other), n) == GetEntry(y.catalog, TxOf(y, other), n)
  {
    assert y.catalog.currentEntry !in y.catalog.entries;
    hide NewlyNamed, UndoOk, ChainsOk, GetEntry;
    NamedKeepsChains(y.catalog, y.starts, y.clock, name, m, dummy, y'.catalog);
    forall k | k in y'.starts ensures RunningOk(y', k) {
      assert RunningOk(y, k);
      NamedKeepsUndo(y.catalog, name, m, dummy, y'.catalog, k, y.undo[k]);
    }
    forall other, n | other in y.starts
      ensures GetEntry(y'.catalog, TxOf(y, other), n) == GetEntry(y.catalog, TxOf(y, other), n)
    {
      NamedView(y.catalog, y.starts, y.clock, name, m, dummy, y'.catalog, TxOf(y, other), n);
    }
  }

  lemma SameStep(y: System, y': System)
    requires Inv(y) && SameChains(y.catalog, y'.catalog) && y' == y.(catalog := y'.catalog)
    ensures Inv(y')
    ensures forall other, n | other in y.starts ::
      GetEntry(y'.catalog, TxOf(y, other), n) == GetEntry(y.catalog, TxOf(y, other), n)
  {
    forall k | k in y'.starts ensures RunningOk(y', k) {
      assert RunningOk(y, k);
      assert forall i, h :: Owned(y'.catalog, k, i, h) == Owned(y.catalog, k, i, h);
    }
    forall i | i in y'.catalog.entries ensures Linked(y'.catalog, i) {
      assert Linked(y.catalog, i);
    }
    forall n | n in y'.catalog.mapping ensures NameOk(y'.catalog, n) {
      assert NameOk(y.catalog, n);
    }
  }

  /** Every transaction but one reads under every name what it read before. */
  ghost predicate SameViews(y: System, y': System, id: nat) {
    forall other, n | other in y.starts && other != id ::
      GetEntry(y'.catalog, TxOf(y, other), n) == GetEntry(y.catalog, TxOf(y, other), n)
  }

  lemma SameViewsTwice(y0: System, y1: System, y2: System, id: nat)
    requires y1.starts == y0.starts && SameViews(y0, y1, id) && SameViews(y1, y2, id)
    ensures SameViews(y0, y2, id)
  {
    hide GetEntry;
    forall other, n | other in y0.starts && other != id
      ensures GetEntry(y2.catalog, TxOf(y0, other), n) == GetEntry(y0.catalog, TxOf(y0, other), n)
    {
      assert TxOf(y1, other) == TxOf(y0, other);
    }
  }

  lemma CreateStep(y: System, id: nat, op: Op)
    requires Inv(y) && id in y.starts && id in y.undo && op.Create? && KeepsNames(op)
    ensures Inv(Work(y, id, op)) && SameViews(y, Work(y, id, op), id)
  {
    hide Apply, ChainsOk, PushedOn, NewlyNamed, SameChains, GetEntry, RunningOk;
    var y', result := Work(y, id, op), Apply(y.catalog, TxOf(y, id), op);
    var m, dummy, middle, i, v := CreateEffect(y.catalog, y.starts, y.clock, TxOf(y, id), op);
    var y1 := y.(catalog := middle);
    if middle != y.catalog {
      NameStep(y, op.name, m, dummy, y1);
    }
    if result.pushed == [] {
      assert y.undo[id] + [] == y.undo[id];
      assert y' == y1.(catalog := result.state);
      SameStep(y1, y');
    } else {
      PushStep(y1, id, i, v, y');
    }
    SameViewsTwice(y, y1, y', id);
  }

  /** An operation keeps the invariant and what every other transaction sees. */
  lemma WorkStep(y: System, id: nat, op: Op)
    requires Inv(y) && id in y.starts && id in y.undo && KeepsNames(op)
    ensures Inv(Work(y, id, op)) && SameViews(y, Work(y, id, op), id)
  {
    if op.Create? {
      CreateStep(y, id, op);
    } else {
      hide ChainsOk, PushedOn, SameChains, GetEntry, RunningOk, AlterEntry, DropNamed;
      var y', result := Work(y, id, op), Apply(y.catalog, TxOf(y, id), op);
      var i, v;
      if op.Alter? {
        i, v := AlterEffect(y.catalog, y.starts, y.clock, TxOf(y, id), op.name, op.newName);
      } else {
        i, v := DropEffect(y.catalog, y.starts, y.clock, TxOf(y, id), op.name);
      }
      if result.pushed == [] {
        assert y.undo[id] + [] == y.undo[id];
        assert y'.undo == y.undo;
        assert y' == y;
      } else {
        PushStep(y, id, i, v, y');
      }
    }
  }

  /** The version of the last record is on top of its chain. */
  lemma LastIsOnTop(s: State, starts: map<nat, nat>, clock: nat, id: nat, undo: seq<Record>)
    requires ChainsOk(s, starts, clock) && UndoOk(s, id, undo) && undo != [] && id >= TRANSACTION_ID_START
    ensures var r := undo[|undo| - 1]; r.index in s.entries && 0 < r.height == |s.entries[r.index]| - 1
  {
    var r := undo[|undo| - 1];
    assert Owned(s, id, r.index, r.height);
    var chain := s.entries[r.index];
    assert ChainOk(chain, starts, clock);
    if r.height + 1 < |chain| {
      UncommittedOnTop(chain, starts, r.height, r.height + 1);
      assert Owned(s, id, r.index, r.height + 1);
      assert Record(r.index, r.height + 1) in undo;
      var x :| 0 <= x < |undo| && undo[x] == Record(r.index, r.height + 1);
      assert false;
    }
  }

  /** The top version of a chain is gone; a chain left with nothing but its deleted version has lost its name. */
  ghost predicate Uncovered(s: State, i: nat, s': State) {
    && HasChain(s, i) && |s.entries[i]| > 1 && s'.currentEntry == s.currentEntry
    && s'.entries == s.entries[i := s.entries[i][..|s.entries[i]| - 1]]
    && s'.mapping == if |s.entries[i]| == 2 then s.mapping - {s.entries[i][0].ref.name} else s.mapping
  }

  lemma UndoUncovers(s: State, starts: map<nat, nat>, clock: nat, r: Record)
    requires ChainsOk(s, starts, clock) && r.index in s.entries && 0 < r.height == |s.entries[r.index]| - 1
    ensures RecordOk(s, r) && Uncovered(s, r.index, Undo(s, r))
  {
    var chain := s.entries[r.index];
    assert ChainOk(chain, starts, clock) && Linked(s, r.index);
    var n := chain[0].ref.name;
    assert NameOk(s, n);
    EraseLike(s, s, chain[r.height].ref);
    assert Erase(s, chain[r.height].ref).currentEntry == s.currentEntry;
    hide Erase;
  }

  lemma PrefixOk(chain: seq<Version>, starts: map<nat, nat>, clock: nat)
    requires ChainOk(chain, starts, clock) && |chain| > 1
    ensures ChainOk(chain[..|chain| - 1], starts, clock)
  {
    var rest := chain[..|chain| - 1];
    forall h | 1 <= h < |rest| ensures OrderedPair(rest[h - 1], rest[h], starts) {
      assert OrderedPair(chain[h - 1], chain[h], starts);
    }
  }

  lemma UndoKeepsChains(s: State, starts: map<nat, nat>, clock: nat, i: nat, s': State)
    requires ChainsOk(s, starts, clock) && Uncovered(s, i, s')
    ensures ChainsOk(s', starts, clock)
  {
    assert ChainOk(s.entries[i], starts, clock) && Linked(s, i);
    PrefixOk(s.entries[i], starts, clock);
    forall k | k in s'.entries ensures ChainOk(s'.entries[k], starts, clock) && Linked(s', k) {
      assert ChainOk(s.entries[k], starts, clock) && Linked(s, k);
    }
    forall n | n in s'.mapping ensures NameOk(s', n) {
      assert NameOk(s, n);
    }
  }

  lemma UndoKeepsUndo(s: State, i: nat, s': State, owner: nat, id: nat, undo: seq<Record>)
    requires Uncovered(s, i, s') && UndoOk(s, id, undo) && Top(s.entries[i]).timestamp == owner
    requires id == owner ==> undo != [] && undo[|undo| - 1] == Record(i, |s.entries[i]| - 1)
    ensures UndoOk(s', id, if id == owner then undo[..|undo| - 1] else undo)
  {
    var after := if id == owner then undo[..|undo| - 1] else undo;
    var r := Record(i, |s.entries[i]| - 1);
    forall k, h ensures Owned(s', id, k, h) <==> Owned(s, id, k, h) && Record(k, h) != r {
    }
    forall x | 0 <= x < |after| ensures Owned(s', id, after[x].index, after[x].height) {
      assert Owned(s, id, undo[x].index, undo[x].height);
    }
    forall k, h | Owned(s', id, k, h) ensures Record(k, h) in after {
      assert Record(k, h) in undo;
    }
  }

  /** A transaction does not miss a version that another one takes back. */
  lemma UndoView(s: State, starts: map<nat, nat>, clock: nat, i: nat, s': State, tx: Transaction, n: Name)
    requires ChainsOk(s, starts, clock) && Uncovered(s, i, s') && !UseTimestamp(tx, Top(s.entries[i]).timestamp)
    ensures GetEntry(s', tx, n) == GetEntry(s, tx, n)
  {
    MappingFound(s, starts, clock, tx, n);
    if n in s.mapping && s.mapping[n][0].index == i {
      var chain := s.entries[i];
      assert VisibleVersion(chain, tx) == VisibleVersion(chain[..|chain| - 1], tx);
      if |chain| == 2 {
        assert ChainOk(chain, starts, clock);
      }
    } else {
      assert ChainOk(s.entries[i], starts, clock) && Linked(s, i);
    }
  }

  /** Takes back the last version a transaction pushed. */
  function UndoLast(y: System, id: nat): System
    requires id in y.undo && y.undo[id] != []
  {
    var undo := y.undo[id];
    y.(catalog := UndoIfThere(y.catalog, undo[|undo| - 1]), undo := y.undo[id := undo[..|undo| - 1]])
  }

  lemma UndoStep(y: System, id: nat)
    requires Inv(y) && id in y.starts && id in y.undo && y.undo[id] != []
    ensures Inv(UndoLast(y, id)) && SameViews(y, UndoLast(y, id), id)
    ensures var r := y.undo[id][|y.undo[id]| - 1];
      Uncovered(y.catalog, r.index, UndoLast(y, id).catalog) && Top(y.catalog.entries[r.index]).timestamp == id
  {
    var y', r := UndoLast(y, id), y.undo[id][|y.undo[id]| - 1];
    assert RunningOk(y, id);
    LastIsOnTop(y.catalog, y.starts, y.clock, id, y.undo[id]);
    UndoUncovers(y.catalog, y.starts, y.clock, r);
    assert Owned(y.catalog, id, r.index, r.height);
    hide ChainsOk, UndoOk, Undo, GetEntry;
    UndoKeepsChains(y.catalog, y.starts, y.clock, r.index, y'.catalog);
    forall k | k in y'.starts ensures RunningOk(y', k) {
      assert RunningOk(y, k);
      UndoKeepsUndo(y.catalog, r.index, y'.catalog, id, k, y.undo[k]);
    }
    forall other, n | other in y.starts && other != id
      ensures GetEntry(y'.catalog, TxOf(y, other), n) == GetEntry(y.catalog, TxOf(y, other), n)
    {
      assert RunningOk(y, other);
      UndoView(y.catalog, y.starts, y.clock, r.index, y'.catalog, TxOf(y, other), n);
    }
  }

  /** Takes back everything a transaction pushed, the last version first. */
  function UndoAll(y: System, id: nat): System
    requires id in y.undo
    decreases if id in y.undo then |y.undo[id]| else 0
  {
    if y.undo[id] == [] then y else UndoAll(UndoLast(y, id), id)
  }

  lemma {:induction false} UndoAllStep(y: System, id: nat)
    requires Inv(y) && id in y.starts && id in y.undo
    ensures var y' := UndoAll(y, id);
      && Inv(y') && SameViews(y, y', id) && y'.starts == y.starts && y'.clock == y.clock && y'.nextId == y.nextId
      && y'.undo == y.undo[id := []]
    decreases |y.undo[id]|
  {
    hide Inv, UndoLast;
    if y.undo[id] == [] {
      assert y.undo == y.undo[id := []];
    } else {
      UndoStep(y, id);
      UndoLastKeeps(y, id);
      UndoAllStep(UndoLast(y, id), id);
      SameViewsTwice(y, UndoLast(y, id), UndoAll(y, id), id);
    }
  }

  lemma UndoLastKeeps(y: System, id: nat)
    requires id in y.undo && y.undo[id] != []
    ensures var y' := UndoLast(y, id);
      && y'.starts == y.starts && y'.clock == y.clock && y'.nextId == y.nextId
      && id in y'.undo && |y'.undo[id]| < |y.undo[id]| && y'.undo[id := []] == y.undo[id := []]
  {
  }

  /** The versions of a chain that are not a transaction's. */
  function NotOf(chain: seq<Version>, id: nat): seq<Version> {
    if chain == [] then []
    else NotOf(chain[..|chain| - 1], id) + if Top(chain).timestamp == id then [] else [Top(chain)]
  }

  lemma {:induction false} NoneOf(chain: seq<Version>, id: nat)
    requires forall h | 0 <= h < |chain| :: chain[h].timestamp != id
    ensures NotOf(chain, id) == chain
  {
    if chain != [] {
      NoneOf(chain[..|chain| - 1], id);
    }
  }

  /** Rolling a transaction back takes out its versions and no others, whatever the other transactions did meanwhile. */
  lemma {:induction false} RollbackTakesOut(y: System, id: nat, i: nat)
    requires Inv(y) && id in y.starts && id in y.undo && i in y.catalog.entries
    ensures i in UndoAll(y, id).catalog.entries && UndoAll(y, id).catalog.entries[i] == NotOf(y.catalog.entries[i], id)
    decreases |y.undo[id]|
  {
    if y.undo[id] == [] {
      assert RunningOk(y, id) && ChainOk(y.catalog.entries[i], y.starts, y.clock);
      forall h | 0 <= h < |y.catalog.entries[i]| ensures y.catalog.entries[i][h].timestamp != id {
        assert !Owned(y.catalog, id, i, h);
      }
      NoneOf(y.catalog.entries[i], id);
    } else {
      UndoStep(y, id);
      UndoLastKeeps(y, id);
      hide Inv, UndoLast;
      RollbackTakesOut(UndoLast(y, id), id, i);
    }
  }

  lemma {:induction false} RollbackLast(s: State, records: seq<Record>, r: Record)
    ensures Rollback(s, records + [r]) == Rollback(UndoIfThere(s, r), records)
  {
    if records == [] {
      assert records + [r] == [r];
      RollbackOne(s, r);
    } else {
      assert (records + [r])[1..] == records[1..] + [r];
      RollbackLast(s, records[1..], r);
    }
  }

  lemma {:induction false} UndoAllIsRollback(y: System, id: nat)
    requires id in y.undo
    ensures UndoAll(y, id).catalog == Rollback(y.catalog, y.undo[id])
    decreases |y.undo[id]|
  {
    if y.undo[id] != [] {
      var undo := y.undo[id];
      var rest, r := undo[..|undo| - 1], undo[|undo| - 1];
      assert undo == rest + [r];
      RollbackLast(y.catalog, rest, r);
      UndoAllIsRollback(UndoLast(y, id), id);
    }
  }

  /** Stamps the version of a record, and after a rename the one below it as well. */
  function CommitRecord(s: State, r: Record, c: nat): State {
    if !RecordOk(s, r) then s
    else
      var s1 := UpdateTimestamp(s, r.index, r.height, c);
      var chain := s.entries[r.index];
      if chain[r.height - 1].ref.name == chain[r.height].ref.name then s1
      else UpdateTimestamp(s1, r.index, r.height - 1, c)
  }

  function CommitAll(s: State, records: seq<Record>, c: nat): State {
    if records == [] then s
    else CommitRecord(CommitAll(s, records[..|records| - 1], c), records[|records| - 1], c)
  }

  function Stamp(v: Version, done: bool, c: nat): Version {
    if done then v.(timestamp := c) else v
  }

  ghost predicate ChainStamped(chain: seq<Version>, i: nat, done: seq<Record>, c: nat, chain': seq<Version>) {
    |chain'| == |chain| && forall h | 0 <= h < |chain| :: chain'[h] == Stamp(chain[h], Record(i, h) in done, c)
  }

  /** Names lead where they led. */
  ghost predicate NameKept(s: State, n: Name, s': State) {
    && n in s.mapping && n in s'.mapping && |s'.mapping[n]| == |s.mapping[n]| == 1
    && s'.mapping[n][0].index == s.mapping[n][0].index && s'.mapping[n][0].deleted == s.mapping[n][0].deleted
  }

  /** The versions of some records carry a commit stamp, and nothing else is different. */
  ghost predicate CommitStamped(s: State, done: seq<Record>, c: nat, s': State) {
    EntriesStamped(s, done, c, s') && NamesKept(s, s') && s'.currentEntry == s.currentEntry
  }

  ghost predicate EntriesStamped(s: State, done: seq<Record>, c: nat, s': State) {
    && (forall i :: i in s'.entries <==> i in s.entries)
    && (forall i | i in s.entries :: ChainStamped(s.entries[i], i, done, c, s'.entries[i]))
  }

  ghost predicate NamesKept(s: State, s': State) {
    && (forall n :: n in s'.mapping <==> n in s.mapping)
    && (forall n | n in s.mapping :: NameKept(s, n, s'))
  }

  lemma StampMore(chain: seq<Version>, i: nat, done: seq<Record>, c: nat, chain1: seq<Version>, r: Record)
    requires ChainStamped(chain, i, done, c, chain1) && r.height < |chain|
    ensures ChainStamped(chain, i, done + [r], c,
                         if i == r.index then chain1[r.height := chain1[r.height].(timestamp := c)] else chain1)
  {
    var all := done + [r];
    forall h | 0 <= h < |chain| ensures Record(i, h) in all <==> Record(i, h) in done || Record(i, h) == r {
    }
  }

  lemma StampOther(chain: seq<Version>, i: nat, done: seq<Record>, c: nat, chain1: seq<Version>, r: Record)
    requires ChainStamped(chain, i, done, c, chain1) && i != r.index
    ensures ChainStamped(chain, i, done + [r], c, chain1)
  {
    var all := done + [r];
    forall h | 0 <= h < |chain| ensures Record(i, h) in all <==> Record(i, h) in done {
    }
  }

  lemma ChainNames(s: State, starts: map<nat, nat>, clock: nat, i: nat, done: seq<Record>, c: nat, chain1: seq<Version>,
                   h: nat)
    requires ChainsOk(s, starts, clock) && i in s.entries && ChainStamped(s.entries[i], i, done, c, chain1)
    requires h < |chain1|
    ensures s.entries[i] != [] && chain1[h].ref.name == s.entries[i][0].ref.name
  {
    assert ChainOk(s.entries[i], starts, clock);
  }

  lemma CommitIsUpdate(s: State, starts: map<nat, nat>, clock: nat, done: seq<Record>, c: nat, s1: State, r: Record)
    requires ChainsOk(s, starts, clock) && CommitStamped(s, done, c, s1) && RecordOk(s, r)
    ensures RecordOk(s1, r) && CommitRecord(s1, r, c) == UpdateTimestamp(s1, r.index, r.height, c)
  {
    assert ChainStamped(s.entries[r.index], r.index, done, c, s1.entries[r.index]);
    ChainNames(s, starts, clock, r.index, done, c, s1.entries[r.index], r.height - 1);
    ChainNames(s, starts, clock, r.index, done, c, s1.entries[r.index], r.height);
  }

  lemma UpdateKeepsNames(s: State, s1: State, i: nat, h: nat, c: nat)
    requires h < Height(s1, i) && NamesKept(s, s1)
    ensures NamesKept(s, UpdateTimestamp(s1, i, h, c))
  {
    var s2 := UpdateTimestamp(s1, i, h, c);
    forall n | n in s.mapping ensures NameKept(s, n, s2) {
      assert NameKept(s, n, s1);
    }
  }

  lemma UpdateStamps(s: State, done: seq<Record>, c: nat, s1: State, r: Record, s2: State)
    requires EntriesStamped(s, done, c, s1) && RecordOk(s, r) && RecordOk(s1, r)
    requires var chain1 := s1.entries[r.index];
      s2.entries == s1.entries[r.index := chain1[r.height := chain1[r.height].(timestamp := c)]]
    ensures EntriesStamped(s, done + [r], c, s2)
  {
    hide ChainStamped;
    var all := done + [r];
    forall i | i in s.entries ensures ChainStamped(s.entries[i], i, all, c, s2.entries[i]) {
      if i == r.index {
        StampMore(s.entries[i], i, done, c, s1.entries[i], r);
      } else {
        StampOther(s.entries[i], i, done, c, s1.entries[i], r);
      }
    }
  }

  lemma CommitNext(s: State, starts: map<nat, nat>, clock: nat, done: seq<Record>, c: nat, s1: State, r: Record)
    requires ChainsOk(s, starts, clock) && CommitStamped(s, done, c, s1) && RecordOk(s, r)
    ensures CommitStamped(s, done + [r], c, CommitRecord(s1, r, c))
  {
    CommitIsUpdate(s, starts, clock, done, c, s1, r);
    hide ChainsOk, CommitRecord, NamesKept, EntriesStamped;
    UpdateKeepsNames(s, s1, r.index, r.height, c);
    UpdateStamps(s, done, c, s1, r, UpdateTimestamp(s1, r.index, r.height, c));
  }

  lemma NothingStamped(s: State, starts: map<nat, nat>, clock: nat, c: nat)
    requires ChainsOk(s, starts, clock)
    ensures CommitStamped(s, [], c, s)
  {
    forall n | n in s.mapping ensures NameKept(s, n, s) {
      assert NameOk(s, n);
    }
  }

  lemma {:induction false} CommitStamps(s: State, starts: map<nat, nat>, clock: nat, records: seq<Record>, c: nat)
    requires ChainsOk(s, starts, clock) && forall x | 0 <= x < |records| :: RecordOk(s, records[x])
    ensures CommitStamped(s, records, c, CommitAll(s, records, c))
  {
    hide ChainsOk, CommitStamped, CommitRecord;
    if records == [] {
      NothingStamped(s, starts, clock, c);
    } else {
      var rest, r := records[..|records| - 1], records[|records| - 1];
      CommitStamps(s, starts, clock, rest, c);
      CommitNext(s, starts, clock, rest, c, CommitAll(s, rest, c), r);
      assert records == rest + [r];
    }
  }

  /** A chain after a transaction committed: exactly its versions carry the commit stamp. */
  ghost predicate Committed(chain: seq<Version>, id: nat, c: nat, chain': seq<Version>) {
    |chain'| == |chain| && forall h | 0 <= h < |chain| :: chain'[h] == Stamp(chain[h], chain[h].timestamp == id, c)
  }

  lemma StampedIsCommitted(s: State, starts: map<nat, nat>, clock: nat, id: nat, undo: seq<Record>, c: nat, s': State,
                           i: nat)
    requires ChainsOk(s, starts, clock) && UndoOk(s, id, undo) && EntriesStamped(s, undo, c, s') && i in s.entries
    requires id > 0
    ensures i in s'.entries && Committed(s.entries[i], id, c, s'.entries[i])
  {
    assert ChainOk(s.entries[i], starts, clock) && ChainStamped(s.entries[i], i, undo, c, s'.entries[i]);
    forall h | 0 <= h < |s.entries[i]| ensures Record(i, h) in undo <==> s.entries[i][h].timestamp == id {
      if Record(i, h) in undo {
        var x :| 0 <= x < |undo| && undo[x] == Record(i, h);
        assert Owned(s, id, undo[x].index, undo[x].height);
      }
      if s.entries[i][h].timestamp == id {
        assert Owned(s, id, i, h);
      }
    }
  }

  lemma CommitKeepsPair(lower: Version, upper: Version, starts: map<nat, nat>, clock: nat, id: nat)
    requires OrderedPair(lower, upper, starts) && clock < TRANSACTION_ID_START <= id
    requires lower.timestamp < TRANSACTION_ID_START ==> lower.timestamp < clock
    ensures OrderedPair(Stamp(lower, lower.timestamp == id, clock), Stamp(upper, upper.timestamp == id, clock),
                        starts - {id})
  {
  }

  lemma CommitKeepsChain(chain: seq<Version>, starts: map<nat, nat>, clock: nat, id: nat, chain': seq<Version>)
    requires ChainOk(chain, starts, clock) && Committed(chain, id, clock, chain') && clock < TRANSACTION_ID_START <= id
    requires 0 < clock
    ensures ChainOk(chain', starts - {id}, clock + 1) && chain'[0] == chain[0]
  {
    forall h | 1 <= h < |chain'| ensures OrderedPair(chain'[h - 1], chain'[h], starts - {id}) {
      assert OrderedPair(chain[h - 1], chain[h], starts);
      CommitKeepsPair(chain[h - 1], chain[h], starts, clock, id);
    }
    forall h | 1 <= h < |chain'|
      ensures !chain'[h].kind.Invalid? && StampOk(chain'[h].timestamp, starts - {id}, clock + 1)
    {
      assert StampOk(chain[h].timestamp, starts, clock);
    }
  }

  lemma CommitKeepsChains(s: State, starts: map<nat, nat>, clock: nat, id: nat, undo: seq<Record>, s': State)
    requires ChainsOk(s, starts, clock) && UndoOk(s, id, undo) && CommitStamped(s, undo, clock, s')
    requires 0 < clock < TRANSACTION_ID_START <= id
    ensures ChainsOk(s', starts - {id}, clock + 1)
  {
    forall i | i in s'.entries ensures ChainOk(s'.entries[i], starts - {id}, clock + 1) && Linked(s', i) {
      assert ChainOk(s.entries[i], starts, clock) && Linked(s, i);
      StampedIsCommitted(s, starts, clock, id, undo, clock, s', i);
      CommitKeepsChain(s.entries[i], starts, clock, id, s'.entries[i]);
      var n := s.entries[i][0].ref.name;
      assert n in s.mapping ==> NameKept(s, n, s');
    }
    forall n | n in s'.mapping ensures NameOk(s', n) {
      assert NameOk(s, n) && NameKept(s, n, s');
      var i := s.mapping[n][0].index;
      StampedIsCommitted(s, starts, clock, id, undo, clock, s', i);
      CommitKeepsChain(s.entries[i], starts, clock, id, s'.entries[i]);
    }
  }

  lemma CommitKeepsUndo(s: State, starts: map<nat, nat>, clock: nat, id: nat, undo: seq<Record>, s': State, other: nat,
                        undo': seq<Record>)
    requires ChainsOk(s, starts, clock) && UndoOk(s, id, undo) && CommitStamped(s, undo, clock, s')
    requires clock < TRANSACTION_ID_START <= id && other != id && TRANSACTION_ID_START <= other
    requires UndoOk(s, other, undo')
    ensures UndoOk(s', other, undo')
  {
    forall i, h ensures Owned(s', other, i, h) <==> Owned(s, other, i, h) {
      if i in s.entries {
        StampedIsCommitted(s, starts, clock, id, undo, clock, s', i);
      }
    }
  }

  lemma {:induction false} CommitVisible(chain: seq<Version>, id: nat, c: nat, chain': seq<Version>, tx: Transaction)
    requires chain != [] && Committed(chain, id, c, chain') && chain[0].timestamp != id
    requires !UseTimestamp(tx, id) && !UseTimestamp(tx, c)
    ensures VisibleVersion(chain', tx) == VisibleVersion(chain, tx)
  {
    if |chain| > 1 {
      CommitVisible(chain[..|chain| - 1], id, c, chain'[..|chain| - 1], tx);
    }
  }

  /** A transaction does not see what another one commits after it began. */
  lemma CommitView(s: State, starts: map<nat, nat>, clock: nat, id: nat, undo: seq<Record>, s': State, tx: Transaction,
                   n: Name)
    requires ChainsOk(s, starts, clock) && UndoOk(s, id, undo) && CommitStamped(s, undo, clock, s')
    requires clock < TRANSACTION_ID_START <= id && tx.id != id && tx.id >= TRANSACTION_ID_START && tx.start < clock
    requires 0 < clock && ChainsOk(s', starts - {id}, clock + 1)
    ensures GetEntry(s', tx, n) == GetEntry(s, tx, n)
  {
    MappingFound(s, starts, clock, tx, n);
    MappingFound(s', starts - {id}, clock + 1, tx, n);
    if n in s.mapping {
      assert NameKept(s, n, s');
      var i := s.mapping[n][0].index;
      StampedIsCommitted(s, starts, clock, id, undo, clock, s', i);
      assert ChainOk(s.entries[i], starts, clock);
      CommitVisible(s.entries[i], id, clock, s'.entries[i], tx);
      VisibleHasName(s.entries[i], starts, clock, tx);
    }
  }

  lemma {:induction false} VisibleAt(chain: seq<Version>, tx: Transaction) returns (h: nat)
    requires chain != []
    ensures h < |chain| && VisibleVersion(chain, tx) == chain[h]
  {
    if |chain| == 1 || UseTimestamp(tx, Top(chain).timestamp) {
      h := |chain| - 1;
    } else {
      h := VisibleAt(chain[..|chain| - 1], tx);
    }
  }

  lemma VisibleHasName(chain: seq<Version>, starts: map<nat, nat>, clock: nat, tx: Transaction)
    requires ChainOk(chain, starts, clock)
    ensures VisibleVersion(chain, tx).ref.name == chain[0].ref.name
  {
    var h := VisibleAt(chain, tx);
  }

  datatype Step =
    | Begin
    | Perform(id: nat, op: Op)
    | Commit(id: nat)
    | Abort(id: nat)

  /** Transactions begin and commit while there are time stamps left, and only running ones do anything. */
  predicate Ready(y: System, step: Step) {
    match step
    case Begin => y.clock < TRANSACTION_ID_START
    case Perform(id, op) => id in y.starts && id in y.undo
    case Commit(id) => id in y.starts && id in y.undo && y.clock < TRANSACTION_ID_START
    case Abort(id) => id in y.starts && id in y.undo
  }

  /** The steps of a run without renames. */
  predicate Enabled(y: System, step: Step) {
    Ready(y, step) && (step.Perform? ==> KeepsNames(step.op))
  }

  function Finish(y: System, id: nat): System {
    y.(starts := y.starts - {id}, undo := y.undo - {id})
  }

  function Next(y: System, step: Step): System
    requires Ready(y, step)
  {
    match step
    case Begin =>
      y.(clock := y.clock + 1, nextId := y.nextId + 1, starts := y.starts[y.nextId := y.clock],
         undo := y.undo[y.nextId := []])
    case Perform(id, op) => Work(y, id, op)
    case Commit(id) => Finish(y.(catalog := CommitAll(y.catalog, y.undo[id], y.clock), clock := y.clock + 1), id)
    case Abort(id) => Finish(y.(catalog := Rollback(y.catalog, y.undo[id])), id)
  }

  lemma MoreStarts(s: State, starts: map<nat, nat>, clock: nat, id: nat)
    requires ChainsOk(s, starts, clock) && id !in starts
    ensures ChainsOk(s, starts[id := clock], clock + 1)
  {
    forall i | i in s.entries ensures ChainOk(s.entries[i], starts[id := clock], clock + 1) && Linked(s, i) {
      var chain := s.entries[i];
      assert ChainOk(chain, starts, clock) && Linked(s, i);
      forall h | 1 <= h < |chain| ensures OrderedPair(chain[h - 1], chain[h], starts[id := clock]) {
        assert OrderedPair(chain[h - 1], chain[h], starts) && StampOk(chain[h].timestamp, starts, clock);
      }
    }
  }

  lemma NothingOwned(s: State, starts: map<nat, nat>, clock: nat, id: nat)
    requires ChainsOk(s, starts, clock) && id !in starts && id >= TRANSACTION_ID_START
    ensures UndoOk(s, id, [])
  {
    forall i, h ensures !Owned(s, id, i, h) {
      if i in s.entries {
        assert ChainOk(s.entries[i], starts, clock);
      }
    }
  }

  lemma BeginStep(y: System)
    requires Inv(y) && Enabled(y, Begin)
    ensures Inv(Next(y, Begin))
  {
    var y', id := Next(y, Begin), y.nextId;
    assert id !in y.starts;
    MoreStarts(y.catalog, y.starts, y.clock, id);
    NothingOwned(y.catalog, y.starts, y.clock, id);
    hide ChainsOk, UndoOk;
    forall k | k in y'.starts ensures RunningOk(y', k) {
      if k != id {
        assert RunningOk(y, k);
      }
    }
  }

  lemma UndoRecordsOk(s: State, id: nat, undo: seq<Record>)
    requires UndoOk(s, id, undo)
    ensures forall x | 0 <= x < |undo| :: RecordOk(s, undo[x])
  {
    forall x | 0 <= x < |undo| ensures RecordOk(s, undo[x]) {
      assert Owned(s, id, undo[x].index, undo[x].height);
    }
  }

  lemma CommitStep(y: System, id: nat)
    requires Inv(y) && Enabled(y, Commit(id))
    ensures Inv(Next(y, Commit(id))) && SameViews(y, Next(y, Commit(id)), id)
  {
    hide ChainsOk, UndoOk, CommitStamped, GetEntry, CommitAll, RecordOk;
    var y' := Next(y, Commit(id));
    assert RunningOk(y, id);
    UndoRecordsOk(y.catalog, id, y.undo[id]);
    CommitStamps(y.catalog, y.starts, y.clock, y.undo[id], y.clock);
    CommitKeepsChains(y.catalog, y.starts, y.clock, id, y.undo[id], y'.catalog);
    forall k | k in y'.starts ensures RunningOk(y', k) {
      assert RunningOk(y, k);
      CommitKeepsUndo(y.catalog, y.starts, y.clock, id, y.undo[id], y'.catalog, k, y.undo[k]);
    }
    forall other, n | other in y.starts && other != id
      ensures GetEntry(y'.catalog, TxOf(y, other), n) == GetEntry(y.catalog, TxOf(y, other), n)
    {
      assert RunningOk(y, other);
      CommitView(y.catalog, y.starts, y.clock, id, y.undo[id], y'.catalog, TxOf(y, other), n);
    }
  }

  lemma FewerStarts(s: State, starts: map<nat, nat>, clock: nat, id: nat)
    requires ChainsOk(s, starts, clock) && UndoOk(s, id, []) && id >= TRANSACTION_ID_START
    ensures ChainsOk(s, starts - {id}, clock)
  {
    forall i | i in s.entries ensures ChainOk(s.entries[i], starts - {id}, clock) && Linked(s, i) {
      var chain := s.entries[i];
      assert ChainOk(chain, starts, clock) && Linked(s, i);
      forall h | 1 <= h < |chain|
        ensures OrderedPair(chain[h - 1], chain[h], starts - {id}) && StampOk(chain[h].timestamp, starts - {id}, clock)
      {
        assert OrderedPair(chain[h - 1], chain[h], starts) && StampOk(chain[h].timestamp, starts, clock);
        assert !Owned(s, id, i, h);
      }
    }
  }

  lemma AbortStep(y: System, id: nat)
    requires Inv(y) && Enabled(y, Abort(id))
    ensures Inv(Next(y, Abort(id))) && SameViews(y, Next(y, Abort(id)), id)
  {
    var y1, y' := UndoAll(y, id), Next(y, Abort(id));
    UndoAllStep(y, id);
    UndoAllIsRollback(y, id);
    assert RunningOk(y1, id);
    hide ChainsOk, UndoOk, GetEntry, Rollback, UndoAll;
    FewerStarts(y1.catalog, y1.starts, y1.clock, id);
    forall k | k in y'.starts ensures RunningOk(y', k) {
      assert RunningOk(y1, k);
    }
  }

  /** Whose step it is; nobody's when a transaction begins. */
  predicate By(step: Step, id: nat) {
    !step.Begin? && step.id == id
  }

  /** Every step keeps the invariant and what every transaction but the one that makes it sees. */
  lemma StepKeeps(y: System, step: Step, reader: nat, n: Name)
    requires Inv(y) && Enabled(y, step) && reader in y.starts && !By(step, reader)
    ensures Inv(Next(y, step)) && reader in Next(y, step).starts && Next(y, step).starts[reader] == y.starts[reader]
    ensures GetEntry(Next(y, step).catalog, TxOf(y, reader), n) == GetEntry(y.catalog, TxOf(y, reader), n)
  {
    assert RunningOk(y, reader);
    StepKeepsInv(y, step);
    hide Inv, GetEntry, RunningOk, Apply, CommitAll, Rollback;
    match step
    case Begin =>
    case Perform(id, op) => WorkStep(y, id, op);
    case Commit(id) => CommitStep(y, id);
    case Abort(id) => AbortStep(y, id);
  }

  lemma StepKeepsInv(y: System, step: Step)
    requires Inv(y) && Enabled(y, step)
    ensures Inv(Next(y, step))
  {
    hide Inv, Apply, CommitAll, Rollback;
    match step
    case Begin => BeginStep(y);
    case Perform(id, op) => WorkStep(y, id, op);
    case Commit(id) => CommitStep(y, id);
    case Abort(id) => AbortStep(y, id);
  }

  /** The states a run of steps goes through; None if one of them cannot be made. */
  function RunSteps(y: System, steps: seq<Step>): Option<System>
    decreases |steps|
  {
    if steps == [] then Some(y) else if Enabled(y, steps[0]) then RunSteps(Next(y, steps[0]), steps[1..]) else None
  }

  /** A database without entries or transactions. */
  function Initial(): System {
    System(State(map[], map[], 0, 0, map[], map[]), 0, TRANSACTION_ID_START, map[], map[])
  }

  lemma {:induction false} RunKeepsInv(y: System, steps: seq<Step>)
    requires Inv(y) && RunSteps(y, steps).Some?
    ensures Inv(RunSteps(y, steps).value)
    decreases |steps|
  {
    hide Inv, Next, Ready, KeepsNames;
    if steps != [] {
      StepKeepsInv(y, steps[0]);
      RunKeepsInv(Next(y, steps[0]), steps[1..]);
    }
  }

  /** The invariant holds in every reachable state. */
  lemma Reachable(steps: seq<Step>)
    requires RunSteps(Initial(), steps).Some?
    ensures Inv(RunSteps(Initial(), steps).value)
  {
    RunKeepsInv(Initial(), steps);
  }

  /** Snapshot stability: whatever other transactions do, a transaction keeps reading the same version under a name. */
  lemma {:induction false} SnapshotStable(y: System, steps: seq<Step>, reader: nat, n: Name)
    requires Inv(y) && reader in y.starts && RunSteps(y, steps).Some?
    requires forall x | 0 <= x < |steps| :: !By(steps[x], reader)
    ensures var y' := RunSteps(y, steps).value;
      reader in y'.starts && GetEntry(y'.catalog, TxOf(y', reader), n) == GetEntry(y.catalog, TxOf(y, reader), n)
    decreases |steps|
  {
    hide Inv, Next, Ready, KeepsNames, GetEntry;
    if steps != [] {
      StepKeeps(y, steps[0], reader, n);
      SnapshotStable(Next(y, steps[0]), steps[1..], reader, n);
    }
  }
}
