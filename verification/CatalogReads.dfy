/**
 * What transactions read, in every run without renames: their own last write under a name, and otherwise the newest
 * version that was committed before they began (src/catalog/catalog_set.cpp:249-309, 341-378;
 * src/transaction/transaction_manager.cpp:172-224). And when a drop without CASCADE fails in such runs
 * (src/catalog/dependency_manager.cpp:31-62).
 */
module CatalogReads {
  import opened Catalog
  import opened CatalogCascades
  import opened CatalogDependencies
  import opened CatalogEffects
  import opened CatalogRollback
  import opened CatalogRuns
  import opened Common

  // ---------- what is read in a state ----------

  predicate Own(v: Version, tx: Transaction) {
    v.timestamp == tx.id
  }

  predicate CommittedBefore(v: Version, tx: Transaction) {
    v.timestamp < TRANSACTION_ID_START && v.timestamp < tx.start
  }

  /** A version a transaction may read, with none such above it. */
  ghost predicate Latest(chain: seq<Version>, tx: Transaction, h: nat) {
    && h < |chain| && (Own(chain[h], tx) || CommittedBefore(chain[h], tx))
    && forall k | h < k < |chain| :: !Own(chain[k], tx) && !CommittedBefore(chain[k], tx)
  }

  function Shown(v: Version): Option<Version> {
    if v.Deleted() then None else Some(v)
  }

  lemma {:induction false} VisibleIsLatest(chain: seq<Version>, tx: Transaction, h: nat)
    requires Latest(chain, tx, h) && tx.start < TRANSACTION_ID_START
    ensures VisibleVersion(chain, tx) == chain[h]
  {
    if h < |chain| - 1 {
      VisibleIsLatest(chain[..|chain| - 1], tx, h);
    }
  }

  lemma {:induction false} NothingVisible(chain: seq<Version>, tx: Transaction)
    requires chain != [] && tx.start < TRANSACTION_ID_START
    requires forall k | 0 <= k < |chain| :: !Own(chain[k], tx) && !CommittedBefore(chain[k], tx)
    ensures VisibleVersion(chain, tx) == chain[0]
  {
    if |chain| > 1 {
      NothingVisible(chain[..|chain| - 1], tx);
    }
  }

  /** The chain of a name, or nothing. */
  function ChainOf(s: State, n: Name): seq<Version> {
    if n in s.mapping && s.mapping[n] != [] && s.mapping[n][0].index in s.entries then s.entries[s.mapping[n][0].index]
    else []
  }

  lemma ReadIsVisible(y: System, id: nat, n: Name)
    requires Inv(y) && id in y.starts
    ensures var chain := ChainOf(y.catalog, n);
      && (chain == [] ==> GetEntry(y.catalog, TxOf(y, id), n) == None)
      && (chain != [] ==> ChainOk(chain, y.starts, y.clock))
      && (chain != [] ==> GetEntry(y.catalog, TxOf(y, id), n) == Shown(VisibleVersion(chain, TxOf(y, id))))
  {
    MappingFound(y.catalog, y.starts, y.clock, TxOf(y, id), n);
    if n in y.catalog.mapping {
      VisibleHasName(ChainOf(y.catalog, n), y.starts, y.clock, TxOf(y, id));
    }
  }

  /** A transaction reads the latest version that is its own or was committed before it began, unless it is deleted. */
  lemma ReadLaw(y: System, id: nat, n: Name)
    requires Inv(y) && id in y.starts
    ensures var chain, tx := ChainOf(y.catalog, n), TxOf(y, id);
      && (forall h: nat | Latest(chain, tx, h) :: GetEntry(y.catalog, tx, n) == Shown(chain[h]))
      && ((forall h | 0 <= h < |chain| :: !Latest(chain, tx, h)) ==> GetEntry(y.catalog, tx, n) == None)
  {
    ReadIsVisible(y, id, n);
    assert RunningOk(y, id);
    hide Inv, GetEntry;
    var chain, tx := ChainOf(y.catalog, n), TxOf(y, id);
    forall h: nat | Latest(chain, tx, h) ensures GetEntry(y.catalog, tx, n) == Shown(chain[h]) {
      VisibleIsLatest(chain, tx, h);
    }
    if chain != [] && forall h | 0 <= h < |chain| :: !Latest(chain, tx, h) {
      forall k: nat | k < |chain| ensures !Own(chain[k], tx) && !CommittedBefore(chain[k], tx) {
        NoneLatest(chain, tx, k);
      }
      NothingVisible(chain, tx);
    }
  }

  lemma {:induction false} NoneLatest(chain: seq<Version>, tx: Transaction, h: nat)
    requires h < |chain| && forall k | 0 <= k < |chain| :: !Latest(chain, tx, k)
    ensures !Own(chain[h], tx) && !CommittedBefore(chain[h], tx)
    decreases |chain| - h
  {
    if Own(chain[h], tx) || CommittedBefore(chain[h], tx) {
      forall k | h < k < |chain| ensures !Own(chain[k], tx) && !CommittedBefore(chain[k], tx) {
        NoneLatest(chain, tx, k);
      }
      assert Latest(chain, tx, h);
    }
  }

  /** A transaction that has written under a name reads what it wrote last. */
  lemma ReadsOwnWrite(y: System, id: nat, n: Name, h: nat)
    requires Inv(y) && id in y.starts && h < |ChainOf(y.catalog, n)| && Own(ChainOf(y.catalog, n)[h], TxOf(y, id))
    ensures var top := Top(ChainOf(y.catalog, n));
      Own(top, TxOf(y, id)) && GetEntry(y.catalog, TxOf(y, id), n) == Shown(top)
  {
    var chain := ChainOf(y.catalog, n);
    ReadIsVisible(y, id, n);
    assert RunningOk(y, id);
    hide Inv, GetEntry;
    UncommittedOnTop(chain, y.starts, h, |chain| - 1);
  }

  // ---------- what is committed ----------

  /** The newest committed version of a chain. */
  function NewestCommitted(chain: seq<Version>): Option<Version> {
    if chain == [] then None
    else if Top(chain).timestamp < TRANSACTION_ID_START then Shown(Top(chain))
    else NewestCommitted(chain[..|chain| - 1])
  }

  /** What is committed under a name. */
  function Published(s: State, n: Name): Option<Version> {
    NewestCommitted(ChainOf(s, n))
  }

  lemma {:induction false} BeginSees(chain: seq<Version>, tx: Transaction)
    requires chain != [] && chain[0].kind.Invalid? && chain[0].timestamp == 0 && tx.start < TRANSACTION_ID_START
    requires forall h | 0 <= h < |chain| ::
      && chain[h].timestamp != tx.id
      && (chain[h].timestamp < TRANSACTION_ID_START ==> chain[h].timestamp < tx.start || h == 0)
    ensures Shown(VisibleVersion(chain, tx)) == NewestCommitted(chain)
  {
    if |chain| > 1 {
      BeginSees(chain[..|chain| - 1], tx);
    }
  }

  /** A transaction that begins reads what is committed. */
  lemma BeginReads(y: System, n: Name)
    requires Inv(y) && Enabled(y, Begin)
    ensures var y' := Next(y, Begin);
      Inv(y') && y.nextId in y'.starts && GetEntry(y'.catalog, TxOf(y', y.nextId), n) == Published(y.catalog, n)
  {
    var y' := Next(y, Begin);
    BeginStep(y);
    ReadIsVisible(y', y.nextId, n);
    var chain := ChainOf(y.catalog, n);
    if chain != [] {
      ChainOfOk(y, n);
      BeginSees(chain, TxOf(y', y.nextId));
    }
  }

  lemma ChainOfOk(y: System, n: Name)
    requires Inv(y) && ChainOf(y.catalog, n) != []
    ensures ChainOk(ChainOf(y.catalog, n), y.starts, y.clock)
    ensures forall id | id in y.starts :: id < y.nextId
  {
    forall id | id in y.starts ensures id < y.nextId {
      assert RunningOk(y, id);
    }
  }

  /**
   * Over any run: whatever other transactions do after it began, a transaction that writes nothing reads under every
   * name the newest version that was committed before it began.
   */
  lemma RunReads(steps: seq<Step>, more: seq<Step>, n: Name)
    requires RunSteps(Initial(), steps).Some? && Enabled(RunSteps(Initial(), steps).value, Begin)
    requires var y := RunSteps(Initial(), steps).value;
      RunSteps(Next(y, Begin), more).Some? && forall x | 0 <= x < |more| :: !By(more[x], y.nextId)
    ensures var y := RunSteps(Initial(), steps).value;
      var y' := RunSteps(Next(y, Begin), more).value;
      y.nextId in y'.starts && GetEntry(y'.catalog, TxOf(y', y.nextId), n) == Published(y.catalog, n)
  {
    var y := RunSteps(Initial(), steps).value;
    Reachable(steps);
    BeginReads(y, n);
    hide Inv, GetEntry, RunSteps, Next, Published;
    SnapshotStable(Next(y, Begin), more, y.nextId, n);
  }

  // ---------- how it came to be committed ----------

  lemma PushPublishesNothing(s: State, tx: Transaction, i: nat, v: Version, s': State, n: Name)
    requires PushedOn(s, tx, i, v, s') && tx.id >= TRANSACTION_ID_START
    ensures Published(s', n) == Published(s, n)
  {
    var chain, chain' := ChainOf(s, n), ChainOf(s', n);
    if chain' != chain {
      assert chain' == chain + [v] && chain'[..|chain|] == chain;
    }
  }

  /** No operation changes what is committed. */
  lemma WorkPublishesNothing(y: System, id: nat, op: Op, n: Name)
    requires Inv(y) && id in y.starts && id in y.undo && KeepsNames(op)
    ensures Published(Work(y, id, op).catalog, n) == Published(y.catalog, n)
  {
    assert RunningOk(y, id) && y.catalog.currentEntry !in y.catalog.entries;
    hide ChainsOk, PushedOn, SameChains, UndoOk, Apply, AlterEntry, DropNamed, CreateEntry, Published, NewlyNamed;
    var s, tx := y.catalog, TxOf(y, id);
    var result := Apply(s, tx, op);
    match op {
      case Create(_, _, _, _) =>
        var m, dummy, middle, i, v := CreateEffect(s, y.starts, y.clock, tx, op);
        if middle != s {
          NamingPublishesNothing(s, op.name, m, dummy, middle, n);
        }
        if result.pushed == [] {
          SamePublished(middle, result.state, n);
        } else {
          PushPublishesNothing(middle, tx, i, v, result.state, n);
        }
      case Alter(name, newName) =>
        ApplyIs(s, tx, op);
        var i, v := AlterEffect(s, y.starts, y.clock, tx, name, newName);
        if result.pushed != [] {
          PushPublishesNothing(s, tx, i, v, result.state, n);
        }
      case Drop(name) =>
        ApplyIs(s, tx, op);
        var i, v := DropEffect(s, y.starts, y.clock, tx, name);
        if result.pushed != [] {
          PushPublishesNothing(s, tx, i, v, result.state, n);
        }
    }
  }

  lemma ApplyIs(s: State, tx: Transaction, op: Op)
    ensures op.Alter? ==> Apply(s, tx, op) == AlterEntry(s, tx, op.name, op.newName)
    ensures op.Drop? ==> Apply(s, tx, op) == DropNamed(s, tx, op.name)
  {
  }

  lemma SamePublished(s: State, s': State, n: Name)
    requires SameChains(s, s')
    ensures Published(s', n) == Published(s, n)
  {
  }

  lemma NamingPublishesNothing(s: State, name: Name, m: MappingValue, dummy: Version, s': State, n: Name)
    requires NewlyNamed(s, name, m, dummy, s') && s.currentEntry !in s.entries
    ensures Published(s', n) == Published(s, n)
  {
    assert NewestCommitted([dummy]) == None;
  }

  lemma UncoveredPublishesNothing(s: State, starts: map<nat, nat>, clock: nat, i: nat, s': State, n: Name)
    requires ChainsOk(s, starts, clock) && Uncovered(s, i, s') && Top(s.entries[i]).timestamp >= TRANSACTION_ID_START
    ensures Published(s', n) == Published(s, n)
  {
    assert ChainOk(s.entries[i], starts, clock) && Linked(s, i);
    if n in s.mapping {
      assert NameOk(s, n);
      var chain := s.entries[i];
      assert ChainOf(s, n) == s.entries[s.mapping[n][0].index];
      if s.mapping[n][0].index == i && |chain| == 2 {
        assert chain[..1] == [chain[0]] && NewestCommitted([chain[0]]) == None;
      }
    }
  }

  lemma {:induction false} UndoPublishesNothing(y: System, id: nat, n: Name)
    requires Inv(y) && id in y.starts && id in y.undo
    ensures Published(UndoAll(y, id).catalog, n) == Published(y.catalog, n)
    decreases |y.undo[id]|
  {
    if y.undo[id] != [] {
      assert RunningOk(y, id);
      UndoStep(y, id);
      UndoLastKeeps(y, id);
      var i := y.undo[id][|y.undo[id]| - 1].index;
      hide Published;
      UncoveredPublishesNothing(y.catalog, y.starts, y.clock, i, UndoLast(y, id).catalog, n);
      UndoPublishesNothing(UndoLast(y, id), id, n);
    }
  }

  /** Nor does a rollback. */
  lemma AbortPublishesNothing(y: System, id: nat, n: Name)
    requires Inv(y) && Enabled(y, Abort(id))
    ensures Published(Next(y, Abort(id)).catalog, n) == Published(y.catalog, n)
  {
    UndoPublishesNothing(y, id, n);
    UndoAllIsRollback(y, id);
  }

  /** A commit publishes what its transaction reads under the names it has written, and nothing else. */
  lemma CommitPublishes(y: System, id: nat, n: Name)
    requires Inv(y) && Enabled(y, Commit(id))
    ensures var chain, read := ChainOf(y.catalog, n), GetEntry(y.catalog, TxOf(y, id), n);
      Published(Next(y, Commit(id)).catalog, n) ==
      if exists h | 0 <= h < |chain| :: Own(chain[h], TxOf(y, id)) then
        if read.Some? then Some(read.value.(timestamp := y.clock)) else None
      else Published(y.catalog, n)
  {
    var s, tx, c := y.catalog, TxOf(y, id), y.clock;
    var chain, s' := ChainOf(s, n), Next(y, Commit(id)).catalog;
    assert RunningOk(y, id);
    UndoRecordsOk(s, id, y.undo[id]);
    CommitStamps(s, y.starts, y.clock, y.undo[id], c);
    if n in s.mapping {
      assert NameOk(s, n) && NameKept(s, n, s');
      StampedIsCommitted(s, y.starts, y.clock, id, y.undo[id], c, s', s.mapping[n][0].index);
      CommittedChain(y, id, n, chain, ChainOf(s', n));
    } else {
      assert n !in s'.mapping;
    }
  }

  lemma CommittedChain(y: System, id: nat, n: Name, chain: seq<Version>, chain': seq<Version>)
    requires Inv(y) && Enabled(y, Commit(id)) && chain == ChainOf(y.catalog, n) && chain != []
    requires Committed(chain, id, y.clock, chain')
    ensures var read := GetEntry(y.catalog, TxOf(y, id), n);
      NewestCommitted(chain') ==
      if exists h | 0 <= h < |chain| :: Own(chain[h], TxOf(y, id)) then
        if read.Some? then Some(read.value.(timestamp := y.clock)) else None
      else NewestCommitted(chain)
  {
    if h: nat :| h < |chain| && Own(chain[h], TxOf(y, id)) {
      ReadsOwnWrite(y, id, n, h);
    } else {
      assert chain' == chain;
    }
  }

  // ---------- a transaction's own writes over runs ----------

  /** What a successful operation leaves for its transaction to read under the name. */
  ghost predicate ReadsWritten(s: State, tx: Transaction, op: Op, read: Option<Version>) {
    match op
    case Create(name, kind, internal, _) =>
      && read.Some? && read.value.ref.name == name && read.value.kind == kind && read.value.internal == internal
      && read.value.timestamp == tx.id
    case Alter(name, newName) =>
      if newName.None? then read == GetEntry(s, tx, name)
      else
        && read.Some? && Altered(s, tx, name).Some? && read.value.ref.name == newName.value
        && read.value.kind == Altered(s, tx, name).value.kind
        && read.value.internal == Altered(s, tx, name).value.internal && read.value.timestamp == tx.id
    case Drop(_) => read == None
  }

  lemma DropNamedIsRead(s: State, tx: Transaction, name: Name)
    requires DropNamed(s, tx, name).outcome.Success?
    ensures GetEntry(DropNamed(s, tx, name).state, tx, name) == None
  {
  }

  /** A transaction reads what an operation of its own wrote. */
  lemma WriteIsRead(s: State, tx: Transaction, op: Op)
    requires tx.id >= TRANSACTION_ID_START && KeepsNames(op) && Apply(s, tx, op).outcome.Success?
    ensures ReadsWritten(s, tx, op, GetEntry(Apply(s, tx, op).state, tx, op.name))
  {
    hide GetEntry;
    match op
    case Create(_, _, _, _) => CreateIsRead(s, tx, op);
    case Alter(name, newName) =>
      if newName.Some? {
        PlaceIsKept(s, tx, name, newName.value);
        AlterIsRead(s, tx, name, newName.value);
      }
    case Drop(name) => DropNamedIsRead(s, tx, name);
  }

  /** Over any run: after an operation of its own a transaction reads what it wrote, whatever others do. */
  lemma RunReadsOwn(steps: seq<Step>, id: nat, op: Op, more: seq<Step>)
    requires RunSteps(Initial(), steps).Some? && Enabled(RunSteps(Initial(), steps).value, Perform(id, op))
    requires var y := RunSteps(Initial(), steps).value;
      && Apply(y.catalog, TxOf(y, id), op).outcome.Success?
      && RunSteps(Next(y, Perform(id, op)), more).Some? && forall x | 0 <= x < |more| :: !By(more[x], id)
    ensures var y := RunSteps(Initial(), steps).value;
      var y' := RunSteps(Next(y, Perform(id, op)), more).value;
      id in y'.starts && ReadsWritten(y.catalog, TxOf(y, id), op, GetEntry(y'.catalog, TxOf(y', id), op.name))
  {
    var y := RunSteps(Initial(), steps).value;
    Reachable(steps);
    assert RunningOk(y, id);
    WorkStep(y, id, op);
    WriteIsRead(y.catalog, TxOf(y, id), op);
    hide Inv, GetEntry, RunSteps, Apply, ReadsWritten, RunningOk;
    SnapshotStable(Next(y, Perform(id, op)), more, id, op.name);
  }

  // ---------- drops without CASCADE ----------

  /** Whether a dependent takes a cascade shows in its name: indexes have catalog sets of their own. */
  ghost predicate FlagsByName(s: State, indexes: set<nat>) {
    forall o, d | IsDependent(s, o, d) :: s.dependents[o][d] == (d.name.catalogSet !in indexes)
  }

  /** Indexes, and nothing else, are created in their catalog sets, and no index is altered. */
  ghost predicate Orderly(op: Op, indexes: set<nat>) {
    match op
    case Create(name, kind, _, _) => kind.IndexEntry? <==> name.catalogSet in indexes
    case Alter(name, _) => name.catalogSet !in indexes
    case Drop(_) => true
  }

  lemma RegisterFlags(s: State, target: Ref, cascade: bool, on: set<Ref>, s': State, indexes: set<nat>)
    requires FlagsByName(s, indexes) && RegistersIn(s, s', target, cascade, on)
    requires cascade == (target.name.catalogSet !in indexes)
    ensures FlagsByName(s', indexes)
  {
    forall o, d | IsDependent(s', o, d) ensures s'.dependents[o][d] == (d.name.catalogSet !in indexes) {
      assert IsDependent(s, o, d) || d == target;
    }
  }

  lemma ApplyFlags(s: State, tx: Transaction, op: Op, indexes: set<nat>)
    requires FlagsByName(s, indexes) && Orderly(op, indexes) && KeepsNames(op)
    ensures FlagsByName(Apply(s, tx, op).state, indexes)
  {
    var s' := Apply(s, tx, op).state;
    if Apply(s, tx, op).outcome.Success? {
      match op
      case Create(_, _, _, _) =>
        var i, v := CreateTells(s, tx, op);
        hide Apply;
        RegisterFlags(s, v.ref, !op.kind.IndexEntry?, op.on, s', indexes);
      case Alter(name, newName) =>
        if newName.Some? {
          var i, v := AlterTells(s, tx, name, newName.value);
          hide AlterEntry;
          RegisterFlags(s, v.ref, true, Dependencies(s, Altered(s, tx, name).value.ref), s', indexes);
        }
      case Drop(name) =>
    } else {
      FailureKeepsMaps(s, tx, op);
    }
  }

  lemma FailureKeepsMaps(s: State, tx: Transaction, op: Op)
    requires !Apply(s, tx, op).outcome.Success?
    ensures Apply(s, tx, op).state.dependents == s.dependents
  {
    hide Register;
  }

  lemma UndoFlags(s: State, r: Record, indexes: set<nat>)
    requires FlagsByName(s, indexes) && RecordOk(s, r)
    ensures FlagsByName(Undo(s, r), indexes)
  {
    UndoDependencies(s, r);
    hide Undo;
    forall o, d | IsDependent(Undo(s, r), o, d) ensures IsDependent(s, o, d) {
    }
  }

  lemma {:induction false} RollbackFlags(s: State, records: seq<Record>, indexes: set<nat>)
    requires FlagsByName(s, indexes)
    ensures FlagsByName(Rollback(s, records), indexes)
  {
    hide FlagsByName, Undo;
    if records != [] {
      RollbackFlags(s, records[1..], indexes);
      if RecordOk(Rollback(s, records[1..]), records[0]) {
        UndoFlags(Rollback(s, records[1..]), records[0], indexes);
      }
    }
  }

  lemma {:induction false} CommitKeepsMaps(s: State, records: seq<Record>, c: nat)
    ensures CommitAll(s, records, c).dependents == s.dependents
  {
    if records != [] {
      CommitKeepsMaps(s, records[..|records| - 1], c);
    }
  }

  ghost predicate OrderlyRun(steps: seq<Step>, indexes: set<nat>) {
    forall x | 0 <= x < |steps| :: steps[x].Perform? ==> Orderly(steps[x].op, indexes)
  }

  lemma {:induction false} RunFlags(y: System, steps: seq<Step>, indexes: set<nat>)
    requires FlagsByName(y.catalog, indexes) && OrderlyRun(steps, indexes) && RunSteps(y, steps).Some?
    ensures FlagsByName(RunSteps(y, steps).value.catalog, indexes)
    decreases |steps|
  {
    if steps != [] {
      var step, rest := steps[0], steps[1..];
      hide FlagsByName, Apply, CommitAll, Rollback;
      match step {
        case Begin =>
        case Perform(id, op) => ApplyFlags(y.catalog, TxOf(y, id), op, indexes);
        case Commit(id) =>
          CommitKeepsMaps(y.catalog, y.undo[id], y.clock);
          SameFlagsByName(y.catalog, CommitAll(y.catalog, y.undo[id], y.clock), indexes);
        case Abort(id) => RollbackFlags(y.catalog, y.undo[id], indexes);
      }
      assert FlagsByName(Next(y, step).catalog, indexes);
      assert forall x | 0 <= x < |rest| :: rest[x] == steps[x + 1];
      RunFlags(Next(y, step), rest, indexes);
    }
  }

  lemma SameFlagsByName(s: State, s': State, indexes: set<nat>)
    requires FlagsByName(s, indexes) && s'.dependents == s.dependents
    ensures FlagsByName(s', indexes)
  {
    forall o, d | IsDependent(s', o, d) ensures IsDependent(s, o, d) {
    }
  }

  /**
   * In every state of a run without renames that keeps indexes in catalog sets of their own, the edges to an entry
   * agree on whether it takes a cascade. A drop without one then fails exactly if something stops it.
   */
  lemma RunSteady(steps: seq<Step>, indexes: set<nat>, id: nat)
    requires RunSteps(Initial(), steps).Some? && OrderlyRun(steps, indexes)
    ensures var y := RunSteps(Initial(), steps).value; id in y.starts ==> Steady(y.catalog, TxOf(y, id))
  {
    RunFlags(Initial(), steps, indexes);
    Reachable(steps);
    var y := RunSteps(Initial(), steps).value;
    if id in y.starts {
      var s, tx := y.catalog, TxOf(y, id);
      hide RunSteps;
      forall j, o, d, o', d' | LeadsTo(s, tx, o, d, j) && LeadsTo(s, tx, o', d', j)
        ensures s.dependents[o][d] == s.dependents[o'][d']
      {
        MappingFound(s, y.starts, y.clock, tx, d.name);
        MappingFound(s, y.starts, y.clock, tx, d'.name);
      }
    }
  }
}
