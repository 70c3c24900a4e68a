/**
 * What rollback relies on holds in every state that any run reaches, renames included
 * (src/catalog/catalog_set.cpp:18-433; src/transaction/commit_state.cpp:168-183;
 * src/transaction/undo_buffer.cpp:106-136).
 */
module CatalogReach {
  import opened Catalog
  import opened CatalogCascades
  import opened CatalogDependencies
  import opened CatalogInverse
  import opened CatalogRenames
  import opened CatalogRollback
  import opened CatalogRuns
  import opened Common

  // ---------- runs with renames ----------

  lemma PopSound(s: State, n: Name)
    requires Sound(s)
    ensures Sound(PopMapping(s, n))
  {
    var s' := PopMapping(s, n);
    SameFresh(s, s');
    hide Fresh;
    forall k | k in s'.mapping ensures Leading(s'.mapping[k], s'.currentEntry) {
      assert Leading(s.mapping[k], s.currentEntry);
    }
  }

  lemma EraseSound(s: State, target: Ref)
    requires Sound(s)
    ensures Sound(Erase(s, target))
  {
    var s' := Erase(s, target);
    EraseLike(s, s, target);
    EraseCounters(s, target);
    EraseFresh(s, target, s');
    hide Fresh, Erase;
    forall k | k in s'.mapping ensures Leading(s'.mapping[k], s'.currentEntry) {
      assert Leading(s.mapping[k], s.currentEntry);
    }
  }

  lemma EntriesSound(s: State, index: nat, chain: seq<Version>)
    requires Sound(s) && index < s.currentEntry && Aged(chain, s.currentRef)
    ensures Sound(s.(entries := s.entries[index := chain]))
  {
    SameFresh(s, s.(entries := s.entries[index := chain]));
  }

  lemma NewestSound(s: State, n: Name)
    requires Sound(s) && MappingOf(s, n) != []
    ensures Top(MappingOf(s, n)).index < s.currentEntry
  {
    assert Leading(s.mapping[n], s.currentEntry);
  }

  /** The chains an undo leaves, wherever the names lead. */
  lemma UndoneSound(s: State, r: Record, names: seq<MappingValue>)
    requires Sound(s) && RecordOk(s, r) && (names != [] ==> Top(names).index < s.currentEntry)
    ensures var chain := s.entries[r.index];
      && Sound(s.(entries := s.entries[r.index := chain[..r.height] + chain[r.height + 1..]]))
      && (names != [] ==>
            Sound(s.(entries := s.entries[r.index := [chain[r.height]]][Top(names).index := chain[..r.height]])))
  {
    SoundIndex(s, r.index);
    var chain := s.entries[r.index];
    assert Aged(chain, s.currentRef);
    hide Sound;
    EntriesSound(s, r.index, chain[..r.height] + chain[r.height + 1..]);
    if names != [] {
      EntriesSound(s, r.index, [chain[r.height]]);
      var s1 := s.(entries := s.entries[r.index := [chain[r.height]]]);
      EntriesSound(s1, Top(names).index, chain[..r.height]);
      assert s1.(entries := s1.entries[Top(names).index := chain[..r.height]]) ==
             s.(entries := s.entries[r.index := [chain[r.height]]][Top(names).index := chain[..r.height]]);
    }
  }

  /** The states an undo goes through: the new name of a rename is freed, and then the chains are put in place. */
  lemma UndoSteps(s: State, r: Record) returns (freed: State, names: seq<MappingValue>, moved: State)
    requires RecordOk(s, r)
    ensures var entry, removed := s.entries[r.index][r.height - 1], s.entries[r.index][r.height];
      var s1 := if removed.Deleted() then s else Erase(s, removed.ref);
      && (freed == s1 || freed == PopMapping(s1, removed.ref.name)) && freed.entries == s.entries
      && names == MappingOf(freed, entry.ref.name)
      && (Undo(s, r) == moved || Undo(s, r) == PopMapping(moved, entry.ref.name))
    ensures var chain := s.entries[r.index];
      || moved == freed
      || moved == freed.(entries := s.entries[r.index := chain[..r.height] + chain[r.height + 1..]])
      || (names != [] && moved ==
            freed.(entries := s.entries[r.index := [chain[r.height]]][Top(names).index := chain[..r.height]]))
  {
    var chain := s.entries[r.index];
    var entry, removed := chain[r.height - 1], chain[r.height];
    EraseLike(s, s, removed.ref);
    var s1 := if removed.Deleted() then s else Erase(s, removed.ref);
    PopMappingKeeps(s1, removed.ref.name);
    hide Erase, PopMapping;
    freed := if entry.ref.name == removed.ref.name then s1 else PopMapping(s1, removed.ref.name);
    names := MappingOf(freed, entry.ref.name);
    moved :=
      if r.height < |chain| - 1 then freed.(entries := s.entries[r.index := chain[..r.height] + chain[r.height + 1..]])
      else if names == [] then freed
      else freed.(entries := s.entries[r.index := [removed]][Top(names).index := chain[..r.height]]);
  }

  /** Undoing any record, even one that another transaction's rename has led astray. */
  lemma UndoSound(s: State, r: Record)
    requires Sound(s) && RecordOk(s, r)
    ensures Sound(Undo(s, r))
  {
    hide Sound, Erase, PopMapping, Undo;
    var entry, removed := s.entries[r.index][r.height - 1], s.entries[r.index][r.height];
    var freed, names, moved := UndoSteps(s, r);
    EraseSound(s, removed.ref);
    var s1 := if removed.Deleted() then s else Erase(s, removed.ref);
    PopSound(s1, removed.ref.name);
    if names != [] {
      NewestSound(freed, entry.ref.name);
    }
    UndoneSound(freed, r, names);
    PopSound(moved, entry.ref.name);
  }

  lemma {:induction false} RollbackSound(s: State, records: seq<Record>)
    requires Sound(s)
    ensures Sound(Rollback(s, records))
  {
    hide Sound, Undo, RecordOk;
    if records != [] {
      RollbackSound(s, records[1..]);
      var s1 := Rollback(s, records[1..]);
      if RecordOk(s1, records[0]) {
        UndoSound(s1, records[0]);
      }
    }
  }

  lemma UpdateSound(s: State, index: nat, height: nat, timestamp: nat)
    requires Sound(s) && height < Height(s, index)
    ensures Sound(UpdateTimestamp(s, index, height, timestamp))
  {
    var s' := UpdateTimestamp(s, index, height, timestamp);
    SameFresh(s, s');
    hide Fresh;
    forall k | k in s'.mapping ensures Leading(s'.mapping[k], s'.currentEntry) {
      assert k in s.mapping && Leading(s.mapping[k], s.currentEntry);
    }
  }

  lemma UpdateHeight(s: State, index: nat, height: nat, timestamp: nat)
    requires height < Height(s, index)
    ensures Height(UpdateTimestamp(s, index, height, timestamp), index) == Height(s, index)
  {
  }

  lemma {:induction false} CommitSound(s: State, records: seq<Record>, c: nat)
    requires Sound(s)
    ensures Sound(CommitAll(s, records, c))
  {
    hide Sound, UpdateTimestamp;
    if records != [] {
      var rest, r := records[..|records| - 1], records[|records| - 1];
      CommitSound(s, rest, c);
      var s1 := CommitAll(s, rest, c);
      if RecordOk(s1, r) {
        UpdateSound(s1, r.index, r.height, c);
        UpdateHeight(s1, r.index, r.height, c);
        UpdateSound(UpdateTimestamp(s1, r.index, r.height, c), r.index, r.height - 1, c);
      }
    }
  }

  lemma SoundStep(y: System, step: Step)
    requires Sound(y.catalog) && Ready(y, step) && (step.Perform? ==> OpOk(y.catalog, step.op))
    ensures Sound(Next(y, step).catalog)
  {
    hide Sound, Apply, CommitAll, Rollback, OpOk;
    match step
    case Begin =>
    case Perform(id, op) => ApplySound(y.catalog, TxOf(y, id), op);
    case Commit(id) => CommitSound(y.catalog, y.undo[id], y.clock);
    case Abort(id) => RollbackSound(y.catalog, y.undo[id]);
  }

  /** A run of any steps, renames included; new entries depend on registered objects. */
  ghost predicate AnyRun(y: System, steps: seq<Step>)
    decreases |steps|
  {
    steps != [] ==>
      && Ready(y, steps[0]) && (steps[0].Perform? ==> OpOk(y.catalog, steps[0].op))
      && AnyRun(Next(y, steps[0]), steps[1..])
  }

  ghost function After(y: System, steps: seq<Step>): System
    requires AnyRun(y, steps)
    decreases |steps|
  {
    if steps == [] then y else After(Next(y, steps[0]), steps[1..])
  }

  lemma {:induction false} RunSound(y: System, steps: seq<Step>)
    requires Sound(y.catalog) && AnyRun(y, steps)
    ensures Sound(After(y, steps).catalog)
    decreases |steps|
  {
    hide Sound, Next, Ready, OpOk;
    if steps != [] {
      SoundStep(y, steps[0]);
      RunSound(Next(y, steps[0]), steps[1..]);
    }
  }

  /** Runs without renames are runs. */
  lemma {:induction false} ProperIsAny(y: System, steps: seq<Step>)
    requires ProperRun(y, steps)
    ensures AnyRun(y, steps) && RunSteps(y, steps) == Some(After(y, steps))
    decreases |steps|
  {
    hide Next, Ready, KeepsNames, OpOk;
    if steps != [] {
      ProperIsAny(Next(y, steps[0]), steps[1..]);
    }
  }

  lemma ProperSound(steps: seq<Step>)
    requires ProperRun(Initial(), steps)
    ensures RunSteps(Initial(), steps).Some? && Sound(RunSteps(Initial(), steps).value.catalog)
  {
    ProperIsAny(Initial(), steps);
    RunSound(Initial(), steps);
  }

  /**
   * In every state that any run reaches, renames included, rolling back an operation of any transaction restores the
   * state exactly when it did not fail after changing the names and wrote to the chain its newest name leads to.
   */
  lemma ReachedRollbackIff(steps: seq<Step>, tx: Transaction, op: Op)
    requires AnyRun(Initial(), steps) && OpOk(After(Initial(), steps).catalog, op)
    ensures var s := After(Initial(), steps).catalog;
      var result := Apply(s, tx, op);
      Restored(s, Rollback(result.state, result.pushed)) <==> !FailsLate(s, tx, op) && WritesHome(s, tx, op)
  {
    RunSound(Initial(), steps);
    hide Sound, Apply, FailsLate, WritesHome, OpOk, AnyRun, Restored, Rollback;
    RollbackRestoresIff(After(Initial(), steps).catalog, tx, op);
  }

  // ---------- runs without renames ----------

  /** The chain an operation writes to holds nothing but the deleted version it was started with. */
  ghost predicate WritesEmptyChain(s: State, tx: Transaction, op: Op) {
    Target(s, tx, op).Some? && |s.entries[Target(s, tx, op).value]| == 1
  }

  /** A chain that the only value of its name leads to. */
  lemma ChainIsAnchored(s: State, starts: map<nat, nat>, clock: nat, n: Name)
    requires ChainsOk(s, starts, clock) && n in s.mapping
    ensures NameOk(s, n)
    ensures var i := s.mapping[n][0].index;
      && Top(s.entries[i]).ref.name == n && NewestIndex(s, n) == i
      && (Anchored(s, i) <==> |s.entries[i]| > 1) && (!Top(s.entries[i]).Deleted() ==> |s.entries[i]| > 1)
  {
    assert NameOk(s, n);
    assert ChainOk(s.entries[s.mapping[n][0].index], starts, clock);
  }

  /**
   * Without renames a transaction writes to the chain its newest name leads to, unless a failed create left it empty.
   */
  lemma KeptNamesWriteHome(s: State, starts: map<nat, nat>, clock: nat, tx: Transaction, op: Op)
    requires ChainsOk(s, starts, clock) && Registered(s)
    ensures Target(s, tx, op).Some? ==> HasChain(s, Target(s, tx, op).value)
    ensures WritesHome(s, tx, op) <==> !WritesEmptyChain(s, tx, op)
  {
    MappingFound(s, starts, clock, tx, op.name);
    if op.name in s.mapping {
      ChainIsAnchored(s, starts, clock, op.name);
      RegisteredOn(s, Top(s.entries[s.mapping[op.name][0].index]).ref);
    }
    hide ChainsOk, ChainOk, NoLiveDependents, DependenciesLive, NameIsTaken, CanPutMapping, Registered, Anchored,
         Renamed;
  }

  /**
   * In every state that a run without renames reaches, rolling back an operation of any transaction, renames included,
   * restores the state exactly when it did not fail after changing the names and does not write under a name that a
   * failed create left behind.
   */
  lemma KeptNamesRollbackIff(steps: seq<Step>, tx: Transaction, op: Op)
    requires ProperRun(Initial(), steps)
    ensures RunSteps(Initial(), steps).Some?
    ensures var s := RunSteps(Initial(), steps).value.catalog;
      OpOk(s, op) ==>
        var result := Apply(s, tx, op);
        Restored(s, Rollback(result.state, result.pushed)) <==> !FailsLate(s, tx, op) && !WritesEmptyChain(s, tx, op)
  {
    RunRooted(Initial(), steps);
    var y := RunSteps(Initial(), steps).value;
    var s := y.catalog;
    if OpOk(s, op) {
      GroundedIsInverse(s);
      ProperSound(steps);
      hide Inv, Rooted, Registered, Sound, Apply, FailsLate, WritesHome, OpOk, Restored, Rollback, ChainsOk,
           WritesEmptyChain, RunSteps;
      InvChains(y);
      KeptNamesWriteHome(s, y.starts, y.clock, tx, op);
      RollbackRestoresIff(s, tx, op);
    }
  }

  lemma InvChains(y: System)
    requires Inv(y)
    ensures ChainsOk(y.catalog, y.starts, y.clock)
  {
  }

  lemma ChainsIndexed(s: State, starts: map<nat, nat>, clock: nat)
    requires ChainsOk(s, starts, clock)
    ensures Indexed(s)
  {
    forall n | n in s.mapping ensures NamesOk(s, s.mapping[n]) {
      assert NameOk(s, n);
    }
    forall i | i in s.entries ensures s.entries[i] != [] {
      assert ChainOk(s.entries[i], starts, clock);
    }
  }

  // ---------- runs without renames in which no operation fails too late ----------

  /** A stamp that is neither a start of a running transaction nor later than the clock. */
  ghost predicate Apart(timestamp: nat, starts: map<nat, nat>, clock: nat) {
    timestamp < TRANSACTION_ID_START ==> timestamp < clock && forall id | id in starts :: timestamp != starts[id]
  }

  /** Start times and commit stamps come from one counter. */
  ghost predicate Clocked(s: State, starts: map<nat, nat>, clock: nat) {
    && (forall n, x | n in s.mapping && 0 <= x < |s.mapping[n]| :: Apart(s.mapping[n][x].timestamp, starts, clock))
    && (forall i, h | i in s.entries && 0 < h < |s.entries[i]| :: Apart(s.entries[i][h].timestamp, starts, clock))
  }

  /** No name leads to a chain that holds nothing but its deleted version. */
  ghost predicate Tidy(s: State) {
    forall n | n in s.mapping && s.mapping[n] != [] && s.mapping[n][0].index in s.entries ::
      |s.entries[s.mapping[n][0].index]| > 1
  }

  lemma PushKeepsTidy(s: State, tx: Transaction, i: nat, v: Version, s': State, starts: map<nat, nat>, clock: nat)
    requires Tidy(s) && Clocked(s, starts, clock) && PushedOn(s, tx, i, v, s') && tx.id >= TRANSACTION_ID_START
    ensures Tidy(s') && Clocked(s', starts, clock)
  {
    forall k, h | k in s'.entries && 0 < h < |s'.entries[k]| ensures Apart(s'.entries[k][h].timestamp, starts, clock) {
      assert h < |s.entries[k]| ==> s'.entries[k][h] == s.entries[k][h];
    }
  }

  lemma CreateTidy(s: State, starts: map<nat, nat>, clock: nat, tx: Transaction, op: Op)
    requires ChainsOk(s, starts, clock) && op.Create? && KeepsNames(op) && !FailsLate(s, tx, op)
    requires Tidy(s) && Clocked(s, starts, clock) && tx.id >= TRANSACTION_ID_START
    ensures Tidy(Apply(s, tx, op).state) && Clocked(Apply(s, tx, op).state, starts, clock)
  {
    CreateCases(s, starts, clock, tx, op);
    MappingFound(s, starts, clock, tx, op.name);
    if op.name in s.mapping {
      var i := s.mapping[op.name][0].index;
      hide ChainsOk, ChainOk, FinishCreate, Tidy, Clocked;
      if !HasConflict(tx, Top(s.entries[i]).timestamp) && Apply(s, tx, op).state != s {
        var v := FinishCreateEffect(s, tx, op.name, i, op.kind, op.internal, op.on);
        FinishCreateSame(s, tx, op.name, i, op.kind, op.internal, op.on);
        PushKeepsTidy(s, tx, i, v, Apply(s, tx, op).state, starts, clock);
      }
    } else {
      NewTidy(s, starts, clock, tx, op);
    }
  }

  lemma FinishCreateSame(s: State, tx: Transaction, name: Name, i: nat, kind: Kind, internal: bool, on: set<Ref>)
    ensures var result := FinishCreate(s, tx, name, i, kind, internal, on); result.pushed == [] ==> result.state == s
  {
  }

  lemma NewTidy(s: State, starts: map<nat, nat>, clock: nat, tx: Transaction, op: Op)
    requires op.Create? && op.name !in s.mapping && s.currentEntry !in s.entries && !FailsLate(s, tx, op)
    requires Tidy(s) && Clocked(s, starts, clock) && tx.id >= TRANSACTION_ID_START
    requires forall n | n in s.mapping :: NameOk(s, n)
    ensures var s1 := Named(s, tx, op.name);
            var s' := FinishCreate(s1, tx, op.name, s.currentEntry, op.kind, op.internal, op.on).state;
      Tidy(s') && Clocked(s', starts, clock)
  {
    var names, e := Named(s, tx, op.name), s.currentEntry;
    var v := NewVersion(names, tx, op.name, op.kind, op.internal);
    RegisterKeeps(names, v.ref, !op.kind.IndexEntry?, op.on);
    var s' := FinishCreate(names, tx, op.name, e, op.kind, op.internal, op.on).state;
    assert DependenciesLive(names, tx, op.on);
    hide Register, DependenciesLive;
    assert s'.entries == names.entries[e := names.entries[e] + [v]] && s'.mapping == names.mapping;
    forall n, x | n in s'.mapping && 0 <= x < |s'.mapping[n]| ensures Apart(s'.mapping[n][x].timestamp, starts, clock) {
      assert n != op.name ==> s'.mapping[n] == s.mapping[n];
    }
    forall i, h | i in s'.entries && 0 < h < |s'.entries[i]| ensures Apart(s'.entries[i][h].timestamp, starts, clock) {
      assert i != e ==> s'.entries[i] == s.entries[i];
    }
    forall n | n in s'.mapping && s'.mapping[n] != [] && s'.mapping[n][0].index in s'.entries
      ensures |s'.entries[s'.mapping[n][0].index]| > 1
    {
      if n != op.name {
        assert NameOk(s, n) && s.mapping[n][0].index in s.entries;
      }
    }
  }

  lemma ApplyTidy(s: State, starts: map<nat, nat>, clock: nat, tx: Transaction, op: Op)
    requires ChainsOk(s, starts, clock) && KeepsNames(op) && !FailsLate(s, tx, op)
    requires Tidy(s) && Clocked(s, starts, clock) && tx.id >= TRANSACTION_ID_START
    ensures Tidy(Apply(s, tx, op).state) && Clocked(Apply(s, tx, op).state, starts, clock)
  {
    if op.Create? {
      CreateTidy(s, starts, clock, tx, op);
    } else {
      hide ChainsOk, PushedOn, Tidy, Clocked, AlterEntry, DropNamed, FailsLate;
      var result := Apply(s, tx, op);
      var i, v;
      if op.Alter? {
        i, v := AlterEffect(s, starts, clock, tx, op.name, op.newName);
      } else {
        i, v := DropEffect(s, starts, clock, tx, op.name);
      }
      if result.pushed != [] {
        PushKeepsTidy(s, tx, i, v, result.state, starts, clock);
      }
    }
  }

  lemma UndoTidy(s: State, starts: map<nat, nat>, clock: nat, i: nat, s': State)
    requires ChainsOk(s, starts, clock) && Tidy(s) && Clocked(s, starts, clock) && Uncovered(s, i, s')
    ensures Tidy(s') && Clocked(s', starts, clock)
  {
    assert ChainOk(s.entries[i], starts, clock) && Linked(s, i);
    var n0 := s.entries[i][0].ref.name;
    forall n | n in s'.mapping && s'.mapping[n] != [] && s'.mapping[n][0].index in s'.entries
      ensures |s'.entries[s'.mapping[n][0].index]| > 1
    {
      assert NameOk(s, n);
    }
    forall k, h | k in s'.entries && 0 < h < |s'.entries[k]| ensures Apart(s'.entries[k][h].timestamp, starts, clock) {
      assert s'.entries[k][h] == s.entries[k][h];
    }
  }

  lemma {:induction false} UndoAllTidy(y: System, id: nat)
    requires Inv(y) && Tidy(y.catalog) && Clocked(y.catalog, y.starts, y.clock) && id in y.starts && id in y.undo
    ensures Tidy(UndoAll(y, id).catalog) && Clocked(UndoAll(y, id).catalog, y.starts, y.clock)
    decreases |y.undo[id]|
  {
    hide Tidy, Clocked, ChainsOk, UndoLast, Uncovered, RunningOk;
    if y.undo[id] != [] {
      UndoStep(y, id);
      UndoLastKeeps(y, id);
      UndoTidy(y.catalog, y.starts, y.clock, y.undo[id][|y.undo[id]| - 1].index, UndoLast(y, id).catalog);
      UndoAllTidy(UndoLast(y, id), id);
    }
  }

  lemma FewerApart(s: State, starts: map<nat, nat>, clock: nat, starts': map<nat, nat>, clock': nat)
    requires Clocked(s, starts, clock) && clock <= clock'
    requires forall id | id in starts' :: (id in starts && starts'[id] == starts[id]) || starts'[id] >= clock
    ensures Clocked(s, starts', clock')
  {
    forall t | Apart(t, starts, clock) ensures Apart(t, starts', clock') {
    }
  }

  lemma CommitTidy(s: State, starts: map<nat, nat>, clock: nat, id: nat, undo: seq<Record>)
    requires ChainsOk(s, starts, clock) && UndoOk(s, id, undo) && Tidy(s) && Clocked(s, starts, clock)
    requires forall k | k in starts :: starts[k] < clock
    ensures var s' := CommitAll(s, undo, clock); Tidy(s') && Clocked(s', starts - {id}, clock + 1)
  {
    UndoRecordsOk(s, id, undo);
    CommitStamps(s, starts, clock, undo, clock);
    CommitAllNames(s, undo, clock);
    hide ChainsOk, UndoOk, CommitAll;
    StampedTidy(s, starts, clock, id, undo, CommitAll(s, undo, clock));
  }

  lemma StampedTidy(s: State, starts: map<nat, nat>, clock: nat, id: nat, undo: seq<Record>, s': State)
    requires CommitStamped(s, undo, clock, s') && NamesStamped(s, clock, s') && Tidy(s) && Clocked(s, starts, clock)
    requires forall k | k in starts :: starts[k] < clock
    ensures Tidy(s') && Clocked(s', starts - {id}, clock + 1)
  {
    forall t | Apart(t, starts, clock) || t == clock ensures Apart(t, starts - {id}, clock + 1) {
    }
    forall n, x | n in s'.mapping && 0 <= x < |s'.mapping[n]|
      ensures Apart(s'.mapping[n][x].timestamp, starts - {id}, clock + 1)
    {
      assert TopStamped(s.mapping[n], clock, s'.mapping[n]);
      var names, names' := s.mapping[n], s'.mapping[n];
      assert Apart(names[x].timestamp, starts, clock);
    }
    forall i, h | i in s'.entries && 0 < h < |s'.entries[i]|
      ensures Apart(s'.entries[i][h].timestamp, starts - {id}, clock + 1)
    {
      assert ChainStamped(s.entries[i], i, undo, clock, s'.entries[i]);
      assert Apart(s.entries[i][h].timestamp, starts, clock);
    }
    forall n | n in s'.mapping && s'.mapping[n] != [] && s'.mapping[n][0].index in s'.entries
      ensures |s'.entries[s'.mapping[n][0].index]| > 1
    {
      assert NameKept(s, n, s');
      var i := s.mapping[n][0].index;
      assert ChainStamped(s.entries[i], i, undo, clock, s'.entries[i]);
    }
  }

  /** No operation of the run fails after it changed the names. */
  ghost predicate PunctualRun(y: System, steps: seq<Step>)
    decreases |steps|
  {
    steps != [] ==>
      && Enabled(y, steps[0])
      && (steps[0].Perform? ==>
            OpOk(y.catalog, steps[0].op) && !FailsLate(y.catalog, TxOf(y, steps[0].id), steps[0].op))
      && PunctualRun(Next(y, steps[0]), steps[1..])
  }

  ghost predicate TidySystem(y: System) {
    Tidy(y.catalog) && Clocked(y.catalog, y.starts, y.clock)
  }

  lemma InvStarts(y: System)
    requires Inv(y)
    ensures forall id | id in y.starts :: y.starts[id] < y.clock && TRANSACTION_ID_START <= id
  {
    forall id | id in y.starts ensures y.starts[id] < y.clock && TRANSACTION_ID_START <= id {
      assert RunningOk(y, id);
    }
  }

  lemma StepTidy(y: System, step: Step)
    requires Inv(y) && TidySystem(y) && Enabled(y, step)
    requires step.Perform? ==> !FailsLate(y.catalog, TxOf(y, step.id), step.op)
    ensures TidySystem(Next(y, step))
  {
    InvStarts(y);
    InvChains(y);
    hide ChainsOk, Tidy, Clocked, Apply, FailsLate, CommitAll, Rollback;
    match step
    case Begin => FewerApart(y.catalog, y.starts, y.clock, Next(y, step).starts, y.clock + 1);
    case Perform(id, op) => ApplyTidy(y.catalog, y.starts, y.clock, TxOf(y, id), op);
    case Commit(id) =>
      assert RunningOk(y, id);
      CommitTidy(y.catalog, y.starts, y.clock, id, y.undo[id]);
    case Abort(id) =>
      UndoAllTidy(y, id);
      UndoAllIsRollback(y, id);
      FewerApart(UndoAll(y, id).catalog, y.starts, y.clock, y.starts - {id}, y.clock);
  }

  lemma {:induction false} RunTidy(y: System, steps: seq<Step>)
    requires Inv(y) && Rooted(y) && TidySystem(y) && PunctualRun(y, steps)
    ensures RunSteps(y, steps).Some?
    ensures var y' := RunSteps(y, steps).value; Inv(y') && Rooted(y') && TidySystem(y')
    decreases |steps|
  {
    hide Inv, Rooted, TidySystem, Next, Ready, KeepsNames, OpOk, FailsLate;
    if steps != [] {
      StepKeepsInv(y, steps[0]);
      StepRooted(y, steps[0]);
      StepTidy(y, steps[0]);
      RunTidy(Next(y, steps[0]), steps[1..]);
    }
  }

  /** In such a state everything a running transaction may write to is anchored. */
  lemma TidyIsGood(y: System, id: nat)
    requires Inv(y) && Rooted(y) && TidySystem(y) && id in y.starts
    ensures Good(y.catalog, TxOf(y, id))
  {
    var s, tx := y.catalog, TxOf(y, id);
    assert RunningOk(y, id);
    GroundedIsInverse(s);
    ChainsIndexed(s, y.starts, y.clock);
    assert Reaches(s, tx) by {
      TidyReaches(s, y.starts, y.clock, tx);
    }
    assert Stamped(s, tx) by {
      TidyStamped(s, y.starts, y.clock, id);
    }
    hide Grounded, Acyclic, Fresh, Registered, Indexed, Reaches, Stamped, ChainsOk, Tidy, Clocked;
  }

  lemma TidyReaches(s: State, starts: map<nat, nat>, clock: nat, tx: Transaction)
    requires ChainsOk(s, starts, clock) && Tidy(s)
    ensures Reaches(s, tx)
  {
    forall n | n in s.mapping ensures AnchoredAt(s, tx, n) {
      ChainIsAnchored(s, starts, clock, n);
    }
  }

  lemma TidyStamped(s: State, starts: map<nat, nat>, clock: nat, id: nat)
    requires ChainsOk(s, starts, clock) && Clocked(s, starts, clock)
    requires id in starts && starts[id] < clock <= TRANSACTION_ID_START <= id
    ensures Stamped(s, Transaction(id, starts[id]))
  {
    forall n | n in s.mapping && s.mapping[n] != [] ensures Top(s.mapping[n]).timestamp != starts[id] {
      assert Apart(s.mapping[n][|s.mapping[n]| - 1].timestamp, starts, clock);
    }
    forall i | HasChain(s, i) ensures Top(s.entries[i]).timestamp == starts[id] ==> Top(s.entries[i]).Deleted() {
      var h := |s.entries[i]| - 1;
      assert ChainOk(s.entries[i], starts, clock);
      assert h > 0 ==> Apart(s.entries[i][h].timestamp, starts, clock);
    }
  }

  lemma {:induction false} PunctualIsProper(y: System, steps: seq<Step>)
    requires PunctualRun(y, steps)
    ensures ProperRun(y, steps)
    decreases |steps|
  {
    hide Next, Ready, KeepsNames, OpOk, FailsLate;
    if steps != [] {
      PunctualIsProper(Next(y, steps[0]), steps[1..]);
    }
  }

  /**
   * Whatever ran before without renames and late failures: rolling back all that a transaction then does, renames
   * included, restores every name, every chain and both dependency maps, unless one of its operations fails after
   * changing names.
   */
  lemma RunningRollbackRestores(steps: seq<Step>, id: nat, ops: seq<Op>)
    requires PunctualRun(Initial(), steps)
    ensures RunSteps(Initial(), steps).Some?
    ensures var y := RunSteps(Initial(), steps).value;
      id in y.starts && CleanRun(y.catalog, TxOf(y, id), ops) ==>
        Restored(y.catalog, Rollback(Run(y.catalog, TxOf(y, id), ops), UndoBuffer(y.catalog, TxOf(y, id), ops)))
  {
    RunTidy(Initial(), steps);
    PunctualIsProper(Initial(), steps);
    ProperSound(steps);
    var y := RunSteps(Initial(), steps).value;
    if id in y.starts && CleanRun(y.catalog, TxOf(y, id), ops) {
      hide Inv, Rooted, TidySystem, RunSteps, Good, Restored, Rollback, CleanRun, HomeRun, Sound;
      TidyIsGood(y, id);
      GoodRun(y.catalog, TxOf(y, id), ops);
      RollbackRestores(y.catalog, TxOf(y, id), ops);
    }
  }
}
