/**
 * Rolling back a transaction is the exact inverse of what it did, renames included
 * (src/catalog/catalog_set.cpp:18-188, 386-433; src/transaction/undo_buffer.cpp:106-129).
 */
module CatalogRollback {
  import opened Catalog
  import opened Common

  ghost predicate Older(refs: set<Ref>, n: nat) {
    forall r | r in refs :: r.id < n
  }

  /** Every object registered so far has a smaller identity than the next one. */
  ghost predicate Fresh(s: State) {
    && Older(s.dependents.Keys, s.currentRef) && Older(s.dependencies.Keys, s.currentRef)
    && (forall r | r in s.dependents :: Older(s.dependents[r].Keys, s.currentRef))
    && (forall r | r in s.dependencies :: Older(s.dependencies[r], s.currentRef))
  }

  ghost predicate Registered(s: State) {
    forall r | r in s.dependencies :: s.dependencies[r] <= s.dependents.Keys
  }

  ghost predicate Indexed(s: State) {
    && (forall i | i in s.entries :: i < s.currentEntry && s.entries[i] != [])
    && (forall n | n in s.mapping :: NamesOk(s, s.mapping[n]))
  }

  ghost predicate NamesOk(s: State, names: seq<MappingValue>) {
    names != [] && forall x | 0 <= x < |names| :: names[x].index in s.entries
  }

  /** The newest name of a chain leads back to it. */
  ghost predicate Anchored(s: State, index: nat)
    requires HasChain(s, index)
  {
    var top := Top(s.entries[index]);
    && !top.kind.Invalid? && top.ref.name in s.mapping && s.mapping[top.ref.name] != []
    && Top(s.mapping[top.ref.name]).index == index && !Top(s.mapping[top.ref.name]).deleted
  }

  /** What a transaction reaches by a name and may write to is anchored. */
  ghost predicate AnchoredAt(s: State, tx: Transaction, name: Name) {
    var m := GetMapping(s, tx, name);
    m.Some? && HasChain(s, m.value.index) && !HasConflict(tx, Top(s.entries[m.value.index]).timestamp) ==>
      && (!m.value.deleted ==> Top(s.entries[m.value.index]).ref.name == name && Anchored(s, m.value.index))
      && (!Top(s.entries[m.value.index]).Deleted() ==> Anchored(s, m.value.index))
  }

  ghost predicate Reaches(s: State, tx: Transaction) {
    forall n | n in s.mapping :: AnchoredAt(s, tx, n)
  }

  /** Start times and commit stamps come from one counter, so none is the same as another. */
  ghost predicate Stamped(s: State, tx: Transaction) {
    && tx.start < TRANSACTION_ID_START <= tx.id
    && (forall n | n in s.mapping && s.mapping[n] != [] :: Top(s.mapping[n]).timestamp != tx.start)
    && (forall i | HasChain(s, i) :: Top(s.entries[i]).timestamp == tx.start ==> Top(s.entries[i]).Deleted())
  }

  ghost predicate Good(s: State, tx: Transaction) {
    Fresh(s) && Registered(s) && Indexed(s) && Reaches(s, tx) && Stamped(s, tx)
  }

  ghost predicate Leading(names: seq<MappingValue>, count: nat) {
    names != [] && forall x | 0 <= x < |names| :: names[x].index < count
  }

  ghost predicate Aged(chain: seq<Version>, n: nat) {
    chain != [] && forall h | 0 <= h < |chain| :: chain[h].ref.id < n
  }

  /**
   * What holds in every state of every run: there are the chains given out so far, names lead to them, and versions and
   * objects are older than the next.
   */
  ghost predicate Sound(s: State) {
    && Fresh(s) && (forall i: nat :: i in s.entries <==> i < s.currentEntry)
    && (forall i | i in s.entries :: Aged(s.entries[i], s.currentRef))
    && (forall n | n in s.mapping :: Leading(s.mapping[n], s.currentEntry))
  }

  /** The same names, chains and dependencies, up to chains no name ever led to. */
  ghost predicate Restored(s: State, s': State) {
    && s'.mapping == s.mapping && s'.dependents == s.dependents && s'.dependencies == s.dependencies
    && forall i | i in s.entries :: i in s'.entries && s'.entries[i] == s.entries[i]
  }

  lemma EraseDependents(s: State, target: Ref, cascade: bool, on: set<Ref>)
    requires target !in s.dependents && on <= s.dependents.Keys
    requires forall r | r in s.dependents :: target !in s.dependents[r]
    ensures Erase(Register(s, target, cascade, on), target).dependents == s.dependents
  {
    var s1 := Register(s, target, cascade, on);
    var s2 := Erase(s1, target);
    assert Dependencies(s1, target) == on;
    assert s2.dependents.Keys == s.dependents.Keys;
    forall r | r in s.dependents ensures s2.dependents[r] == s.dependents[r] {
      if r in on {
        assert s1.dependents[r] == s.dependents[r][target := cascade];
        assert s.dependents[r][target := cascade] - {target} == s.dependents[r];
      } else {
        assert s1.dependents[r] == s.dependents[r];
      }
    }
  }

  /** Erasing an object undoes registering it. */
  lemma EraseRegister(s: State, target: Ref, cascade: bool, on: set<Ref>)
    requires target !in s.dependents && target !in s.dependencies && on <= s.dependents.Keys
    requires forall r | r in s.dependents :: target !in s.dependents[r]
    ensures var s' := Erase(Register(s, target, cascade, on), target);
      s'.dependents == s.dependents && s'.dependencies == s.dependencies
  {
    EraseDependents(s, target, cascade, on);
  }

  lemma FreshRefUnknown(s: State, target: Ref)
    requires Fresh(s) && target.id >= s.currentRef
    ensures target !in s.dependents && target !in s.dependencies
    ensures forall r | r in s.dependents :: target !in s.dependents[r]
  {
  }

  /** Erasing looks at the dependency maps and changes nothing else. */
  lemma EraseLike(s: State, s': State, target: Ref)
    requires s'.dependents == s.dependents && s'.dependencies == s.dependencies
    ensures Erase(s', target).dependents == Erase(s, target).dependents
    ensures Erase(s', target).dependencies == Erase(s, target).dependencies
    ensures Erase(s', target).mapping == s'.mapping && Erase(s', target).entries == s'.entries
  {
  }

  /** What undoing a version does to the dependency maps and the counters, wherever its name leads. */
  lemma UndoDependencies(s: State, r: Record)
    requires RecordOk(s, r)
    ensures var s', removed := Undo(s, r), s.entries[r.index][r.height];
      var s1 := if removed.Deleted() then s else Erase(s, removed.ref);
      && s'.dependents == s1.dependents && s'.dependencies == s1.dependencies
      && s'.currentRef == s.currentRef && s'.currentEntry == s.currentEntry
  {
    EraseLike(s, s, s.entries[r.index][r.height].ref);
    EraseCounters(s, s.entries[r.index][r.height].ref);
    hide Erase, PopMapping;
    var chain := s.entries[r.index];
    var entry, removed := chain[r.height - 1], chain[r.height];
    var s1 := if removed.Deleted() then s else Erase(s, removed.ref);
    PopMappingKeeps(s1, removed.ref.name);
    var s2 := if entry.ref.name == removed.ref.name then s1 else PopMapping(s1, removed.ref.name);
    var names := MappingOf(s2, entry.ref.name);
    var s3 :=
      if r.height < |chain| - 1 then s2.(entries := s2.entries[r.index := chain[..r.height] + chain[r.height + 1..]])
      else if names == [] then s2
      else s2.(entries := s2.entries[r.index := [removed]][Top(names).index := chain[..r.height]]);
    PopMappingKeeps(s3, entry.ref.name);
  }

  lemma EraseCounters(s: State, target: Ref)
    ensures Erase(s, target).currentRef == s.currentRef && Erase(s, target).currentEntry == s.currentEntry
  {
  }

  lemma PopMappingKeeps(s: State, name: Name)
    ensures var s' := PopMapping(s, name);
      && s'.dependents == s.dependents && s'.dependencies == s.dependencies && s'.entries == s.entries
      && s'.currentRef == s.currentRef && s'.currentEntry == s.currentEntry
  {
  }

  /** Another version on top of a chain, and nothing else in the chains or their names. */
  ghost predicate OnTop(s: State, index: nat, v: Version, s1: State) {
    && HasChain(s, index) && index in s1.entries && s1.entries[index] == s.entries[index] + [v]
    && s.entries[index] != [v]
    && forall i | i in s.entries && i != index :: i in s1.entries && s1.entries[i] == s.entries[i]
  }

  /** The dependency maps are back where they were once a version is erased from them. */
  ghost predicate ErasedAgain(s: State, v: Version, s1: State) {
    var s3 := if v.Deleted() then s1 else Erase(s1, v.ref);
    s3.dependents == s.dependents && s3.dependencies == s.dependencies
  }

  /**
   * A pushed version that kept the name of the one below it: undoing it uncovers that one if and only if the newest
   * value of the name leads to the chain and is not deleted.
   */
  lemma UndoSameName(s: State, s1: State, s2: State, index: nat, v: Version)
    requires OnTop(s, index, v, s1) && Restored(s1, s2) && ErasedAgain(s, v, s1)
    requires s1.mapping == s.mapping && v.ref.name == Top(s.entries[index]).ref.name
    requires v.ref.name in s.mapping ==> s.mapping[v.ref.name] != []
    ensures RecordOk(s2, Record(index, |s.entries[index]|))
    ensures Restored(s, Undo(s2, Record(index, |s.entries[index]|))) <==> Anchored(s, index)
  {
    hide Erase, PopMapping;
    EraseLike(s1, s2, v.ref);
    var r, n := Record(index, |s.entries[index]|), v.ref.name;
    var chain := s2.entries[index];
    assert chain[..r.height] == s.entries[index];
    var s3 := if v.Deleted() then s2 else Erase(s2, v.ref);
    var names := MappingOf(s3, n);
    if names == [] {
      assert Undo(s2, r) == s3;
    } else {
      var s4 := s3.(entries := s3.entries[index := [v]][Top(names).index := s.entries[index]]);
      assert Undo(s2, r) == if Top(names).deleted || Top(s.entries[index]).kind.Invalid? then PopMapping(s4, n) else s4;
      PopMappingKeeps(s4, n);
      PopShortens(s4, n);
    }
  }

  lemma PopShortens(s: State, n: Name)
    requires n in s.mapping && s.mapping[n] != []
    ensures MappingOf(PopMapping(s, n), n) != s.mapping[n]
    ensures forall k | k != n :: MappingOf(PopMapping(s, n), k) == MappingOf(s, k)
  {
  }

  /**
   * A pushed version under another name than its chain: undoing it takes a value of that name that was there before.
   */
  lemma UndoOtherName(s: State, s1: State, s2: State, index: nat, v: Version)
    requires OnTop(s, index, v, s1) && Restored(s1, s2) && s1.mapping == s.mapping
    requires v.ref.name != Top(s.entries[index]).ref.name && v.ref.name in s.mapping && s.mapping[v.ref.name] != []
    ensures RecordOk(s2, Record(index, |s.entries[index]|))
    ensures !Restored(s, Undo(s2, Record(index, |s.entries[index]|)))
  {
    hide Erase, PopMapping;
    EraseLike(s2, s2, v.ref);
    var r, a, b := Record(index, |s.entries[index]|), Top(s.entries[index]).ref.name, v.ref.name;
    var s3 := if v.Deleted() then s2 else Erase(s2, v.ref);
    var s4 := PopMapping(s3, b);
    PopShortens(s3, b);
    var s5, s' := s4, Undo(s2, r);
    if MappingOf(s4, a) != [] {
      s5 := s4.(entries := s4.entries[index := [v]][Top(MappingOf(s4, a)).index := s2.entries[index][..r.height]]);
    }
    assert MappingOf(s5, b) == MappingOf(s4, b);
    if a in s5.mapping && s5.mapping[a] != [] {
      PopShortens(s5, a);
    }
    assert s' == s5 || s' == PopMapping(s5, a);
    assert MappingOf(s', b) != s.mapping[b];
  }

  /** A created entry on a new chain: undoing it leaves the chain without a name. */
  lemma UndoFirst(s: State, s1: State, s2: State, index: nat, dummy: Version, v: Version, m: MappingValue)
    requires index !in s.entries && index in s1.entries && s1.entries[index] == [dummy, v] && Restored(s1, s2)
    requires forall i | i in s.entries :: i in s1.entries && s1.entries[i] == s.entries[i]
    requires dummy.kind.Invalid? && v.ref.name == dummy.ref.name && m.index == index && !v.Deleted()
    requires s1.mapping == s.mapping[dummy.ref.name := MappingOf(s, dummy.ref.name) + [m]] && ErasedAgain(s, v, s1)
    requires v.ref.name in s.mapping ==> s.mapping[v.ref.name] != []
    ensures RecordOk(s2, Record(index, 1)) && Restored(s, Undo(s2, Record(index, 1)))
  {
    hide Erase, PopMapping;
    EraseLike(s1, s2, v.ref);
    var r, n := Record(index, 1), dummy.ref.name;
    var s3 := Erase(s2, v.ref);
    var s4 := s3.(entries := s3.entries[index := [v]][index := s2.entries[index][..1]]);
    assert Undo(s2, r) == PopMapping(s4, n);
    PopPushed(s, s4, n, m);
  }

  lemma PopPushed(s: State, s': State, name: Name, m: MappingValue)
    requires s'.mapping == s.mapping[name := MappingOf(s, name) + [m]] && (name in s.mapping ==> s.mapping[name] != [])
    ensures PopMapping(s', name) == s'.(mapping := s.mapping)
  {
    var names := MappingOf(s, name);
    assert (names + [m])[..|names|] == names;
    if name in s.mapping {
      assert s.mapping[name := names + [m]][name := names] == s.mapping;
    } else {
      assert s.mapping[name := names + [m]] - {name} == s.mapping;
    }
  }

  /**
   * A renaming version: undoing it gives the old name back and frees the new one, and uncovers the version below if and
   * only if the newest value of the old name led to the chain.
   */
  lemma UndoRename(s: State, s1: State, s2: State, index: nat, v: Version, put: MappingValue, del: MappingValue)
    requires OnTop(s, index, v, s1) && Restored(s1, s2) && ErasedAgain(s, v, s1) && !v.Deleted()
    requires var a, b := Top(s.entries[index]).ref.name, v.ref.name;
      && a != b && del.index == NewestIndex(s, a) && del.deleted
      && (a in s.mapping ==> s.mapping[a] != []) && (b in s.mapping ==> s.mapping[b] != [])
      && s1.mapping == s.mapping[b := MappingOf(s, b) + [put]][a := MappingOf(s, a) + [del]]
    ensures RecordOk(s2, Record(index, |s.entries[index]|))
    ensures Restored(s, Undo(s2, Record(index, |s.entries[index]|))) <==>
            NewestIndex(s, Top(s.entries[index]).ref.name) == index
  {
    hide Erase, PopMapping;
    EraseLike(s1, s2, v.ref);
    var r, a, b := Record(index, |s.entries[index]|), Top(s.entries[index]).ref.name, v.ref.name;
    assert s2.entries[index][..r.height] == s.entries[index];
    var s3 := Erase(s2, v.ref);
    var middle := s.(mapping := s.mapping[a := MappingOf(s, a) + [del]]);
    assert s1.mapping == middle.mapping[b := MappingOf(middle, b) + [put]];
    PopPushed(middle, s3, b, put);
    var s4 := s3.(mapping := middle.mapping);
    var s5 := s4.(entries := s4.entries[index := [v]][del.index := s.entries[index]]);
    assert Undo(s2, r) == PopMapping(s5, a);
    PopPushed(s, s5, a, del);
  }

  /** The steps of a transaction; dropping with CASCADE is one Drop for every entry it drops. */
  datatype Op =
    | Create(name: Name, kind: Kind, internal: bool, on: set<Ref>)
    | Alter(name: Name, newName: Option<Name>)
    | Drop(name: Name)

  function DropNamed(s: State, tx: Transaction, name: Name): Result {
    var m := GetMapping(s, tx, name);
    if m.None? then Result(s, NotDone, [])
    else
      match GetEntryAt(s, tx, m.value.index)
      case Missing => Result(s, NotDone, [])
      case Conflict => Result(s, Failed, [])
      case Found(index) => Result(DropVersion(s, tx, index), Success, [Record(index, Height(s, index))])
  }

  function Apply(s: State, tx: Transaction, op: Op): Result {
    match op
    case Create(name, kind, internal, on) => CreateEntry(s, tx, name, kind, internal, on)
    case Alter(name, newName) => AlterEntry(s, tx, name, newName)
    case Drop(name) => DropNamed(s, tx, name)
  }

  /** New entries are real ones and name registered objects as what they depend on. */
  ghost predicate OpOk(s: State, op: Op) {
    op.Create? ==> (op.kind.ObjectEntry? || op.kind.IndexEntry?) && op.on <= s.dependents.Keys
  }

  /** An operation that fails leaves the names as they were. */
  ghost predicate Clean(s: State, tx: Transaction, op: Op) {
    Apply(s, tx, op).outcome.Failed? ==> Apply(s, tx, op).state.mapping == s.mapping
  }

  function UndoIfThere(s: State, r: Record): State {
    if RecordOk(s, r) then Undo(s, r) else s
  }

  /** Undoes records from the last to the first. */
  function Rollback(s: State, records: seq<Record>): State {
    if records == [] then s else UndoIfThere(Rollback(s, records[1..]), records[0])
  }

  lemma RollbackOne(s: State, r: Record)
    ensures Rollback(s, [r]) == UndoIfThere(s, r)
  {
    assert [r][1..] == [];
  }

  lemma UndoneNothing(s: State, s1: State, s2: State)
    requires Restored(s1, s2) && s1.mapping == s.mapping && s1.dependents == s.dependents
    requires s1.dependencies == s.dependencies
    requires forall i | i in s.entries :: i in s1.entries && s1.entries[i] == s.entries[i]
    ensures Restored(s, Rollback(s2, []))
  {
  }

  /** The existing chain an operation puts a version on; None if it does not get that far. */
  function Target(s: State, tx: Transaction, op: Op): Option<nat> {
    match op
    case Create(name, kind, internal, on) =>
      var m := GetMapping(s, tx, name);
      if m.None? || m.value.deleted || !HasChain(s, m.value.index) then None
      else
        var top := Top(s.entries[m.value.index]);
        if HasConflict(tx, top.timestamp) || !top.Deleted() || !DependenciesLive(s, tx, on) then None
        else Some(m.value.index)
    case Alter(name, newName) =>
      var found := GetEntryInternal(s, tx, name);
      if !found.Found? || newName.None? || Top(s.entries[found.index]).internal then None
      else
        var entry := Top(s.entries[found.index]);
        if newName.value == entry.ref.name then if NoLiveDependents(s, tx, entry.ref) then Some(found.index) else None
        else if NameIsTaken(s, tx, newName.value) || !CanPutMapping(s, tx, newName.value) then None
        else if NoLiveDependents(Renamed(s, tx, found.index, entry.ref.name, newName.value), tx, entry.ref)
        then Some(found.index) else None
    case Drop(name) =>
      var m := GetMapping(s, tx, name);
      if m.None? || !GetEntryAt(s, tx, m.value.index).Found? then None else Some(m.value.index)
  }

  /** Whether undoing a version on top of a chain finds the chain again by the name below the version. */
  ghost predicate HomeAt(s: State, op: Op, index: nat)
    requires HasChain(s, index)
  {
    var top := Top(s.entries[index]);
    match op
    case Create(name, _, _, _) => top.ref.name == name && Anchored(s, index)
    case Alter(_, newName) =>
      && Dependencies(s, top.ref) <= s.dependents.Keys
      && if newName == Some(top.ref.name) then Anchored(s, index) else NewestIndex(s, top.ref.name) == index
    case Drop(_) => Anchored(s, index)
  }

  /** An operation that writes to an existing chain writes to the one its newest name leads to. */
  ghost predicate WritesHome(s: State, tx: Transaction, op: Op) {
    var target := Target(s, tx, op);
    target.Some? ==> HasChain(s, target.value) && HomeAt(s, op, target.value)
  }

  function Renamed(s: State, tx: Transaction, index: nat, before: Name, after: Name): State {
    DeleteMapping(PutMapping(s, tx, after, index), tx, before)
  }

  lemma DropUndone(s: State, tx: Transaction, name: Name, s2: State)
    requires Sound(s) && Restored(DropNamed(s, tx, name).state, s2)
    ensures Restored(s, Rollback(s2, DropNamed(s, tx, name).pushed)) <==> WritesHome(s, tx, Drop(name))
  {
    hide Restored, Fresh, Undo;
    var result := DropNamed(s, tx, name);
    if result.pushed == [] {
      UndoneNothing(s, s, s2);
    } else {
      var index := result.pushed[0].index;
      var v := Top(result.state.entries[index]);
      assert v.ref.name in s.mapping ==> Leading(s.mapping[v.ref.name], s.currentEntry);
      UndoSameName(s, result.state, s2, index, v);
      RollbackOne(s2, result.pushed[0]);
    }
  }

  lemma RegisterKeeps(s: State, target: Ref, cascade: bool, on: set<Ref>)
    ensures var s1 := Register(s, target, cascade, on);
      && s1.mapping == s.mapping && s1.entries == s.entries && s1.currentEntry == s.currentEntry
      && s1.currentRef == s.currentRef
  {
  }

  /** Erasing looks at the dependency maps only. */
  lemma ErasePushed(s: State, index: nat, v: Version)
    ensures Erase(Push(s, index, v), v.ref).dependents == Erase(s, v.ref).dependents
    ensures Erase(Push(s, index, v), v.ref).dependencies == Erase(s, v.ref).dependencies
  {
  }

  /** The dependency maps after registering and erasing, whatever happened to the names. */
  lemma EraseAfterPush(s: State, names: State, index: nat, v: Version, cascade: bool, on: set<Ref>)
    requires Fresh(s) && v.ref.id >= s.currentRef && on <= s.dependents.Keys && !v.Deleted()
    requires names.dependents == s.dependents && names.dependencies == s.dependencies
    ensures var s1 := Push(Register(names, v.ref, cascade, on), index, v);
      ErasedAgain(s, v, s1) && s1.mapping == names.mapping
  {
    hide Erase, Register;
    FreshRefUnknown(s, v.ref);
    EraseRegister(names, v.ref, cascade, on);
    ErasePushed(Register(names, v.ref, cascade, on), index, v);
    RegisterKeeps(names, v.ref, cascade, on);
  }

  /** An object that was not registered is, after something that depends on it was registered and erased again. */
  lemma EraseLeaves(s: State, target: Ref, cascade: bool, on: set<Ref>, d: Ref)
    requires d in on && d !in s.dependents && d != target
    ensures d in Erase(Register(s, target, cascade, on), target).dependents
  {
    var s1 := Register(s, target, cascade, on);
    assert Dependencies(s1, target) == on;
  }

  /** Registering what depends on an unregistered object is not undone. */
  lemma UnregisteredStays(s: State, names: State, index: nat, v: Version, cascade: bool, on: set<Ref>, s2: State)
    requires Older(on, s.currentRef) && v.ref.id >= s.currentRef && !(on <= s.dependents.Keys) && !v.Deleted()
    requires names.dependents == s.dependents && names.dependencies == s.dependencies
    requires index in names.entries && names.entries[index] != []
    requires Restored(Push(Register(names, v.ref, cascade, on), index, v), s2)
    ensures RecordOk(s2, Record(index, |names.entries[index]|))
    ensures !Restored(s, Undo(s2, Record(index, |names.entries[index]|)))
  {
    hide Erase, Register, Undo;
    var s1 := Push(Register(names, v.ref, cascade, on), index, v);
    RegisterKeeps(names, v.ref, cascade, on);
    var d :| d in on && d !in s.dependents;
    EraseLeaves(names, v.ref, cascade, on, d);
    ErasePushed(Register(names, v.ref, cascade, on), index, v);
    EraseLike(s1, s2, v.ref);
    UndoDependencies(s2, Record(index, |names.entries[index]|));
  }

  /** The dependencies of an object are older than the next object. */
  lemma OlderDependencies(s: State, d: Ref)
    requires Fresh(s)
    ensures Older(Dependencies(s, d), s.currentRef)
  {
  }

  lemma FinishAlterUndone(s: State, tx: Transaction, index: nat, s2: State)
    requires Sound(s) && HasChain(s, index) && !Top(s.entries[index]).Deleted()
    requires var entry := Top(s.entries[index]);
      && NoLiveDependents(s, tx, entry.ref)
      && Restored(FinishAlter(s, tx, index, entry, entry.ref.name).state, s2)
    ensures var entry := Top(s.entries[index]);
      Restored(s, Rollback(s2, FinishAlter(s, tx, index, entry, entry.ref.name).pushed)) <==>
      Dependencies(s, entry.ref) <= s.dependents.Keys && Anchored(s, index)
  {
    hide Restored, Undo, Erase, Register, Fresh, NoLiveDependents;
    var entry := Top(s.entries[index]);
    var result := FinishAlter(s, tx, index, entry, entry.ref.name);
    var v, on := NewVersion(s, tx, entry.ref.name, entry.kind, entry.internal), Dependencies(s, entry.ref);
    RegisterKeeps(s, v.ref, true, on);
    RollbackOne(s2, result.pushed[0]);
    OlderDependencies(s, entry.ref);
    if on <= s.dependents.Keys {
      EraseAfterPush(s, s, index, v, true, on);
      assert v.ref.name in s.mapping ==> Leading(s.mapping[v.ref.name], s.currentEntry);
      UndoSameName(s, result.state, s2, index, v);
    } else {
      UnregisteredStays(s, s, index, v, true, on, s2);
    }
  }

  lemma RenameUndone(s: State, tx: Transaction, index: nat, newName: Name, s2: State)
    requires Sound(s) && HasChain(s, index) && !Top(s.entries[index]).Deleted()
    requires var entry := Top(s.entries[index]);
      var result := FinishAlter(Renamed(s, tx, index, entry.ref.name, newName), tx, index, entry, newName);
      newName != entry.ref.name && result.outcome.Success? && Restored(result.state, s2)
    ensures var entry := Top(s.entries[index]);
      var result := FinishAlter(Renamed(s, tx, index, entry.ref.name, newName), tx, index, entry, newName);
      Restored(s, Rollback(s2, result.pushed)) <==>
      Dependencies(s, entry.ref) <= s.dependents.Keys && NewestIndex(s, entry.ref.name) == index
  {
    hide Restored, Undo, Erase, Register, Fresh, NoLiveDependents;
    var entry := Top(s.entries[index]);
    var a := entry.ref.name;
    var names := Renamed(s, tx, index, a, newName);
    var result := FinishAlter(names, tx, index, entry, newName);
    var v, on := NewVersion(s, tx, newName, entry.kind, entry.internal), Dependencies(s, entry.ref);
    RegisterKeeps(names, v.ref, true, on);
    RollbackOne(s2, result.pushed[0]);
    OlderDependencies(s, entry.ref);
    if on <= s.dependents.Keys {
      EraseAfterPush(s, names, index, v, true, on);
      assert a in s.mapping ==> Leading(s.mapping[a], s.currentEntry);
      assert newName in s.mapping ==> Leading(s.mapping[newName], s.currentEntry);
      UndoRename(s, result.state, s2, index, v, MappingValue(index, tx.id, false),
                 MappingValue(NewestIndex(s, a), tx.id, true));
    } else {
      UnregisteredStays(s, names, index, v, true, on, s2);
    }
  }

  lemma AlterUndone(s: State, tx: Transaction, name: Name, newName: Option<Name>, s2: State)
    requires Sound(s) && Clean(s, tx, Alter(name, newName)) && Restored(AlterEntry(s, tx, name, newName).state, s2)
    ensures Restored(s, Rollback(s2, AlterEntry(s, tx, name, newName).pushed)) <==>
            WritesHome(s, tx, Alter(name, newName))
  {
    hide Restored, Fresh, Undo, Rollback, NoLiveDependents, NameIsTaken, Register, CanPutMapping;
    var result := AlterEntry(s, tx, name, newName);
    var target := Target(s, tx, Alter(name, newName));
    if target.Some? {
      var entry := Top(s.entries[target.value]);
      if newName.value == entry.ref.name {
        FinishAlterUndone(s, tx, target.value, s2);
      } else {
        RenameUndone(s, tx, target.value, newName.value, s2);
      }
    } else {
      FailedAlter(s, tx, name, newName);
      UndoneNothing(s, s, s2);
    }
  }

  lemma NamesChange(s: State, tx: Transaction, index: nat, before: Name, after: Name)
    requires before != after
    ensures Renamed(s, tx, index, before, after).mapping != s.mapping
  {
    var s' := Renamed(s, tx, index, before, after);
    assert |MappingOf(s', after)| == |MappingOf(s, after)| + 1;
  }

  /** An alteration that does not get through and leaves the names alone changes nothing. */
  lemma FailedAlter(s: State, tx: Transaction, name: Name, newName: Option<Name>)
    requires Clean(s, tx, Alter(name, newName)) && Target(s, tx, Alter(name, newName)).None?
    ensures AlterEntry(s, tx, name, newName).state == s && AlterEntry(s, tx, name, newName).pushed == []
  {
    hide NoLiveDependents, NameIsTaken, Register, CanPutMapping;
    var found := GetEntryInternal(s, tx, name);
    if found.Found? && newName.Some? && newName.value != Top(s.entries[found.index]).ref.name {
      NamesChange(s, tx, found.index, Top(s.entries[found.index]).ref.name, newName.value);
    }
  }

  lemma FinishCreateFails(s: State, tx: Transaction, name: Name, index: nat, kind: Kind, internal: bool, on: set<Ref>)
    ensures var result := FinishCreate(s, tx, name, index, kind, internal, on);
      result.outcome.Success? || (result == Result(s, Failed, []))
  {
  }

  lemma CreateOnChainUndone(s: State, tx: Transaction, name: Name, index: nat, kind: Kind, internal: bool, on: set<Ref>,
                            s2: State)
    requires Sound(s) && HasChain(s, index) && DependenciesLive(s, tx, on) && name in s.mapping
    requires (kind.ObjectEntry? || kind.IndexEntry?) && on <= s.dependents.Keys
    requires Restored(FinishCreate(s, tx, name, index, kind, internal, on).state, s2)
    ensures Restored(s, Rollback(s2, FinishCreate(s, tx, name, index, kind, internal, on).pushed)) <==>
            Top(s.entries[index]).ref.name == name && Anchored(s, index)
  {
    hide Restored, Undo, Erase, Register, Fresh, DependenciesLive;
    var result := FinishCreate(s, tx, name, index, kind, internal, on);
    var v := NewVersion(s, tx, name, kind, internal);
    RegisterKeeps(s, v.ref, !kind.IndexEntry?, on);
    RollbackOne(s2, result.pushed[0]);
    assert Leading(s.mapping[name], s.currentEntry);
    if Top(s.entries[index]).ref.name == name {
      EraseAfterPush(s, s, index, v, !kind.IndexEntry?, on);
      UndoSameName(s, result.state, s2, index, v);
    } else {
      UndoOtherName(s, result.state, s2, index, v);
    }
  }

  ghost function Named(s: State, tx: Transaction, name: Name): State {
    PutMapping(StartChain(s, name), tx, name, s.currentEntry)
  }

  lemma CreateFirstUndone(s: State, tx: Transaction, name: Name, kind: Kind, internal: bool, on: set<Ref>, s2: State)
    requires Sound(s) && (kind.ObjectEntry? || kind.IndexEntry?) && on <= s.dependents.Keys
    requires var result := FinishCreate(Named(s, tx, name), tx, name, s.currentEntry, kind, internal, on);
      result.outcome.Success? && Restored(result.state, s2)
    ensures var r := FinishCreate(Named(s, tx, name), tx, name, s.currentEntry, kind, internal, on);
            Restored(s, Rollback(s2, r.pushed))
  {
    hide Restored, Undo, Erase, Register, Fresh, DependenciesLive, ErasedAgain;
    var index, names := s.currentEntry, Named(s, tx, name);
    var result := FinishCreate(names, tx, name, index, kind, internal, on);
    var v := NewVersion(names, tx, name, kind, internal);
    RegisterKeeps(names, v.ref, !kind.IndexEntry?, on);
    EraseAfterPush(s, names, index, v, !kind.IndexEntry?, on);
    assert name in s.mapping ==> Leading(s.mapping[name], s.currentEntry);
    UndoFirst(s, result.state, s2, index, names.entries[index][0], v, MappingValue(index, tx.id, false));
    RollbackOne(s2, result.pushed[0]);
  }

  lemma CreateUndone(s: State, tx: Transaction, name: Name, kind: Kind, internal: bool, on: set<Ref>, s2: State)
    requires Sound(s) && OpOk(s, Create(name, kind, internal, on)) && Clean(s, tx, Create(name, kind, internal, on))
    requires Restored(CreateEntry(s, tx, name, kind, internal, on).state, s2)
    ensures Restored(s, Rollback(s2, CreateEntry(s, tx, name, kind, internal, on).pushed)) <==>
            WritesHome(s, tx, Create(name, kind, internal, on))
  {
    hide Restored, Fresh, Undo, FinishCreate, Rollback, DependenciesLive;
    var result, m := CreateEntry(s, tx, name, kind, internal, on), GetMapping(s, tx, name);
    if m.None? || m.value.deleted {
      var s1, names := StartChain(s, name), Named(s, tx, name);
      if CanPutMapping(s1, tx, name) {
        FinishCreateFails(names, tx, name, s.currentEntry, kind, internal, on);
        assert |MappingOf(names, name)| == |MappingOf(s, name)| + 1;
        CreateFirstUndone(s, tx, name, kind, internal, on, s2);
      } else {
        UndoneNothing(s, s1, s2);
      }
    } else if Target(s, tx, Create(name, kind, internal, on)).Some? {
      CreateOnChainUndone(s, tx, name, m.value.index, kind, internal, on, s2);
    } else {
      FinishCreateNothing(s, tx, name, m.value.index, kind, internal, on);
      UndoneNothing(s, s, s2);
    }
  }

  lemma FinishCreateNothing(s: State, tx: Transaction, name: Name, index: nat, kind: Kind, internal: bool, on: set<Ref>)
    ensures !DependenciesLive(s, tx, on) ==>
            FinishCreate(s, tx, name, index, kind, internal, on) == Result(s, Failed, [])
  {
  }

  /**
   * Undoing an operation that left the names alone if it failed restores the state before it if and only if the
   * operation wrote to the chain its newest name leads to.
   */
  lemma ApplyUndone(s: State, tx: Transaction, op: Op, s2: State)
    requires Sound(s) && OpOk(s, op) && Clean(s, tx, op) && Restored(Apply(s, tx, op).state, s2)
    ensures Restored(s, Rollback(s2, Apply(s, tx, op).pushed)) <==> WritesHome(s, tx, op)
  {
    hide Sound, Restored, Rollback, CreateEntry, AlterEntry, DropNamed, WritesHome;
    match op
    case Create(name, kind, internal, on) => CreateUndone(s, tx, name, kind, internal, on, s2);
    case Alter(name, newName) => AlterUndone(s, tx, name, newName, s2);
    case Drop(name) => DropUndone(s, tx, name, s2);
  }

  lemma RegisterFresh(s: State, target: Ref, cascade: bool, on: set<Ref>, s': State)
    requires Fresh(s) && Registered(s) && on <= s.dependents.Keys && s.currentRef <= target.id < s'.currentRef
    requires s'.dependents == Register(s, target, cascade, on).dependents
    requires s'.dependencies == Register(s, target, cascade, on).dependencies
    ensures Fresh(s') && Registered(s')
  {
    var s1 := Register(s, target, cascade, on);
    assert s1.dependents.Keys == s.dependents.Keys + {target};
    forall r | r in s'.dependents ensures Older(s'.dependents[r].Keys, s'.currentRef) {
      if r != target {
        assert s1.dependents[r].Keys <= s.dependents[r].Keys + {target};
      }
    }
  }

  /** A version under the same name on an anchored chain. */
  lemma PushReaches(s: State, tx: Transaction, index: nat, v: Version, s': State)
    requires Indexed(s) && Reaches(s, tx) && Stamped(s, tx) && HasChain(s, index) && Anchored(s, index)
    requires !HasConflict(tx, Top(s.entries[index]).timestamp)
    requires v.timestamp == tx.id && v.ref.name == Top(s.entries[index]).ref.name && !v.kind.Invalid?
    requires s'.mapping == s.mapping && s'.entries == s.entries[index := s.entries[index] + [v]]
    requires s'.currentEntry == s.currentEntry
    ensures Indexed(s') && Reaches(s', tx) && Stamped(s', tx)
  {
    forall n | n in s'.mapping ensures AnchoredAt(s', tx, n) && NamesOk(s', s'.mapping[n]) {
      assert AnchoredAt(s, tx, n) && NamesOk(s, s.mapping[n]);
    }
    forall i | HasChain(s', i) && Top(s'.entries[i]).timestamp == tx.start ensures Top(s'.entries[i]).Deleted() {
      assert i != index && HasChain(s, i);
    }
  }

  lemma VisibleInChain(chain: seq<MappingValue>, tx: Transaction)
    requires chain != []
    ensures VisibleMapping(chain, tx) in chain
    decreases |chain|
  {
    if !(|chain| == 1 || UseTimestamp(tx, Top(chain).timestamp)) {
      VisibleInChain(chain[..|chain| - 1], tx);
    }
  }

  /** A mapping that may be replaced is the one the transaction sees. */
  lemma ReplaceableIsVisible(s: State, tx: Transaction, name: Name)
    requires Stamped(s, tx) && name in s.mapping && s.mapping[name] != [] && CanPutMapping(s, tx, name)
    ensures GetMapping(s, tx, name) == Some(Top(s.mapping[name]))
  {
  }

  /** A new chain under a free name. */
  lemma NamedReaches(s: State, tx: Transaction, name: Name, v: Version, s': State)
    requires Indexed(s) && Reaches(s, tx) && Stamped(s, tx) && CanPutMapping(s, tx, name)
    requires GetMapping(s, tx, name).None? || GetMapping(s, tx, name).value.deleted
    requires v.timestamp == tx.id && v.ref.name == name && !v.kind.Invalid?
    requires s'.mapping == Named(s, tx, name).mapping && s'.currentEntry == s.currentEntry + 1
    requires s'.entries == s.entries[s.currentEntry := Named(s, tx, name).entries[s.currentEntry] + [v]]
    ensures Indexed(s') && Reaches(s', tx) && Stamped(s', tx)
  {
    NamedIndexed(s, tx, name, v, s');
    NamedStamped(s, tx, name, v, s');
    hide Indexed, Stamped;
    forall n | n in s'.mapping ensures AnchoredAt(s', tx, n) {
      if n != name {
        NamedReachesAt(s, tx, name, v, s', n);
      } else {
        NamedReachesIt(s, tx, name, v, s');
      }
    }
  }

  lemma NamedReachesIt(s: State, tx: Transaction, name: Name, v: Version, s': State)
    requires v.timestamp == tx.id && v.ref.name == name && !v.kind.Invalid?
    requires s'.mapping == Named(s, tx, name).mapping
    requires s'.entries == s.entries[s.currentEntry := Named(s, tx, name).entries[s.currentEntry] + [v]]
    ensures AnchoredAt(s', tx, name)
  {
  }

  lemma NamedIndexed(s: State, tx: Transaction, name: Name, v: Version, s': State)
    requires Indexed(s) && s'.mapping == Named(s, tx, name).mapping && s'.currentEntry == s.currentEntry + 1
    requires s'.entries == s.entries[s.currentEntry := Named(s, tx, name).entries[s.currentEntry] + [v]]
    ensures Indexed(s')
  {
    forall n | n in s'.mapping ensures NamesOk(s', s'.mapping[n]) {
      assert n in s.mapping ==> NamesOk(s, s.mapping[n]);
    }
  }

  lemma NamedStamped(s: State, tx: Transaction, name: Name, v: Version, s': State)
    requires Stamped(s, tx) && s'.mapping == Named(s, tx, name).mapping && v.timestamp == tx.id
    requires s'.entries == s.entries[s.currentEntry := Named(s, tx, name).entries[s.currentEntry] + [v]]
    ensures Stamped(s', tx)
  {
    forall i | HasChain(s', i) && Top(s'.entries[i]).timestamp == tx.start ensures Top(s'.entries[i]).Deleted() {
      assert i != s.currentEntry && HasChain(s, i);
    }
  }

  lemma NamedReachesAt(s: State, tx: Transaction, name: Name, v: Version, s': State, n: Name)
    requires Indexed(s) && Reaches(s, tx) && Stamped(s, tx) && CanPutMapping(s, tx, name) && n != name && n in s.mapping
    requires GetMapping(s, tx, name).None? || GetMapping(s, tx, name).value.deleted
    requires s'.mapping == Named(s, tx, name).mapping
    requires s'.entries == s.entries[s.currentEntry := Named(s, tx, name).entries[s.currentEntry] + [v]]
    ensures AnchoredAt(s', tx, n)
  {
    assert AnchoredAt(s, tx, n) && NamesOk(s, s.mapping[n]);
    VisibleInChain(s.mapping[n], tx);
    var index := GetMapping(s, tx, n).value.index;
    assert index in s.entries && index != s.currentEntry && s'.entries[index] == s.entries[index];
    if Anchored(s, index) && Top(s.entries[index]).ref.name == name {
      ReplaceableIsVisible(s, tx, name);
    }
  }

  lemma RenamedNames(s: State, tx: Transaction, index: nat, a: Name, b: Name)
    requires a != b && a in s.mapping && s.mapping[a] != [] && Top(s.mapping[a]).index == index
    ensures var names := Renamed(s, tx, index, a, b).mapping;
      names == s.mapping[b := MappingOf(s, b) + [MappingValue(index, tx.id, false)]]
                        [a := s.mapping[a] + [MappingValue(index, tx.id, true)]]
  {
  }

  /** What a transaction may write under a name that is free for it is deleted. */
  lemma FreeNameIsDeleted(s: State, tx: Transaction, i: nat)
    requires Stamped(s, tx) && HasChain(s, i) && Anchored(s, i) && !HasConflict(tx, Top(s.entries[i]).timestamp)
    requires !NameIsTaken(s, tx, Top(s.entries[i]).ref.name) && CanPutMapping(s, tx, Top(s.entries[i]).ref.name)
    ensures Top(s.entries[i]).Deleted()
  {
    ReplaceableIsVisible(s, tx, Top(s.entries[i]).ref.name);
  }

  lemma RenamedReachesAt(s: State, tx: Transaction, index: nat, v: Version, s': State, n: Name)
    requires Indexed(s) && Reaches(s, tx) && Stamped(s, tx) && HasChain(s, index) && Anchored(s, index)
    requires !HasConflict(tx, Top(s.entries[index]).timestamp) && n in s.mapping
    requires var a, b := Top(s.entries[index]).ref.name, v.ref.name;
      && a != b && CanPutMapping(s, tx, b) && !NameIsTaken(s, tx, b) && n != a && n != b
      && s'.mapping == Renamed(s, tx, index, a, b).mapping
    requires v.timestamp == tx.id && !v.kind.Invalid? && s'.entries == s.entries[index := s.entries[index] + [v]]
    ensures AnchoredAt(s', tx, n)
  {
    RenamedNames(s, tx, index, Top(s.entries[index]).ref.name, v.ref.name);
    assert AnchoredAt(s, tx, n) && NamesOk(s, s.mapping[n]);
    VisibleInChain(s.mapping[n], tx);
    hide Renamed, Indexed, Reaches, VisibleMapping, NamesOk, NameIsTaken, CanPutMapping, Stamped, HasConflict;
    var m, a, b := GetMapping(s, tx, n).value, Top(s.entries[index]).ref.name, v.ref.name;
    assert GetMapping(s', tx, n) == Some(m);
    if m.index == index {
      assert s'.entries[index] == s.entries[index] + [v];
      assert Anchored(s', index);
    } else {
      assert s'.entries[m.index] == s.entries[m.index];
      var top := Top(s.entries[m.index]);
      if Anchored(s, m.index) {
        if top.ref.name == b {
          if !HasConflict(tx, top.timestamp) {
            FreeNameIsDeleted(s, tx, m.index);
          }
        } else {
          assert top.ref.name != a;
          assert s'.mapping[top.ref.name] == s.mapping[top.ref.name];
          assert Anchored(s', m.index);
        }
      }
    }
  }

  /** The two names of a rename: the old one is deleted, the new one leads to the chain. */
  lemma RenamedReachesBoth(s: State, tx: Transaction, index: nat, v: Version, s': State)
    requires HasChain(s, index) && Anchored(s, index)
    requires var a, b := Top(s.entries[index]).ref.name, v.ref.name;
             a != b && s'.mapping == Renamed(s, tx, index, a, b).mapping
    requires v.timestamp == tx.id && !v.kind.Invalid? && index in s'.entries
    requires s'.entries[index] == s.entries[index] + [v]
    ensures AnchoredAt(s', tx, Top(s.entries[index]).ref.name) && AnchoredAt(s', tx, v.ref.name)
  {
    RenamedNames(s, tx, index, Top(s.entries[index]).ref.name, v.ref.name);
    hide Renamed;
    assert Anchored(s', index);
  }

  lemma RenamedIndexed(s: State, tx: Transaction, index: nat, v: Version, s': State)
    requires Indexed(s) && HasChain(s, index) && Anchored(s, index) && s'.currentEntry == s.currentEntry
    requires var a, b := Top(s.entries[index]).ref.name, v.ref.name;
             a != b && s'.mapping == Renamed(s, tx, index, a, b).mapping
    requires s'.entries == s.entries[index := s.entries[index] + [v]]
    ensures Indexed(s')
  {
    RenamedNames(s, tx, index, Top(s.entries[index]).ref.name, v.ref.name);
    hide Renamed;
    forall n | n in s'.mapping ensures NamesOk(s', s'.mapping[n]) {
      assert n in s.mapping ==> NamesOk(s, s.mapping[n]);
    }
  }

  lemma RenamedStamped(s: State, tx: Transaction, index: nat, v: Version, s': State)
    requires Stamped(s, tx) && HasChain(s, index) && Anchored(s, index) && v.timestamp == tx.id
    requires var a, b := Top(s.entries[index]).ref.name, v.ref.name;
             a != b && s'.mapping == Renamed(s, tx, index, a, b).mapping
    requires s'.entries == s.entries[index := s.entries[index] + [v]]
    ensures Stamped(s', tx)
  {
    RenamedNames(s, tx, index, Top(s.entries[index]).ref.name, v.ref.name);
    hide Renamed;
    forall i | HasChain(s', i) && Top(s'.entries[i]).timestamp == tx.start ensures Top(s'.entries[i]).Deleted() {
      assert i != index && HasChain(s, i);
    }
  }

  /** A renaming version on an anchored chain. */
  lemma RenamedReaches(s: State, tx: Transaction, index: nat, v: Version, s': State)
    requires Indexed(s) && Reaches(s, tx) && Stamped(s, tx) && HasChain(s, index) && Anchored(s, index)
    requires !HasConflict(tx, Top(s.entries[index]).timestamp)
    requires var a, b := Top(s.entries[index]).ref.name, v.ref.name;
      a != b && CanPutMapping(s, tx, b) && !NameIsTaken(s, tx, b) && s'.mapping == Renamed(s, tx, index, a, b).mapping
    requires v.timestamp == tx.id && !v.kind.Invalid? && s'.entries == s.entries[index := s.entries[index] + [v]]
    requires s'.currentEntry == s.currentEntry
    ensures Indexed(s') && Reaches(s', tx) && Stamped(s', tx)
  {
    RenamedIndexed(s, tx, index, v, s');
    RenamedStamped(s, tx, index, v, s');
    RenamedReachesBoth(s, tx, index, v, s');
    hide AnchoredAt, Anchored, Indexed, Stamped;
    var a, b := Top(s.entries[index]).ref.name, v.ref.name;
    forall n | n in s'.mapping ensures AnchoredAt(s', tx, n) {
      if n != a && n != b {
        assert n in s.mapping;
        RenamedReachesAt(s, tx, index, v, s', n);
      }
    }
  }

  /** Dead chains change nothing. */
  lemma StartChainGood(s: State, tx: Transaction, name: Name)
    requires Good(s, tx)
    ensures Good(StartChain(s, name), tx)
  {
    var s' := StartChain(s, name);
    forall n | n in s'.mapping ensures AnchoredAt(s', tx, n) && NamesOk(s', s'.mapping[n]) {
      assert AnchoredAt(s, tx, n) && NamesOk(s, s.mapping[n]);
      VisibleInChain(s.mapping[n], tx);
    }
    forall i | HasChain(s', i) && Top(s'.entries[i]).timestamp == tx.start ensures Top(s'.entries[i]).Deleted() {
      assert i == s.currentEntry || HasChain(s, i);
    }
  }

  lemma DropGood(s: State, tx: Transaction, name: Name)
    requires Good(s, tx)
    ensures Good(DropNamed(s, tx, name).state, tx)
  {
    hide Registered, Stamped, Reaches, Indexed;
    var result := DropNamed(s, tx, name);
    if result.pushed != [] {
      var index := result.pushed[0].index;
      var v := NewVersion(s, tx, Top(s.entries[index]).ref.name, DeletedEntry, false);
      assert AnchoredAt(s, tx, name) by {
        ReachesName(s, tx, name);
      }
      PushReaches(s, tx, index, v, result.state);
      assert Registered(result.state) by {
        SameRegistered(s, result.state);
      }
    }
  }

  lemma ReachesName(s: State, tx: Transaction, name: Name)
    requires Reaches(s, tx)
    ensures AnchoredAt(s, tx, name)
  {
  }

  lemma SameRegistered(s: State, s': State)
    requires Registered(s) && s'.dependents == s.dependents && s'.dependencies == s.dependencies
    ensures Registered(s')
  {
  }

  lemma RegisteredOn(s: State, target: Ref)
    requires Registered(s)
    ensures Dependencies(s, target) <= s.dependents.Keys
  {
  }

  lemma AlterGood(s: State, tx: Transaction, name: Name, newName: Option<Name>)
    requires Good(s, tx) && Clean(s, tx, Alter(name, newName))
    ensures Good(AlterEntry(s, tx, name, newName).state, tx)
  {
    hide Fresh, Registered, Stamped, Reaches, Indexed, Register, NoLiveDependents, Anchored, NameIsTaken;
    var result := AlterEntry(s, tx, name, newName);
    var found := GetEntryInternal(s, tx, name);
    if result.outcome.Success? && newName.Some? {
      assert AnchoredAt(s, tx, name) by {
        ReachesName(s, tx, name);
      }
      var index, entry := found.index, Top(s.entries[found.index]);
      var renames := newName.value != entry.ref.name;
      var names := if renames then Renamed(s, tx, index, entry.ref.name, newName.value) else s;
      var v, on := NewVersion(s, tx, newName.value, entry.kind, entry.internal), Dependencies(s, entry.ref);
      RegisterKeeps(names, v.ref, true, on);
      RegisteredOn(s, entry.ref);
      assert result.state == Push(Register(names, v.ref, true, on), index, v);
      RegisterOther(s, names, v.ref, true, on);
      RegisterFresh(s, v.ref, true, on, result.state);
      if renames {
        RenamedReaches(s, tx, index, v, result.state);
      } else {
        PushReaches(s, tx, index, v, result.state);
      }
    } else if result.outcome.Failed? {
      FailedAlter(s, tx, name, newName);
    }
  }

  lemma RegisterOther(s: State, s': State, target: Ref, cascade: bool, on: set<Ref>)
    requires s'.dependents == s.dependents && s'.dependencies == s.dependencies
    ensures Register(s', target, cascade, on).dependents == Register(s, target, cascade, on).dependents
    ensures Register(s', target, cascade, on).dependencies == Register(s, target, cascade, on).dependencies
  {
  }

  lemma CreateGood(s: State, tx: Transaction, name: Name, kind: Kind, internal: bool, on: set<Ref>)
    requires Good(s, tx) && OpOk(s, Create(name, kind, internal, on)) && Clean(s, tx, Create(name, kind, internal, on))
    ensures Good(CreateEntry(s, tx, name, kind, internal, on).state, tx)
  {
    hide Fresh, Registered, Stamped, Reaches, Indexed, Register, DependenciesLive, Anchored;
    var result, m := CreateEntry(s, tx, name, kind, internal, on), GetMapping(s, tx, name);
    var cascade := !kind.IndexEntry?;
    if m.None? || m.value.deleted {
      if !CanPutMapping(StartChain(s, name), tx, name) {
        StartChainGood(s, tx, name);
      } else {
        var names := Named(s, tx, name);
        assert |MappingOf(names, name)| == |MappingOf(s, name)| + 1;
        var v := NewVersion(names, tx, name, kind, internal);
        RegisterKeeps(names, v.ref, cascade, on);
        RegisterOther(s, names, v.ref, cascade, on);
        assert result.state == Push(Register(names, v.ref, cascade, on), s.currentEntry, v);
        RegisterFresh(s, v.ref, cascade, on, result.state);
        NamedReaches(s, tx, name, v, result.state);
      }
    } else if result.outcome.Success? {
      assert AnchoredAt(s, tx, name) by {
        ReachesName(s, tx, name);
      }
      var v := NewVersion(s, tx, name, kind, internal);
      RegisterKeeps(s, v.ref, cascade, on);
      assert result.state == Push(Register(s, v.ref, cascade, on), m.value.index, v);
      RegisterFresh(s, v.ref, cascade, on, result.state);
      PushReaches(s, tx, m.value.index, v, result.state);
    }
  }

  lemma ApplyGood(s: State, tx: Transaction, op: Op)
    requires Good(s, tx) && OpOk(s, op) && Clean(s, tx, op)
    ensures Good(Apply(s, tx, op).state, tx)
  {
    hide Good, CreateEntry, AlterEntry, DropNamed;
    match op
    case Create(name, kind, internal, on) => CreateGood(s, tx, name, kind, internal, on);
    case Alter(name, newName) => AlterGood(s, tx, name, newName);
    case Drop(name) => DropGood(s, tx, name);
  }

  /** The state after a transaction's operations. */
  function Run(s: State, tx: Transaction, ops: seq<Op>): State
    decreases |ops|
  {
    if ops == [] then s else Run(Apply(s, tx, ops[0]).state, tx, ops[1..])
  }

  /** The records its undo buffer then holds, in the order they were pushed. */
  function UndoBuffer(s: State, tx: Transaction, ops: seq<Op>): seq<Record>
    decreases |ops|
  {
    if ops == [] then [] else Apply(s, tx, ops[0]).pushed + UndoBuffer(Apply(s, tx, ops[0]).state, tx, ops[1..])
  }

  ghost predicate CleanRun(s: State, tx: Transaction, ops: seq<Op>)
    decreases |ops|
  {
    ops != [] ==> OpOk(s, ops[0]) && Clean(s, tx, ops[0]) && CleanRun(Apply(s, tx, ops[0]).state, tx, ops[1..])
  }

  lemma PushedAtMostOnce(s: State, tx: Transaction, op: Op)
    ensures |Apply(s, tx, op).pushed| <= 1
  {
  }

  lemma RollbackSplit(s: State, a: seq<Record>, b: seq<Record>)
    requires |a| <= 1
    ensures Rollback(s, a + b) == Rollback(Rollback(s, b), a)
  {
    if a == [] {
      assert a + b == b;
    } else {
      assert (a + b)[1..] == b;
      RollbackOne(Rollback(s, b), a[0]);
      assert a == [a[0]];
    }
  }

  /** The rename has put its names in place when the dependents are checked. */
  predicate RenameGetsThrough(s: State, tx: Transaction, name: Name, newName: Name) {
    var found := GetEntryInternal(s, tx, name);
    && found.Found? && !Top(s.entries[found.index]).internal && newName != Top(s.entries[found.index]).ref.name
    && !NameIsTaken(s, tx, newName) && CanPutMapping(s, tx, newName)
  }

  /** The new chain has its name when the dependencies are checked. */
  predicate NameGetsThrough(s: State, tx: Transaction, name: Name) {
    var m := GetMapping(s, tx, name);
    (m.None? || m.value.deleted) && CanPutMapping(s, tx, name)
  }

  /** The checks that fail too late: after the names were changed. */
  ghost predicate FailsLate(s: State, tx: Transaction, op: Op) {
    match op
    case Create(name, kind, internal, on) =>
      NameGetsThrough(s, tx, name) && !DependenciesLive(Named(s, tx, name), tx, on)
    case Alter(name, newName) =>
      && newName.Some? && RenameGetsThrough(s, tx, name, newName.value)
      && var index := GetEntryInternal(s, tx, name).index;
         var entry := Top(s.entries[index]);
         !NoLiveDependents(Renamed(s, tx, index, entry.ref.name, newName.value), tx, entry.ref)
    case Drop(name) => false
  }

  /** A run every operation of which writes to the chain its newest name leads to, or fails before it changes a name. */
  ghost predicate HomeRun(s: State, tx: Transaction, ops: seq<Op>)
    decreases |ops|
  {
    ops != [] ==>
      && OpOk(s, ops[0]) && !FailsLate(s, tx, ops[0]) && WritesHome(s, tx, ops[0])
      && HomeRun(Apply(s, tx, ops[0]).state, tx, ops[1..])
  }

  /** Rolling back all a transaction did restores every name, every chain and both dependency maps. */
  lemma {:induction false} RollbackRestores(s: State, tx: Transaction, ops: seq<Op>)
    requires Sound(s) && HomeRun(s, tx, ops)
    ensures Restored(s, Rollback(Run(s, tx, ops), UndoBuffer(s, tx, ops)))
    decreases |ops|
  {
    hide Sound, Apply, FailsLate, WritesHome, OpOk, Clean;
    if ops == [] {
    } else {
      hide Restored;
      var s1, pushed := Apply(s, tx, ops[0]).state, Apply(s, tx, ops[0]).pushed;
      ApplySound(s, tx, ops[0]);
      RollbackRestores(s1, tx, ops[1..]);
      var rest := UndoBuffer(s1, tx, ops[1..]);
      var s2 := Rollback(Run(s1, tx, ops[1..]), rest);
      PushedAtMostOnce(s, tx, ops[0]);
      RollbackSplit(Run(s, tx, ops), pushed, rest);
      CleanIffNotLate(s, tx, ops[0]);
      ApplyUndone(s, tx, ops[0], s2);
    }
  }

  /**
   * An operation leaves something outside the undo buffer exactly if its dependency check fails after the names
   * changed.
   */
  lemma CleanIffNotLate(s: State, tx: Transaction, op: Op)
    ensures Clean(s, tx, op) <==> !FailsLate(s, tx, op)
  {
    hide Register, DependenciesLive, NoLiveDependents, NameIsTaken;
    match op
    case Create(name, kind, internal, on) =>
      assert |MappingOf(Named(s, tx, name), name)| == |MappingOf(s, name)| + 1;
    case Alter(name, newName) =>
      var found := GetEntryInternal(s, tx, name);
      if found.Found? && newName.Some? && newName.value != Top(s.entries[found.index]).ref.name {
        NamesChange(s, tx, found.index, Top(s.entries[found.index]).ref.name, newName.value);
      }
    case Drop(name) =>
  }

  /**
   * Rolling back one operation restores the state exactly when the operation did not fail after changing the names and
   * did not write to a chain that its newest name does not lead to.
   */
  lemma RollbackRestoresIff(s: State, tx: Transaction, op: Op)
    requires Sound(s) && OpOk(s, op)
    ensures Restored(s, Rollback(Apply(s, tx, op).state, Apply(s, tx, op).pushed)) <==>
            !FailsLate(s, tx, op) && WritesHome(s, tx, op)
  {
    CleanIffNotLate(s, tx, op);
    if Clean(s, tx, op) {
      assert Restored(Apply(s, tx, op).state, Apply(s, tx, op).state);
      hide Restored, FailsLate, WritesHome, Sound;
      ApplyUndone(s, tx, op, Apply(s, tx, op).state);
    } else {
      FailurePushesNothing(s, tx, op);
    }
  }

  lemma RegisterFreshOnly(s: State, target: Ref, cascade: bool, on: set<Ref>, s': State)
    requires Fresh(s) && Older(on, s.currentRef) && s.currentRef <= target.id < s'.currentRef
    requires s'.dependents == Register(s, target, cascade, on).dependents
    requires s'.dependencies == Register(s, target, cascade, on).dependencies
    ensures Fresh(s')
  {
    forall r | r in s'.dependents ensures Older(s'.dependents[r].Keys, s'.currentRef) {
      if r in s.dependents {
        assert Older(s.dependents[r].Keys, s.currentRef);
      }
    }
  }

  /** A version on a chain that was given out. */
  lemma PushSound(s: State, names: State, cascade: bool, on: set<Ref>, index: nat, v: Version)
    requires Sound(s) && Sound(names) && Older(on, s.currentRef) && index < names.currentEntry
    requires names.dependents == s.dependents && names.dependencies == s.dependencies
    requires s.currentRef <= names.currentRef == v.ref.id
    ensures Sound(Push(Register(names, v.ref, cascade, on), index, v))
  {
    var s' := Push(Register(names, v.ref, cascade, on), index, v);
    RegisterKeeps(names, v.ref, cascade, on);
    RegisterOther(s, names, v.ref, cascade, on);
    assert Older(on, names.currentRef);
    RegisterFreshOnly(names, v.ref, cascade, on, s');
    hide Register, Fresh;
    forall n | n in s'.mapping ensures Leading(s'.mapping[n], s'.currentEntry) {
      assert Leading(names.mapping[n], names.currentEntry);
    }
  }

  lemma SameFresh(s: State, s': State)
    requires Fresh(s) && s'.dependents == s.dependents && s'.dependencies == s.dependencies
    requires s.currentRef <= s'.currentRef
    ensures Fresh(s')
  {
  }

  lemma NamedSound(s: State, tx: Transaction, name: Name)
    requires Sound(s)
    ensures Sound(StartChain(s, name)) && Sound(Named(s, tx, name))
  {
    var s1, s' := StartChain(s, name), Named(s, tx, name);
    SameFresh(s, s1);
    SameFresh(s, s');
    hide Fresh;
    forall n | n in s'.mapping ensures Leading(s'.mapping[n], s'.currentEntry) {
      assert n in s.mapping ==> Leading(s.mapping[n], s.currentEntry);
    }
    forall n | n in s1.mapping ensures Leading(s1.mapping[n], s1.currentEntry) {
      assert Leading(s.mapping[n], s.currentEntry);
    }
  }

  lemma RenamedSound(s: State, tx: Transaction, index: nat, before: Name, after: Name)
    requires Sound(s) && index < s.currentEntry
    ensures Sound(Renamed(s, tx, index, before, after))
  {
    var s1 := PutMapping(s, tx, after, index);
    var s' := Renamed(s, tx, index, before, after);
    SameFresh(s, s');
    hide Fresh;
    forall n | n in s1.mapping ensures Leading(s1.mapping[n], s1.currentEntry) {
      assert n in s.mapping ==> Leading(s.mapping[n], s.currentEntry);
    }
    forall n | n in s'.mapping ensures Leading(s'.mapping[n], s'.currentEntry) {
      assert n in s1.mapping ==> Leading(s1.mapping[n], s1.currentEntry);
    }
  }

  lemma FinishCreateSound(s: State, tx: Transaction, name: Name, index: nat, kind: Kind, internal: bool, on: set<Ref>)
    requires Sound(s) && index < s.currentEntry && Older(on, s.currentRef)
    ensures Sound(FinishCreate(s, tx, name, index, kind, internal, on).state)
  {
    hide Sound, Register, DependenciesLive, Older;
    PushSound(s, s, !kind.IndexEntry?, on, index, NewVersion(s, tx, name, kind, internal));
  }

  lemma KnownAreOlder(s: State, tx: Transaction, name: Name, on: set<Ref>)
    requires Sound(s) && on <= s.dependents.Keys
    ensures Older(on, s.currentRef) && Older(on, Named(s, tx, name).currentRef)
  {
  }

  lemma NamedIs(s: State, tx: Transaction, name: Name)
    ensures Named(s, tx, name) == PutMapping(StartChain(s, name), tx, name, s.currentEntry)
  {
  }

  lemma CreateSound(s: State, tx: Transaction, name: Name, kind: Kind, internal: bool, on: set<Ref>)
    requires Sound(s) && on <= s.dependents.Keys
    ensures Sound(CreateEntry(s, tx, name, kind, internal, on).state)
  {
    hide Sound, Register, FinishCreate, Older, Named;
    var m, names := GetMapping(s, tx, name), Named(s, tx, name);
    KnownAreOlder(s, tx, name, on);
    NamedSound(s, tx, name);
    assert names == PutMapping(StartChain(s, name), tx, name, s.currentEntry) by {
      NamedIs(s, tx, name);
    }
    if m.None? || m.value.deleted {
      FinishCreateSound(names, tx, name, s.currentEntry, kind, internal, on);
    } else if HasChain(s, m.value.index) {
      SoundIndex(s, m.value.index);
      FinishCreateSound(s, tx, name, m.value.index, kind, internal, on);
    }
  }

  lemma SoundIndex(s: State, index: nat)
    requires Sound(s) && index in s.entries
    ensures index < s.currentEntry
  {
  }

  lemma SoundFresh(s: State)
    requires Sound(s)
    ensures Fresh(s)
  {
  }

  lemma AlterSound(s: State, tx: Transaction, name: Name, newName: Option<Name>)
    requires Sound(s)
    ensures Sound(AlterEntry(s, tx, name, newName).state)
  {
    hide Sound, Register, NoLiveDependents, Older, NameIsTaken, CanPutMapping, Renamed;
    var found := GetEntryInternal(s, tx, name);
    if found.Found? && newName.Some? {
      var index, entry := found.index, Top(s.entries[found.index]);
      SoundIndex(s, index);
      SoundFresh(s);
      var on := Dependencies(s, entry.ref);
      OlderDependencies(s, entry.ref);
      PushSound(s, s, true, on, index, NewVersion(s, tx, newName.value, entry.kind, entry.internal));
      var names := Renamed(s, tx, index, entry.ref.name, newName.value);
      RenamedSound(s, tx, index, entry.ref.name, newName.value);
      RenamedIs(s, tx, index, entry.ref.name, newName.value);
      PushSound(s, names, true, on, index, NewVersion(s, tx, newName.value, entry.kind, entry.internal));
    }
  }

  lemma RenamedIs(s: State, tx: Transaction, index: nat, before: Name, after: Name)
    ensures Renamed(s, tx, index, before, after) == DeleteMapping(PutMapping(s, tx, after, index), tx, before)
    ensures var names := Renamed(s, tx, index, before, after);
      && names.dependents == s.dependents && names.dependencies == s.dependencies && names.currentRef == s.currentRef
      && names.currentEntry == s.currentEntry && names.entries == s.entries
  {
  }

  lemma DropSound(s: State, tx: Transaction, name: Name)
    requires Sound(s)
    ensures Sound(DropNamed(s, tx, name).state)
  {
    var result := DropNamed(s, tx, name);
    if result.pushed != [] {
      SameFresh(s, result.state);
      hide Fresh;
      forall n | n in result.state.mapping ensures Leading(result.state.mapping[n], result.state.currentEntry) {
        assert Leading(s.mapping[n], s.currentEntry);
      }
    }
  }

  /** No operation, renames and failures included, leaves the sound states. */
  lemma ApplySound(s: State, tx: Transaction, op: Op)
    requires Sound(s) && OpOk(s, op)
    ensures Sound(Apply(s, tx, op).state)
  {
    hide Sound, CreateEntry, AlterEntry, DropNamed;
    match op
    case Create(name, kind, internal, on) => CreateSound(s, tx, name, kind, internal, on);
    case Alter(name, newName) => AlterSound(s, tx, name, newName);
    case Drop(name) => DropSound(s, tx, name);
  }

  /** Where everything a transaction may write to is anchored, it writes to the chain its newest name leads to. */
  lemma GoodWritesHome(s: State, tx: Transaction, op: Op)
    requires Good(s, tx)
    ensures WritesHome(s, tx, op)
  {
    hide Fresh, Registered, Indexed, Stamped, NoLiveDependents, NameIsTaken, CanPutMapping, DependenciesLive, Reaches;
    var target := Target(s, tx, op);
    if target.Some? {
      assert AnchoredAt(s, tx, op.name) by {
        ReachesName(s, tx, op.name);
      }
      RegisteredOn(s, Top(s.entries[target.value]).ref);
    }
  }

  /** In such a state rolling back a whole run fails only for an operation that failed too late. */
  lemma {:induction false} GoodRun(s: State, tx: Transaction, ops: seq<Op>)
    requires Good(s, tx) && CleanRun(s, tx, ops)
    ensures HomeRun(s, tx, ops)
    decreases |ops|
  {
    hide Good, Apply, FailsLate, WritesHome, OpOk, Clean;
    if ops != [] {
      CleanIffNotLate(s, tx, ops[0]);
      GoodWritesHome(s, tx, ops[0]);
      ApplyGood(s, tx, ops[0]);
      GoodRun(Apply(s, tx, ops[0]).state, tx, ops[1..]);
    }
  }

  lemma FailurePushesNothing(s: State, tx: Transaction, op: Op)
    requires Apply(s, tx, op).outcome.Failed?
    ensures Apply(s, tx, op).pushed == []
  {
  }

  /** A table and a view that depends on it. */
  function TableWithView(): State {
    var table, view := Name(0, "table"), Name(0, "view");
    State(map[table := [MappingValue(0, 1, false)], view := [MappingValue(1, 1, false)]],
          map[0 := [Version(Ref(0, table), Invalid, false, 0), Version(Ref(1, table), ObjectEntry, false, 1)],
              1 := [Version(Ref(2, view), Invalid, false, 0), Version(Ref(3, view), ObjectEntry, false, 1)]],
          2, 4,
          map[Ref(1, table) := map[Ref(3, view) := true], Ref(3, view) := map[]],
          map[Ref(1, table) := {}, Ref(3, view) := {Ref(1, table)}])
  }

  /** Renaming a table that a view depends on fails, and rolling the transaction back does not free the new name. */
  lemma FailedRenameIsNotRolledBack(tx: Transaction)
    requires tx.id >= TRANSACTION_ID_START && 2 <= tx.start < TRANSACTION_ID_START
    ensures var s, op := TableWithView(), Alter(Name(0, "table"), Some(Name(0, "renamed")));
      !Restored(s, Rollback(Apply(s, tx, op).state, Apply(s, tx, op).pushed))
  {
    var s, op := TableWithView(), Alter(Name(0, "table"), Some(Name(0, "renamed")));
    var index, entry := 0, s.entries[0][1];
    assert GetMapping(s, tx, op.name) == Some(MappingValue(0, 1, false));
    assert GetEntryInternal(s, tx, op.name) == Found(0);
    assert Name(0, "renamed") !in s.mapping by {
      assert |"renamed"| == 7 && |"table"| == 5 && |"view"| == 4;
    }
    var renamed := Renamed(s, tx, 0, entry.ref.name, op.newName.value);
    assert Ref(3, Name(0, "view")) in Dependents(renamed, entry.ref);
    assert Name(0, "view") != Name(0, "table") && Name(0, "view") != Name(0, "renamed") by {
      assert |"renamed"| == 7 && |"table"| == 5 && |"view"| == 4;
    }
    assert GetEntryInternal(renamed, tx, Name(0, "view")) == Found(1);
    assert Apply(s, tx, op) == Result(renamed, Failed, []);
  }
}
