/**
 * The multi-version catalog as a value, and what every operation makes of it (src/catalog/catalog_set.cpp,
 * src/catalog/dependency_manager.cpp). The entries of all catalog sets share one table: a name carries its set.
 * Chains of versions are sequences from the oldest version to the newest.
 */
module Catalog {
  import opened Common

  // src/common/constants.cpp:13
  const TRANSACTION_ID_START: nat := 4611686018427388000

  datatype Name = Name(catalogSet: nat, text: string)

  datatype Kind = Invalid | DeletedEntry | IndexEntry | ObjectEntry

  /** The identity of a version. */
  datatype Ref = Ref(id: nat, name: Name)

  datatype Version = Version(ref: Ref, kind: Kind, internal: bool, timestamp: nat) {
    predicate Deleted() {
      kind.Invalid? || kind.DeletedEntry?
    }
  }

  datatype MappingValue = MappingValue(index: nat, timestamp: nat, deleted: bool)

  datatype Transaction = Transaction(id: nat, start: nat)

  datatype State = State(mapping: map<Name, seq<MappingValue>>, entries: map<nat, seq<Version>>, currentEntry: nat,
                         currentRef: nat, dependents: map<Ref, map<Ref, bool>>, dependencies: map<Ref, set<Ref>>)

  /** The place of a version that a transaction pushed: the version below it is what its undo buffer points to. */
  datatype Record = Record(index: nat, height: nat)

  predicate HasConflict(tx: Transaction, timestamp: nat) {
    || (timestamp >= TRANSACTION_ID_START && timestamp != tx.id)
    || (timestamp < TRANSACTION_ID_START && timestamp > tx.start)
  }

  predicate UseTimestamp(tx: Transaction, timestamp: nat) {
    timestamp == tx.id || timestamp < tx.start
  }

  function Top<T>(chain: seq<T>): T
    requires chain != []
  {
    chain[|chain| - 1]
  }

  function VisibleMapping(chain: seq<MappingValue>, tx: Transaction): MappingValue
    requires chain != []
  {
    if |chain| == 1 || UseTimestamp(tx, Top(chain).timestamp) then Top(chain)
    else VisibleMapping(chain[..|chain| - 1], tx)
  }

  function GetMapping(s: State, tx: Transaction, name: Name): Option<MappingValue> {
    if name !in s.mapping || s.mapping[name] == [] then None else Some(VisibleMapping(s.mapping[name], tx))
  }

  /** The newest version a transaction may use, or else the oldest one. */
  function VisibleVersion(chain: seq<Version>, tx: Transaction): Version
    requires chain != []
  {
    if |chain| == 1 || UseTimestamp(tx, Top(chain).timestamp) then Top(chain)
    else VisibleVersion(chain[..|chain| - 1], tx)
  }

  predicate HasChain(s: State, index: nat) {
    index in s.entries && s.entries[index] != []
  }

  /** What a transaction reads under a name. */
  function GetEntry(s: State, tx: Transaction, name: Name): Option<Version> {
    var m := GetMapping(s, tx, name);
    if m.None? || m.value.deleted || !HasChain(s, m.value.index) then None
    else
      var v := VisibleVersion(s.entries[m.value.index], tx);
      if v.Deleted() || (v.ref.name != name && !UseTimestamp(tx, m.value.timestamp)) then None else Some(v)
  }

  datatype Lookup = Missing | Found(index: nat) | Conflict

  /** The entry a transaction may write in a chain. */
  function GetEntryAt(s: State, tx: Transaction, index: nat): Lookup {
    if !HasChain(s, index) then Missing
    else if HasConflict(tx, Top(s.entries[index]).timestamp) then Conflict
    else if Top(s.entries[index]).Deleted() then Missing
    else Found(index)
  }

  function GetEntryInternal(s: State, tx: Transaction, name: Name): Lookup {
    var m := GetMapping(s, tx, name);
    if m.None? || m.value.deleted then Missing else GetEntryAt(s, tx, m.value.index)
  }

  predicate CanPutMapping(s: State, tx: Transaction, name: Name) {
    name !in s.mapping || s.mapping[name] == [] || !HasConflict(tx, Top(s.mapping[name]).timestamp)
  }

  function MappingOf(s: State, name: Name): seq<MappingValue> {
    if name in s.mapping then s.mapping[name] else []
  }

  function PushMapping(s: State, name: Name, m: MappingValue): State {
    s.(mapping := s.mapping[name := MappingOf(s, name) + [m]])
  }

  function PutMapping(s: State, tx: Transaction, name: Name, index: nat): State {
    PushMapping(s, name, MappingValue(index, tx.id, false))
  }

  /** Where the newest value of a name leads. */
  function NewestIndex(s: State, name: Name): nat {
    if MappingOf(s, name) == [] then 0 else Top(MappingOf(s, name)).index
  }

  function DeleteMapping(s: State, tx: Transaction, name: Name): State {
    PushMapping(s, name, MappingValue(NewestIndex(s, name), tx.id, true))
  }

  function PopMapping(s: State, name: Name): State {
    if name !in s.mapping then s
    else if |s.mapping[name]| > 1 then s.(mapping := s.mapping[name := s.mapping[name][..|s.mapping[name]| - 1]])
    else s.(mapping := s.mapping - {name})
  }

  function Dependents(s: State, target: Ref): map<Ref, bool> {
    if target in s.dependents then s.dependents[target] else map[]
  }

  function Dependencies(s: State, target: Ref): set<Ref> {
    if target in s.dependencies then s.dependencies[target] else {}
  }

  /** Registers an object with the objects it depends on. */
  function Register(s: State, target: Ref, cascade: bool, on: set<Ref>): State {
    var added := map d | d in s.dependents.Keys + on ::
      if d in on then Dependents(s, d)[target := cascade] else Dependents(s, d);
    s.(dependents := added[target := map[]], dependencies := s.dependencies[target := on])
  }

  /** Removes an object from the dependency maps. */
  function Erase(s: State, target: Ref): State {
    if target !in s.dependents then s
    else
      var on := Dependencies(s, target);
      var left := map d | d in s.dependents.Keys - {target} ::
        if d in on then s.dependents[d] - {target} else s.dependents[d];
      s.(dependents := left, dependencies := s.dependencies - {target})
  }

  /** The objects a new entry depends on still exist. */
  predicate DependenciesLive(s: State, tx: Transaction, on: set<Ref>) {
    forall d | d in on :: GetEntryInternal(s, tx, d.name).Found?
  }

  /** No live entry depends on an object. */
  predicate NoLiveDependents(s: State, tx: Transaction, target: Ref) {
    forall d | d in Dependents(s, target) :: GetEntryInternal(s, tx, d.name).Missing?
  }

  /** Puts a version on top of a chain. */
  function Push(s: State, index: nat, v: Version): State {
    s.(entries := s.entries[index := (if index in s.entries then s.entries[index] else []) + [v]],
       currentRef := s.currentRef + 1)
  }

  datatype Outcome = Success | NotDone | Failed

  datatype Result = Result(state: State, outcome: Outcome, pushed: seq<Record>)

  function Height(s: State, index: nat): nat {
    if index in s.entries then |s.entries[index]| else 0
  }

  function NewVersion(s: State, tx: Transaction, name: Name, kind: Kind, internal: bool): Version {
    Version(Ref(s.currentRef, name), kind, internal, tx.id)
  }

  /** Adds the new entry to the dependency maps and on top of its chain. */
  function FinishCreate(s: State, tx: Transaction, name: Name, index: nat, kind: Kind, internal: bool,
                        on: set<Ref>): Result
  {
    if !DependenciesLive(s, tx, on) then Result(s, Failed, [])
    else
      var v := NewVersion(s, tx, name, kind, internal);
      Result(Push(Register(s, v.ref, !kind.IndexEntry?, on), index, v), Success, [Record(index, Height(s, index))])
  }

  /** A name that was never used gets a chain that starts with a deleted version. */
  function StartChain(s: State, name: Name): State {
    var dummy := Version(Ref(s.currentRef, name), Invalid, false, 0);
    s.(entries := s.entries[s.currentEntry := [dummy]], currentEntry := s.currentEntry + 1,
       currentRef := s.currentRef + 1)
  }

  function CreateEntry(s: State, tx: Transaction, name: Name, kind: Kind, internal: bool, on: set<Ref>): Result {
    var m := GetMapping(s, tx, name);
    if m.None? || m.value.deleted then
      var s1 := StartChain(s, name);
      if !CanPutMapping(s1, tx, name) then Result(s1, Failed, [])
      else FinishCreate(PutMapping(s1, tx, name, s.currentEntry), tx, name, s.currentEntry, kind, internal, on)
    else if !HasChain(s, m.value.index) then Result(s, Failed, [])
    else
      var current := Top(s.entries[m.value.index]);
      if HasConflict(tx, current.timestamp) then Result(s, Failed, [])
      else if !current.Deleted() then Result(s, NotDone, [])
      else FinishCreate(s, tx, name, m.value.index, kind, internal, on)
  }

  /** The new name of a renamed entry must not be taken. */
  predicate NameIsTaken(s: State, tx: Transaction, name: Name) {
    var m := GetMapping(s, tx, name);
    m.Some? && !m.value.deleted && HasChain(s, m.value.index) && !VisibleVersion(s.entries[m.value.index], tx).Deleted()
  }

  function FinishAlter(s: State, tx: Transaction, index: nat, current: Version, newName: Name): Result {
    if !NoLiveDependents(s, tx, current.ref) then Result(s, Failed, [])
    else
      var v := NewVersion(s, tx, newName, current.kind, current.internal);
      Result(Push(Register(s, v.ref, true, Dependencies(s, current.ref)), index, v), Success,
             [Record(index, Height(s, index))])
  }

  /** Replaces an entry by an altered version, perhaps under another name; None if the alteration changes nothing. */
  function AlterEntry(s: State, tx: Transaction, name: Name, newName: Option<Name>): Result {
    var found := GetEntryInternal(s, tx, name);
    if found.Missing? then Result(s, NotDone, [])
    else if found.Conflict? then Result(s, Failed, [])
    else
      var entry := Top(s.entries[found.index]);
      if entry.internal then Result(s, Failed, [])
      else if newName.None? then Result(s, Success, [])
      else if newName.value == entry.ref.name then FinishAlter(s, tx, found.index, entry, newName.value)
      else if NameIsTaken(s, tx, newName.value) || !CanPutMapping(s, tx, newName.value) then Result(s, Failed, [])
      else
        var s1 := DeleteMapping(PutMapping(s, tx, newName.value, found.index), tx, entry.ref.name);
        FinishAlter(s1, tx, found.index, entry, newName.value)
  }

  /** Puts a deletion on top of a chain. */
  function DropVersion(s: State, tx: Transaction, index: nat): State
    requires HasChain(s, index)
  {
    Push(s, index, NewVersion(s, tx, Top(s.entries[index]).ref.name, DeletedEntry, false))
  }

  /** Stamps a version and its name. */
  function UpdateTimestamp(s: State, index: nat, height: nat, timestamp: nat): State
    requires height < Height(s, index)
  {
    var chain := s.entries[index];
    var v := chain[height].(timestamp := timestamp);
    var names := MappingOf(s, v.ref.name);
    var s1 := s.(entries := s.entries[index := chain[height := v]]);
    if names == [] then s1
    else s1.(mapping := s.mapping[v.ref.name := names[|names| - 1 := Top(names).(timestamp := timestamp)]])
  }

  predicate RecordOk(s: State, r: Record) {
    0 < r.height < Height(s, r.index)
  }

  /**
   * Takes back one pushed version. The version below a top version is found again by the newest value of its name: if
   * that leads to another chain, the older versions replace that chain and the version stays behind alone.
   */
  function Undo(s: State, r: Record): State
    requires RecordOk(s, r)
  {
    var chain := s.entries[r.index];
    var entry, removed := chain[r.height - 1], chain[r.height];
    var s1 := if removed.Deleted() then s else Erase(s, removed.ref);
    var s2 := if entry.ref.name == removed.ref.name then s1 else PopMapping(s1, removed.ref.name);
    var names := MappingOf(s2, entry.ref.name);
    var s3 :=
      if r.height < |chain| - 1 then s2.(entries := s2.entries[r.index := chain[..r.height] + chain[r.height + 1..]])
      else if names == [] then s2
      else s2.(entries := s2.entries[r.index := [removed]][Top(names).index := chain[..r.height]]);
    if names != [] && (Top(names).deleted || entry.kind.Invalid?) then PopMapping(s3, entry.ref.name) else s3
  }
}
