/**
 * What a committed rename does to transactions that began before it: it stamps the renamed version as well, so that
 * they no longer see it (src/catalog/catalog_set.cpp:103-161, 375-378; src/transaction/commit_state.cpp:168-183).
 */
module CatalogRenames {
  import opened Catalog
  import opened CatalogCascades
  import opened CatalogRollback
  import opened CatalogRuns
  import opened Common

  /** The values of a name, the newest one perhaps with another stamp. */
  ghost predicate TopStamped(names: seq<MappingValue>, c: nat, names': seq<MappingValue>) {
    && |names'| == |names|
    && (names != [] ==>
        && names'[..|names| - 1] == names[..|names| - 1]
        && (Top(names') == Top(names) || Top(names') == Top(names).(timestamp := c)))
  }

  ghost predicate NamesStamped(s: State, c: nat, s': State) {
    && (forall n :: n in s'.mapping <==> n in s.mapping)
    && (forall n | n in s.mapping :: TopStamped(s.mapping[n], c, s'.mapping[n]))
  }

  lemma UpdateNames(s: State, s1: State, i: nat, h: nat, c: nat)
    requires h < Height(s1, i) && NamesStamped(s, c, s1)
    ensures NamesStamped(s, c, UpdateTimestamp(s1, i, h, c))
  {
    var s2 := UpdateTimestamp(s1, i, h, c);
    forall n | n in s.mapping ensures n in s2.mapping && TopStamped(s.mapping[n], c, s2.mapping[n]) {
      assert TopStamped(s.mapping[n], c, s1.mapping[n]);
    }
  }

  lemma UpdateKeepsHeight(s: State, i: nat, h: nat, c: nat)
    requires h < Height(s, i)
    ensures Height(UpdateTimestamp(s, i, h, c), i) == Height(s, i)
  {
  }

  lemma CommitOneNames(s: State, s1: State, r: Record, c: nat)
    requires NamesStamped(s, c, s1)
    ensures NamesStamped(s, c, CommitRecord(s1, r, c))
  {
    hide NamesStamped, UpdateTimestamp;
    if RecordOk(s1, r) {
      UpdateNames(s, s1, r.index, r.height, c);
      UpdateKeepsHeight(s1, r.index, r.height, c);
      UpdateNames(s, UpdateTimestamp(s1, r.index, r.height, c), r.index, r.height - 1, c);
    }
  }

  /** Committing changes nothing of a name but the stamp of its newest value. */
  lemma {:induction false} CommitAllNames(s: State, records: seq<Record>, c: nat)
    ensures NamesStamped(s, c, CommitAll(s, records, c))
  {
    hide CommitRecord;
    if records != [] {
      CommitAllNames(s, records[..|records| - 1], c);
      CommitOneNames(s, CommitAll(s, records[..|records| - 1], c), records[|records| - 1], c);
    }
  }

  /** A record of a version that did not rename. */
  ghost predicate PlainRecord(s: State, r: Record) {
    RecordOk(s, r) && s.entries[r.index][r.height - 1].ref.name == s.entries[r.index][r.height].ref.name
  }

  lemma PlainCommit(s: State, done: seq<Record>, c: nat, s1: State, r: Record)
    requires EntriesStamped(s, done, c, s1) && PlainRecord(s, r)
    ensures EntriesStamped(s, done + [r], c, CommitRecord(s1, r, c))
  {
    assert ChainStamped(s.entries[r.index], r.index, done, c, s1.entries[r.index]);
    var chain1 := s1.entries[r.index];
    assert chain1[r.height - 1].ref == s.entries[r.index][r.height - 1].ref;
    assert CommitRecord(s1, r, c) == UpdateTimestamp(s1, r.index, r.height, c);
    hide EntriesStamped;
    UpdateStamps(s, done, c, s1, r, UpdateTimestamp(s1, r.index, r.height, c));
  }

  /** Committing versions that did not rename stamps exactly those. */
  lemma {:induction false} PlainCommits(s: State, records: seq<Record>, c: nat)
    requires forall x | 0 <= x < |records| :: PlainRecord(s, records[x])
    ensures EntriesStamped(s, records, c, CommitAll(s, records, c))
  {
    hide CommitRecord, PlainRecord;
    if records != [] {
      var rest, r := records[..|records| - 1], records[|records| - 1];
      PlainCommits(s, rest, c);
      PlainCommit(s, rest, c, CommitAll(s, rest, c), r);
      assert records == rest + [r];
    }
  }

  /** The catalog after a rename of the entry in chain `i` from `n` to `m` by one transaction. */
  ghost predicate RenamedBy(s: State, tx: Transaction, i: nat, n: Name, m: Name, v: Version, s1: State) {
    && n != m && n in s.mapping && |s.mapping[n]| == 1 && s.mapping[n][0].index == i && !s.mapping[n][0].deleted
    && HasChain(s, i) && v.timestamp == tx.id && v.ref.name == m && !Top(s.entries[i]).Deleted()
    && s1.entries == s.entries[i := s.entries[i] + [v]]
    && s1.mapping == s.mapping[m := MappingOf(s, m) + [MappingValue(i, tx.id, false)]]
                              [n := s.mapping[n] + [MappingValue(i, tx.id, true)]]
  }

  lemma RenameEffect(s: State, starts: map<nat, nat>, clock: nat, tx: Transaction, n: Name, m: Name)
    returns (i: nat, v: Version)
    requires ChainsOk(s, starts, clock) && n != m && AlterEntry(s, tx, n, Some(m)).outcome.Success?
    ensures var result := AlterEntry(s, tx, n, Some(m));
      RenamedBy(s, tx, i, n, m, v, result.state) && result.pushed == [Record(i, |s.entries[i]|)]
  {
    MappingFound(s, starts, clock, tx, n);
    i := s.mapping[n][0].index;
    var top := Top(s.entries[i]);
    TopName(s, starts, clock, i);
    v := NewVersion(s, tx, m, top.kind, top.internal);
    RenamedNames(s, tx, i, n, m);
    RegisterKeeps(Renamed(s, tx, i, n, m), v.ref, true, Dependencies(s, top.ref));
    RenamedIs(s, tx, i, n, m);
    hide Register, NoLiveDependents, NameIsTaken, CanPutMapping, ChainsOk, ChainOk;
  }

  /**
   * A committed chain whose top renamed: the versions of the transaction and the renamed one carry the commit stamp.
   */
  ghost predicate RenameCommitted(chain: seq<Version>, id: nat, c: nat, chain': seq<Version>) {
    && |chain| > 1 && |chain'| == |chain| + 1
    && chain'[|chain|].timestamp == c && chain'[|chain| - 1] == chain[|chain| - 1].(timestamp := c)
    && Committed(chain[..|chain| - 1], id, c, chain'[..|chain| - 1])
  }

  /** The records of a transaction that has not renamed are plain after its rename too. */
  lemma RecordsArePlain(s: State, starts: map<nat, nat>, clock: nat, id: nat, undo: seq<Record>, i: nat, v: Version,
                        s1: State)
    requires ChainsOk(s, starts, clock) && UndoOk(s, id, undo) && HasChain(s, i)
    requires s1.entries == s.entries[i := s.entries[i] + [v]]
    ensures forall x | 0 <= x < |undo| :: PlainRecord(s1, undo[x])
  {
    forall x | 0 <= x < |undo| ensures PlainRecord(s1, undo[x]) {
      var r := undo[x];
      assert Owned(s, id, r.index, r.height) && ChainOk(s.entries[r.index], starts, clock);
    }
  }

  /** The other chains after the commit. */
  lemma OtherChain(s: State, starts: map<nat, nat>, clock: nat, id: nat, undo: seq<Record>, i: nat, v: Version,
                   s1: State, c: nat, s2: State, j: nat)
    requires ChainsOk(s, starts, clock) && UndoOk(s, id, undo) && HasChain(s, i) && id > 0
    requires s1.entries == s.entries[i := s.entries[i] + [v]] && EntriesStamped(s1, undo, c, s2)
    requires j in s.entries && j != i
    ensures j in s2.entries && Committed(s.entries[j], id, c, s2.entries[j])
  {
    var chain := s.entries[j];
    assert ChainOk(chain, starts, clock) && ChainStamped(s1.entries[j], j, undo, c, s2.entries[j]);
    forall h | 0 <= h < |chain| ensures Record(j, h) in undo <==> chain[h].timestamp == id {
      RecordedIffOwned(s, starts, clock, id, undo, j, h);
    }
  }

  lemma RecordedIffOwned(s: State, starts: map<nat, nat>, clock: nat, id: nat, undo: seq<Record>, j: nat, h: nat)
    requires ChainsOk(s, starts, clock) && UndoOk(s, id, undo) && id > 0 && j in s.entries
    ensures Record(j, h) in undo <==> h < |s.entries[j]| && s.entries[j][h].timestamp == id
  {
    assert ChainOk(s.entries[j], starts, clock);
    if Record(j, h) in undo {
      var x :| 0 <= x < |undo| && undo[x] == Record(j, h);
      assert Owned(s, id, undo[x].index, undo[x].height);
    }
    if h < |s.entries[j]| && s.entries[j][h].timestamp == id {
      assert Owned(s, id, j, h);
    }
  }

  lemma ThisChain(s: State, starts: map<nat, nat>, clock: nat, id: nat, undo: seq<Record>, i: nat, v: Version,
                  s1: State, c: nat, s2: State)
    requires ChainsOk(s, starts, clock) && UndoOk(s, id, undo) && HasChain(s, i) && id > 0 && |s.entries[i]| > 1
    requires s1.entries == s.entries[i := s.entries[i] + [v]] && EntriesStamped(s1, undo, c, s2)
    ensures i in s2.entries && |s2.entries[i]| == |s.entries[i]| + 1 && s2.entries[i][|s.entries[i]|] == v
    ensures Committed(s.entries[i], id, c, s2.entries[i][..|s.entries[i]|])
  {
    var chain, chain2 := s.entries[i], s2.entries[i];
    assert ChainStamped(s1.entries[i], i, undo, c, chain2);
    RecordedIffOwned(s, starts, clock, id, undo, i, |chain|);
    forall h | 0 <= h < |chain| ensures chain2[h] == Stamp(chain[h], chain[h].timestamp == id, c) {
      RecordedIffOwned(s, starts, clock, id, undo, i, h);
      assert s1.entries[i][h] == chain[h];
    }
  }

  /** Committing the renaming version stamps it and the version below. */
  lemma CommitRename(chain: seq<Version>, id: nat, c: nat, s2: State, i: nat, v: Version)
    requires |chain| > 1 && i in s2.entries && |s2.entries[i]| == |chain| + 1 && s2.entries[i][|chain|] == v
    requires Committed(chain, id, c, s2.entries[i][..|chain|]) && chain[|chain| - 1].ref.name != v.ref.name
    ensures var s3 := CommitRecord(s2, Record(i, |chain|), c);
      && i in s3.entries && RenameCommitted(chain, id, c, s3.entries[i])
      && forall j | j in s2.entries && j != i :: j in s3.entries && s3.entries[j] == s2.entries[j]
  {
    var h, chain2 := |chain|, s2.entries[i];
    var before := chain2[..h];
    assert before[h - 1] == Stamp(chain[h - 1], chain[h - 1].timestamp == id, c);
    assert chain2[h - 1] == before[h - 1];
    var s3 := CommitRecord(s2, Record(i, h), c);
    var chain3 := s3.entries[i];
    assert chain3 == chain2[h := v.(timestamp := c)][h - 1 := chain2[h - 1].(timestamp := c)];
    var low, low3 := chain[..h - 1], chain3[..h - 1];
    forall k | 0 <= k < h - 1 ensures low3[k] == Stamp(low[k], low[k].timestamp == id, c) {
      assert low3[k] == chain2[k] == before[k];
    }
  }

  /** What a transaction sees in a chain whose renaming was committed after the transaction began. */
  lemma RenameVisible(chain: seq<Version>, id: nat, c: nat, chain': seq<Version>, tx: Transaction)
    requires RenameCommitted(chain, id, c, chain') && chain[0].timestamp != id
    requires !UseTimestamp(tx, id) && !UseTimestamp(tx, c)
    ensures VisibleVersion(chain', tx) == VisibleVersion(chain[..|chain| - 1], tx)
  {
    var h := |chain|;
    var below := chain'[..h];
    assert VisibleVersion(chain', tx) == VisibleVersion(below, tx);
    assert Top(below) == chain'[h - 1] && below[..h - 1] == chain'[..h - 1];
    assert VisibleVersion(below, tx) == VisibleVersion(chain'[..h - 1], tx);
    CommitVisible(chain[..h - 1], id, c, chain'[..h - 1], tx);
  }

  /** The catalog after a transaction renamed an entry and committed. */
  ghost predicate CommittedRename(s: State, s1: State, id: nat, c: nat, i: nat, s3: State) {
    && HasChain(s, i) && i in s3.entries && RenameCommitted(s.entries[i], id, c, s3.entries[i])
    && (forall j | j in s.entries && j != i :: j in s3.entries && Committed(s.entries[j], id, c, s3.entries[j]))
    && NamesStamped(s1, c, s3)
  }

  lemma CommitsRename(s: State, starts: map<nat, nat>, clock: nat, tx: Transaction, undo: seq<Record>, i: nat, n: Name,
                      m: Name, v: Version, s1: State, c: nat)
    requires ChainsOk(s, starts, clock) && UndoOk(s, tx.id, undo) && RenamedBy(s, tx, i, n, m, v, s1) && tx.id > 0
    ensures CommittedRename(s, s1, tx.id, c, i, CommitAll(s1, undo + [Record(i, |s.entries[i]|)], c))
  {
    var chain, r := s.entries[i], Record(i, |s.entries[i]|);
    assert ChainOk(chain, starts, clock);
    TopName(s, starts, clock, i);
    MappingFound(s, starts, clock, tx, n);
    RecordsArePlain(s, starts, clock, tx.id, undo, i, v, s1);
    var s2 := CommitAll(s1, undo, c);
    PlainCommits(s1, undo, c);
    ThisChain(s, starts, clock, tx.id, undo, i, v, s1, c, s2);
    forall j | j in s.entries && j != i ensures j in s2.entries && Committed(s.entries[j], tx.id, c, s2.entries[j]) {
      OtherChain(s, starts, clock, tx.id, undo, i, v, s1, c, s2, j);
    }
    hide ChainsOk, UndoOk, EntriesStamped, CommitRecord, Committed, NamesStamped, RenameCommitted;
    var all := undo + [r];
    assert all[..|all| - 1] == undo && CommitAll(s1, all, c) == CommitRecord(s2, r, c);
    CommitRename(chain, tx.id, c, s2, i, v);
    CommitAllNames(s1, all, c);
  }

  /** A transaction that began before the commit sees in the other chains what it saw. */
  lemma OtherView(s: State, starts: map<nat, nat>, clock: nat, s1: State, id: nat, c: nat, i: nat, s3: State, j: nat,
                  reader: Transaction)
    requires ChainsOk(s, starts, clock) && CommittedRename(s, s1, id, c, i, s3) && id >= TRANSACTION_ID_START
    requires j in s.entries && j != i && !UseTimestamp(reader, id) && !UseTimestamp(reader, c)
    ensures j in s3.entries && s3.entries[j] != []
    ensures VisibleVersion(s3.entries[j], reader) == VisibleVersion(s.entries[j], reader)
    ensures VisibleVersion(s.entries[j], reader).ref.name == s.entries[j][0].ref.name
  {
    assert ChainOk(s.entries[j], starts, clock);
    CommitVisible(s.entries[j], id, c, s3.entries[j], reader);
    VisibleHasName(s.entries[j], starts, clock, reader);
  }

  lemma ThisView(s: State, starts: map<nat, nat>, clock: nat, s1: State, id: nat, c: nat, i: nat, s3: State,
                 reader: Transaction)
    requires ChainsOk(s, starts, clock) && CommittedRename(s, s1, id, c, i, s3) && id >= TRANSACTION_ID_START
    requires !UseTimestamp(reader, id) && !UseTimestamp(reader, c)
    ensures |s.entries[i]| > 1 && s3.entries[i] != []
    ensures var below := s.entries[i][..|s.entries[i]| - 1];
      && VisibleVersion(s3.entries[i], reader) == VisibleVersion(below, reader)
      && VisibleVersion(below, reader).ref.name == s.entries[i][0].ref.name
  {
    var chain := s.entries[i];
    assert ChainOk(chain, starts, clock);
    RenameVisible(chain, id, c, s3.entries[i], reader);
    PrefixOk(chain, starts, clock);
    VisibleHasName(chain[..|chain| - 1], starts, clock, reader);
  }

  /** What the name of an entry leads an older transaction to after a rename of another one. */
  lemma NameView(s: State, starts: map<nat, nat>, clock: nat, tx: Transaction, i: nat, n: Name, m: Name, v: Version,
                 s1: State, c: nat, s3: State, reader: Transaction, k: Name)
    requires ChainsOk(s, starts, clock) && RenamedBy(s, tx, i, n, m, v, s1) && NamesStamped(s1, c, s3)
    requires !UseTimestamp(reader, tx.id) && !UseTimestamp(reader, c)
    ensures k in s.mapping ==> NameOk(s, k) && GetMapping(s, reader, k) == Some(s.mapping[k][0])
    ensures k in s.mapping ==>
      && GetMapping(s3, reader, k).Some?
      && GetMapping(s3, reader, k).value.index == s.mapping[k][0].index && !GetMapping(s3, reader, k).value.deleted
    ensures k !in s.mapping && k != m ==> GetMapping(s3, reader, k) == None
    ensures k !in s.mapping && k == m ==>
      && GetMapping(s3, reader, k).Some? && GetMapping(s3, reader, k).value.index == i
      && !UseTimestamp(reader, GetMapping(s3, reader, k).value.timestamp)
  {
    MappingFound(s, starts, clock, reader, k);
    if k in s1.mapping {
      assert TopStamped(s1.mapping[k], c, s3.mapping[k]);
      hide NamesStamped, ChainsOk;
      var names := s3.mapping[k];
      if |names| == 2 {
        assert names[..1] == [names[0]] && s1.mapping[k][..1] == [s1.mapping[k][0]];
        assert VisibleMapping(names, reader) == names[0];
      }
    }
  }

  /** The renamed entry: gone for a reader that saw it, and as it was for one that did not. */
  lemma RenamedView(s: State, starts: map<nat, nat>, clock: nat, tx: Transaction, i: nat, n: Name, m: Name, v: Version,
                    s1: State, c: nat, s3: State, reader: Transaction)
    requires ChainsOk(s, starts, clock) && Ascending(s) && RenamedBy(s, tx, i, n, m, v, s1)
    requires CommittedRename(s, s1, tx.id, c, i, s3)
    requires tx.id >= TRANSACTION_ID_START && !UseTimestamp(reader, tx.id) && !UseTimestamp(reader, c)
    ensures GetEntry(s3, reader, n) == GetEntry(s, reader, n) <==> !UseTimestamp(reader, Top(s.entries[i]).timestamp)
  {
    NameView(s, starts, clock, tx, i, n, m, v, s1, c, s3, reader, n);
    ThisView(s, starts, clock, s1, tx.id, c, i, s3, reader);
    var chain := s.entries[i];
    var below := chain[..|chain| - 1];
    assert ChainOk(chain, starts, clock) && IdsRise(chain, s.currentRef);
    TopName(s, starts, clock, i);
    var h := VisibleAt(below, reader);
    assert below[h] == chain[h];
    hide ChainsOk, ChainOk, NamesStamped, CommittedRename, IdsRise, RenamedBy, Ascending;
    assert chain[h].ref.id < Top(chain).ref.id by {
      IdsRisePair(chain, s.currentRef, h, |chain| - 1);
    }
    assert VisibleVersion(chain, reader) ==
           if UseTimestamp(reader, Top(chain).timestamp) then Top(chain) else VisibleVersion(below, reader);
  }

  lemma IdsRisePair(chain: seq<Version>, n: nat, h: nat, k: nat)
    requires IdsRise(chain, n) && h < k < |chain|
    ensures chain[h].ref.id < chain[k].ref.id
  {
  }

  lemma UnrenamedView(s: State, starts: map<nat, nat>, clock: nat, tx: Transaction, i: nat, n: Name, m: Name,
                      v: Version, s1: State, c: nat, s3: State, reader: Transaction, k: Name)
    requires ChainsOk(s, starts, clock) && RenamedBy(s, tx, i, n, m, v, s1) && CommittedRename(s, s1, tx.id, c, i, s3)
    requires k != n
    requires tx.id >= TRANSACTION_ID_START && !UseTimestamp(reader, tx.id) && !UseTimestamp(reader, c)
    ensures GetEntry(s3, reader, k) == GetEntry(s, reader, k)
  {
    NameView(s, starts, clock, tx, i, n, m, v, s1, c, s3, reader, k);
    MappingFound(s, starts, clock, reader, n);
    if k in s.mapping {
      var j := s.mapping[k][0].index;
      assert j != i;
      OtherView(s, starts, clock, s1, tx.id, c, i, s3, j, reader);
    } else if k == m {
      ThisView(s, starts, clock, s1, tx.id, c, i, s3, reader);
    }
  }

  lemma RenameView(s: State, starts: map<nat, nat>, clock: nat, tx: Transaction, undo: seq<Record>, n: Name, m: Name,
                   reader: Transaction, k: Name)
    requires ChainsOk(s, starts, clock) && Ascending(s) && UndoOk(s, tx.id, undo) && tx.id >= TRANSACTION_ID_START
    requires n != m && AlterEntry(s, tx, n, Some(m)).outcome.Success?
    requires !UseTimestamp(reader, tx.id) && !UseTimestamp(reader, clock)
    ensures GetEntry(RenameCommit(s, tx, undo, n, m, clock), reader, k) == GetEntry(s, reader, k) <==>
            k == n ==> !SeesNewest(s, reader, n)
  {
    var result := AlterEntry(s, tx, n, Some(m));
    MappingFound(s, starts, clock, tx, n);
    hide ChainsOk, UndoOk, AlterEntry, CommitAll, CommittedRename, GetEntry, Ascending, UseTimestamp;
    var i, v := RenameEffect(s, starts, clock, tx, n, m);
    CommitsRename(s, starts, clock, tx, undo, i, n, m, v, result.state, clock);
    var s3 := RenameCommit(s, tx, undo, n, m, clock);
    if k == n {
      RenamedView(s, starts, clock, tx, i, n, m, v, result.state, clock, s3, reader);
    } else {
      UnrenamedView(s, starts, clock, tx, i, n, m, v, result.state, clock, s3, reader, k);
    }
  }

  /** A transaction renames an entry and then commits that and what it did before. */
  function RenameCommit(s: State, tx: Transaction, undo: seq<Record>, n: Name, m: Name, c: nat): State {
    var result := AlterEntry(s, tx, n, Some(m));
    CommitAll(result.state, undo + result.pushed, c)
  }

  /** The newest version under a name is one that a transaction may use. */
  predicate SeesNewest(s: State, tx: Transaction, n: Name) {
    n in s.mapping && s.mapping[n] != [] && HasChain(s, Top(s.mapping[n]).index) &&
    UseTimestamp(tx, Top(s.entries[Top(s.mapping[n]).index]).timestamp)
  }

  /** The steps of a transaction that renames an entry and commits. */
  function Renaming(y: System, writer: nat, n: Name, m: Name): System
    requires Ready(y, Commit(writer))
  {
    Next(Work(y, writer, Alter(n, Some(m))), Commit(writer))
  }

  /**
   * After a transaction renames an entry and commits, a transaction that began earlier reads under every name what it
   * read before, except under the old name of the entry, where it does exactly if it did not see the version that was
   * renamed.
   */
  lemma RenameKeepsViewIff(y: System, writer: nat, reader: nat, n: Name, m: Name, k: Name)
    requires Ready(y, Commit(writer)) && reader in y.starts && reader != writer && Inv(y) && ByAge(y.catalog)
    requires n != m && AlterEntry(y.catalog, TxOf(y, writer), n, Some(m)).outcome.Success?
    ensures GetEntry(Renaming(y, writer, n, m).catalog, TxOf(y, reader), k) ==
            GetEntry(y.catalog, TxOf(y, reader), k) <==>
            k == n ==> !SeesNewest(y.catalog, TxOf(y, reader), n)
  {
    hide ChainsOk, UndoOk, AlterEntry, CommitAll, GetEntry, Fresh, Present, Ascending, SeesNewest;
    assert RunningOk(y, writer) && RunningOk(y, reader);
    RenameView(y.catalog, y.starts, y.clock, TxOf(y, writer), y.undo[writer], n, m, TxOf(y, reader), k);
  }

  /** A committed table. */
  function CommittedTable(): State {
    var table := Name(0, "table");
    State(map[table := [MappingValue(0, 1, false)]],
          map[0 := [Version(Ref(0, table), Invalid, false, 0), Version(Ref(1, table), ObjectEntry, false, 1)]],
          1, 2, map[Ref(1, table) := map[]], map[Ref(1, table) := {}])
  }

  /** A reader loses a table that another transaction renames and commits, although the reader began before. */
  lemma CommittedRenameBreaksSnapshot(reader: Transaction, writer: Transaction, c: nat)
    requires TRANSACTION_ID_START <= reader.id && TRANSACTION_ID_START <= writer.id && reader.id != writer.id
    requires 1 < reader.start < c < TRANSACTION_ID_START && 1 < writer.start < c
    ensures var s, table := CommittedTable(), Name(0, "table");
      var result := AlterEntry(s, writer, table, Some(Name(0, "renamed")));
      && result.outcome.Success? && GetEntry(s, reader, table).Some?
      && GetEntry(result.state, reader, table) == GetEntry(s, reader, table)
      && GetEntry(CommitAll(result.state, result.pushed, c), reader, table) == None
  {
    var s, table, other := CommittedTable(), Name(0, "table"), Name(0, "renamed");
    assert |"renamed"| == 7 && |"table"| == 5;
    assert table != other;
    var entry := s.entries[0][1];
    var names := Renamed(s, writer, 0, table, other);
    var v := NewVersion(names, writer, other, ObjectEntry, false);
    assert GetMapping(s, writer, table) == Some(MappingValue(0, 1, false));
    assert GetEntryInternal(s, writer, table) == Found(0);
    RegisterKeeps(names, v.ref, true, {});
    var s1 := Push(Register(names, v.ref, true, {}), 0, v);
    assert AlterEntry(s, writer, table, Some(other)) == Result(s1, Success, [Record(0, 2)]);
    RenameSeen(s1, reader, writer, table, other, v, c);
  }

  lemma CommitOne(s: State, r: Record, c: nat)
    ensures CommitAll(s, [r], c) == CommitRecord(s, r, c)
  {
    var records := [r];
    assert records[..0] == [] && CommitAll(s, [], c) == s;
  }

  lemma RenameSeen(s1: State, reader: Transaction, writer: Transaction, table: Name, other: Name, v: Version, c: nat)
    requires TRANSACTION_ID_START <= reader.id && TRANSACTION_ID_START <= writer.id && reader.id != writer.id
    requires table != other
    requires 1 < reader.start < c < TRANSACTION_ID_START && v.timestamp == writer.id && v.ref.name == other
    requires table in s1.mapping && other in s1.mapping && 0 in s1.entries
    requires s1.mapping[table] == [MappingValue(0, 1, false), MappingValue(0, writer.id, true)]
    requires s1.mapping[other] == [MappingValue(0, writer.id, false)]
    requires s1.entries[0] ==
             [Version(Ref(0, table), Invalid, false, 0), Version(Ref(1, table), ObjectEntry, false, 1), v]
    ensures GetEntry(s1, reader, table) == Some(s1.entries[0][1])
    ensures GetEntry(CommitAll(s1, [Record(0, 2)], c), reader, table) == None
  {
    var chain, names := s1.entries[0], s1.mapping[table];
    assert names[..1] == [names[0]];
    assert VisibleMapping(names, reader) == names[0];
    assert chain[..2] == [chain[0], chain[1]];
    assert VisibleVersion(chain, reader) == VisibleVersion(chain[..2], reader) == chain[1];
    var s2 := CommitAll(s1, [Record(0, 2)], c);
    CommitOne(s1, Record(0, 2), c);
    var chain', names' := s2.entries[0], s2.mapping[table];
    assert chain' == [chain[0], chain[1].(timestamp := c), v.(timestamp := c)];
    assert names' == [names[0], names[1].(timestamp := c)];
    assert names'[..1] == [names[0]];
    assert VisibleMapping(names', reader) == names[0];
    assert chain'[..2] == [chain[0], chain'[1]] && chain'[..2][..1] == [chain[0]];
    assert VisibleVersion(chain', reader) == VisibleVersion(chain'[..2], reader) == chain[0];
  }

  /** A committed table `a`, and the chain of a table `b` whose drop was committed at 3. */
  function TableAndDropped(): State {
    var a, b := Name(0, "a"), Name(0, "b");
    State(map[a := [MappingValue(0, 1, false)], b := [MappingValue(1, 3, false)]],
          map[0 := [Version(Ref(0, a), Invalid, false, 0), Version(Ref(1, a), ObjectEntry, false, 1)],
              1 := [Version(Ref(2, b), Invalid, false, 0), Version(Ref(3, b), ObjectEntry, false, 1),
                    Version(Ref(4, b), DeletedEntry, false, 3)]],
          2, 5, map[Ref(1, a) := map[], Ref(3, b) := map[]], map[Ref(1, a) := {}, Ref(3, b) := {}])
  }

  /** That catalog, with more on the chain of the dropped table. */
  ghost predicate HasDropped(s: State, more: seq<Version>) {
    && s.mapping == TableAndDropped().mapping && 0 in s.entries && 1 in s.entries
    && s.entries[0] == TableAndDropped().entries[0] && s.entries[1] == TableAndDropped().entries[1] + more
    && Dependents(s, Ref(1, Name(0, "a"))) == map[]
  }

  /** The same after another transaction renamed `a` to `b` and committed at 6. */
  ghost predicate TookName(s: State, more: seq<Version>) {
    var a, b := Name(0, "a"), Name(0, "b");
    && b in s.mapping && s.mapping[b] == [MappingValue(1, 3, false), MappingValue(0, 6, false)]
    && 0 in s.entries && 1 in s.entries && s.entries[1] == TableAndDropped().entries[1] + more
    && |s.entries[0]| == 3 && s.entries[0][2].ref.name == b && s.entries[0][2].timestamp == 6
    && s.entries[0][2].kind.ObjectEntry?
  }

  /** What another transaction has put on the chain of the dropped table does not make its name taken. */
  lemma DroppedIsFree(s: State, writer: Transaction, more: seq<Version>)
    requires TRANSACTION_ID_START <= writer.id && writer.start == 5 && HasDropped(s, more)
    requires more == [] || (|more| == 1 && more[0].timestamp >= TRANSACTION_ID_START && more[0].timestamp != writer.id)
    ensures !NameIsTaken(s, writer, Name(0, "b")) && CanPutMapping(s, writer, Name(0, "b"))
  {
    var chain := s.entries[1];
    assert "a"[0] == 'a' && "b"[0] == 'b';
    assert GetMapping(s, writer, Name(0, "b")) == Some(MappingValue(1, 3, false));
    if more != [] {
      assert chain[..|chain| - 1] == TableAndDropped().entries[1];
    }
    assert VisibleVersion(chain, writer) == TableAndDropped().entries[1][2];
  }

  lemma RenameToDropped(s: State, writer: Transaction, more: seq<Version>)
    requires TRANSACTION_ID_START <= writer.id && writer.start == 5 && HasDropped(s, more)
    requires more == [] || (|more| == 1 && more[0].timestamp >= TRANSACTION_ID_START && more[0].timestamp != writer.id)
    ensures AlterEntry(s, writer, Name(0, "a"), Some(Name(0, "b"))).outcome.Success?
    ensures TookName(RenameCommit(s, writer, [], Name(0, "a"), Name(0, "b"), 6), more)
  {
    DroppedIsFree(s, writer, more);
    hide NameIsTaken, CanPutMapping;
    var a, b := Name(0, "a"), Name(0, "b");
    assert "a"[0] == 'a' && "b"[0] == 'b';
    assert a != b;
    assert GetMapping(s, writer, a) == Some(MappingValue(0, 1, false)) && GetEntryInternal(s, writer, a) == Found(0);
    var names := Renamed(s, writer, 0, a, b);
    RenamedNames(s, writer, 0, a, b);
    RenamedIs(s, writer, 0, a, b);
    var v, on := NewVersion(names, writer, b, ObjectEntry, false), Dependencies(names, Ref(1, a));
    RegisterKeeps(names, v.ref, true, on);
    var s1 := Push(Register(names, v.ref, true, on), 0, v);
    assert Dependents(names, Ref(1, a)) == map[];
    assert NoLiveDependents(names, writer, Ref(1, a));
    hide Register, Renamed;
    assert AlterEntry(s, writer, a, Some(b)) == Result(s1, Success, [Record(0, 2)]);
    assert [] + [Record(0, 2)] == [Record(0, 2)];
    TakesName(s1, writer, v, more);
  }

  lemma TakesName(s1: State, writer: Transaction, v: Version, more: seq<Version>)
    requires v.ref.name == Name(0, "b") && v.kind.ObjectEntry? && 0 in s1.entries && 1 in s1.entries
    requires s1.entries[0] == TableAndDropped().entries[0] + [v]
    requires s1.entries[1] == TableAndDropped().entries[1] + more
    requires Name(0, "a") in s1.mapping && Name(0, "b") in s1.mapping
    requires s1.mapping[Name(0, "a")] == [MappingValue(0, 1, false), MappingValue(0, writer.id, true)]
    requires s1.mapping[Name(0, "b")] == [MappingValue(1, 3, false), MappingValue(0, writer.id, false)]
    ensures TookName(CommitAll(s1, [Record(0, 2)], 6), more)
  {
    CommitOne(s1, Record(0, 2), 6);
    assert "a"[0] == 'a' && "b"[0] == 'b';
    var b := Name(0, "b");
    assert s1.entries[0][1].ref.name == Name(0, "a") != b;
    var s2 := UpdateTimestamp(s1, 0, 2, 6);
    assert s2.mapping[b] == [MappingValue(1, 3, false), MappingValue(0, 6, false)];
  }

  /**
   * A transaction that began before the commit of a rename finds the older value of the new name and creates an entry
   * on the chain it leads to. No check fails; but rolling the transaction back follows the newest value of the name and
   * puts that chain in the place of the renamed table, which is lost.
   */
  lemma CreateUnderTakenName(s: State, creator: Transaction, later: Transaction)
    requires TookName(s, []) && TRANSACTION_ID_START <= creator.id && creator.start == 4
    requires TRANSACTION_ID_START <= later.id && later.id != creator.id && 6 < later.start < TRANSACTION_ID_START
    ensures var b := Name(0, "b");
      var op := Create(b, ObjectEntry, false, {});
      var created := Apply(s, creator, op);
      var s' := Rollback(created.state, created.pushed);
      && created.outcome.Success? && !FailsLate(s, creator, op) && !WritesHome(s, creator, op) && !Restored(s, s')
      && GetEntry(s, later, b) == Some(s.entries[0][2]) && GetEntry(s', later, b) == None
  {
    var b := Name(0, "b");
    var op, names, chain := Create(b, ObjectEntry, false, {}), s.mapping[b], s.entries[1];
    assert names[..1] == [names[0]];
    assert names == [MappingValue(1, 3, false), MappingValue(0, 6, false)];
    assert VisibleMapping(names, creator) == VisibleMapping(names[..1], creator) == names[0];
    assert VisibleMapping(names, later) == names[1];
    assert VisibleVersion(s.entries[0], later) == s.entries[0][2];
    assert GetEntry(s, later, b) == Some(s.entries[0][2]);
    var v := NewVersion(s, creator, b, ObjectEntry, false);
    RegisterKeeps(s, v.ref, true, {});
    var s1 := Push(Register(s, v.ref, true, {}), 1, v);
    assert Apply(s, creator, op) == Result(s1, Success, [Record(1, 3)]);
    RollbackOne(s1, Record(1, 3));
    hide Register;
    TakenNameUndone(s1, v, later);
  }

  /** Undoing a create under a name that was taken puts the dropped table in the place of the renamed one. */
  lemma TakenNameUndone(s: State, v: Version, later: Transaction)
    requires TookName(s, [v]) && v.ref.name == Name(0, "b") && !v.Deleted() && 6 < later.start < TRANSACTION_ID_START
    ensures RecordOk(s, Record(1, 3))
    ensures var s' := Undo(s, Record(1, 3));
      && 0 in s'.entries && s'.entries[0] == TableAndDropped().entries[1] && s'.entries[0] != s.entries[0]
      && GetEntry(s', later, Name(0, "b")) == None
  {
    EraseLike(s, s, v.ref);
    hide Erase;
    var dropped := TableAndDropped().entries[1];
    var s', b := Undo(s, Record(1, 3)), Name(0, "b");
    assert (dropped + [v])[..3] == dropped;
    assert s'.entries == s.entries[1 := [v]][0 := dropped] && s'.mapping == s.mapping;
    assert GetMapping(s', later, b) == Some(s.mapping[b][1]);
    assert VisibleVersion(dropped, later) == dropped[2];
  }

  /** Two committed tables' worth of history in which rolling back a create that met no check loses another table. */
  lemma RolledBackCreateLosesTable(creator: Transaction, writer: Transaction, later: Transaction)
    requires TRANSACTION_ID_START <= writer.id && writer.start == 5
    requires TRANSACTION_ID_START <= creator.id && creator.start == 4
    requires TRANSACTION_ID_START <= later.id && later.id != creator.id && 6 < later.start < TRANSACTION_ID_START
    ensures var a, b := Name(0, "a"), Name(0, "b");
      var s := RenameCommit(TableAndDropped(), writer, [], a, b, 6);
      var created := CreateEntry(s, creator, b, ObjectEntry, false, {});
      var s' := Rollback(created.state, created.pushed);
      created.outcome.Success? && GetEntry(s, later, b).Some? && GetEntry(s', later, b) == None && !Restored(s, s')
  {
    assert TableAndDropped().entries[1] + [] == TableAndDropped().entries[1];
    RenameToDropped(TableAndDropped(), writer, []);
    hide TookName, Restored, GetEntry, Rollback, CreateEntry, RenameCommit, FailsLate, WritesHome;
    CreateUnderTakenName(RenameCommit(TableAndDropped(), writer, [], Name(0, "a"), Name(0, "b"), 6), creator, later);
  }

  /** Creating the dropped table again, while its name leads to its chain. */
  lemma CreatesAgain(creator: Transaction) returns (v: Version)
    requires TRANSACTION_ID_START <= creator.id && creator.start == 4
    ensures var s, op := TableAndDropped(), Create(Name(0, "b"), ObjectEntry, false, {});
      var created := Apply(s, creator, op);
      && !FailsLate(s, creator, op) && WritesHome(s, creator, op) && HasDropped(created.state, [v])
      && created.outcome.Success? && created.pushed == [Record(1, 3)]
    ensures v.ref.name == Name(0, "b") && !v.Deleted() && v.timestamp == creator.id
  {
    var s, b := TableAndDropped(), Name(0, "b");
    var op := Create(b, ObjectEntry, false, {});
    assert "a"[0] == 'a' && "b"[0] == 'b';
    assert GetMapping(s, creator, b) == Some(MappingValue(1, 3, false));
    v := NewVersion(s, creator, b, ObjectEntry, false);
    RegisterKeeps(s, v.ref, true, {});
    var s1 := Push(Register(s, v.ref, true, {}), 1, v);
    assert Dependents(s1, Ref(1, Name(0, "a"))) == map[];
    assert Apply(s, creator, op) == Result(s1, Success, [Record(1, 3)]);
    hide Register;
  }

  /**
   * The create wrote to the chain its newest name led to, and only then another transaction renamed a table to that
   * name and committed: rolling the create back replaces the renamed table all the same.
   */
  lemma LaterRenameIsLost(creator: Transaction, writer: Transaction, later: Transaction)
    requires TRANSACTION_ID_START <= creator.id && creator.start == 4
    requires TRANSACTION_ID_START <= writer.id && writer.start == 5 && writer.id != creator.id
    requires TRANSACTION_ID_START <= later.id && later.id != creator.id && 6 < later.start < TRANSACTION_ID_START
    ensures var a, b := Name(0, "a"), Name(0, "b");
      var op := Create(b, ObjectEntry, false, {});
      var created := Apply(TableAndDropped(), creator, op);
      var s := RenameCommit(created.state, writer, [], a, b, 6);
      var s' := Rollback(s, created.pushed);
      && !FailsLate(TableAndDropped(), creator, op) && WritesHome(TableAndDropped(), creator, op)
      && created.outcome.Success? && AlterEntry(created.state, writer, a, Some(b)).outcome.Success?
      && GetEntry(s, later, b).Some? && GetEntry(s', later, b) == None
  {
    var a, b := Name(0, "a"), Name(0, "b");
    var v := CreatesAgain(creator);
    var created := Apply(TableAndDropped(), creator, Create(b, ObjectEntry, false, {}));
    RenameToDropped(created.state, writer, [v]);
    var s := RenameCommit(created.state, writer, [], a, b, 6);
    hide FailsLate, WritesHome, RenameCommit, AlterEntry, Apply, HasDropped;
    assert VisibleMapping(s.mapping[b], later) == s.mapping[b][1];
    assert VisibleVersion(s.entries[0], later) == s.entries[0][2];
    assert GetEntry(s, later, b).Some?;
    RollbackOne(s, Record(1, 3));
    TakenNameUndone(s, v, later);
  }
}
