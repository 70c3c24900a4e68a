/**
 * What a rollback takes out of the chains, whatever other transactions did in between, renames included. An undo finds
 * the chain of a version by the newest value of a name, which another transaction may have changed since
 * (src/catalog/catalog_set.cpp:386-433; src/transaction/undo_buffer.cpp:113-136).
 */
module CatalogAborts {
  import opened Catalog
  import opened CatalogInverse
  import opened CatalogReach
  import opened CatalogRenames
  import opened CatalogRollback
  import opened CatalogRuns
  import opened Common

  // ---------- one version ----------

  /** The names without the new name of a rename that is taken back; the chains as they are. */
  function Freed(s: State, r: Record): (s': State)
    requires RecordOk(s, r)
    ensures s'.entries == s.entries
  {
    var chain := s.entries[r.index];
    if chain[r.height - 1].ref.name == chain[r.height].ref.name then s else PopMapping(s, chain[r.height].ref.name)
  }

  /** The values of the name by which the chain below a version is found again. */
  function NamesBelow(s: State, r: Record): seq<MappingValue>
    requires RecordOk(s, r)
  {
    MappingOf(Freed(s, r), s.entries[r.index][r.height - 1].ref.name)
  }

  /** The names once a version was taken back; the chains as they are. */
  function Popped(s: State, r: Record): (s': State)
    requires RecordOk(s, r)
    ensures s'.entries == s.entries
  {
    var entry, names := s.entries[r.index][r.height - 1], NamesBelow(s, r);
    if names != [] && (Top(names).deleted || entry.kind.Invalid?) then PopMapping(Freed(s, r), entry.ref.name)
    else Freed(s, r)
  }

  predicate IsTop(s: State, r: Record) {
    r.height + 1 == Height(s, r.index)
  }

  /** The newest value of the name below a version leads to the chain of the version. */
  predicate LeadsHome(s: State, r: Record)
    requires RecordOk(s, r)
  {
    NamesBelow(s, r) != [] && Top(NamesBelow(s, r)).index == r.index
  }

  function Without(chain: seq<Version>, h: nat): seq<Version>
    requires h < |chain|
  {
    chain[..h] + chain[h + 1..]
  }

  /** The chains after a version was taken back. */
  function Unchained(s: State, r: Record): map<nat, seq<Version>>
    requires RecordOk(s, r)
  {
    var chain, names := s.entries[r.index], NamesBelow(s, r);
    if !IsTop(s, r) then s.entries[r.index := Without(chain, r.height)]
    else if names == [] then s.entries
    else s.entries[r.index := [chain[r.height]]][Top(names).index := chain[..r.height]]
  }

  lemma PopLike(s: State, s': State, n: Name)
    requires s'.mapping == s.mapping
    ensures PopMapping(s', n).mapping == PopMapping(s, n).mapping
  {
    if n in s.mapping && |s.mapping[n]| > 1 {
      var names := s.mapping[n][..|s.mapping[n]| - 1];
      assert PopMapping(s, n).mapping == s.mapping[n := names] && PopMapping(s', n).mapping == s'.mapping[n := names];
    }
  }

  /** Undoing changes names and chains apart from each other. */
  lemma UndoParts(s: State, r: Record)
    requires RecordOk(s, r)
    ensures Undo(s, r).mapping == Popped(s, r).mapping && Undo(s, r).entries == Unchained(s, r)
  {
    var chain := s.entries[r.index];
    var entry, removed := chain[r.height - 1], chain[r.height];
    EraseLike(s, s, removed.ref);
    var s1 := if removed.Deleted() then s else Erase(s, removed.ref);
    PopLike(s, s1, removed.ref.name);
    PopMappingKeeps(s1, removed.ref.name);
    hide Erase, PopMapping;
    var s2 := if entry.ref.name == removed.ref.name then s1 else PopMapping(s1, removed.ref.name);
    var names := NamesBelow(s, r);
    assert s2.mapping == Freed(s, r).mapping && s2.entries == s.entries && MappingOf(s2, entry.ref.name) == names;
    var s3 := s2.(entries := Unchained(s, r));
    assert Undo(s, r) ==
           if names != [] && (Top(names).deleted || entry.kind.Invalid?) then PopMapping(s3, entry.ref.name) else s3;
    PopLike(Freed(s, r), s3, entry.ref.name);
    PopMappingKeeps(s3, entry.ref.name);
  }

  lemma UndoAtHome(s: State, r: Record)
    requires RecordOk(s, r) && (!IsTop(s, r) || LeadsHome(s, r))
    ensures Undo(s, r).entries == s.entries[r.index := Without(s.entries[r.index], r.height)]
  {
    UndoParts(s, r);
    hide Undo, NamesBelow;
    var chain := s.entries[r.index];
    if IsTop(s, r) {
      assert Without(chain, r.height) == chain[..r.height];
    }
  }

  /**
   * Undoing a version takes it out of its chain and leaves every other chain alone if and only if it is not on top, or
   * the newest value of the name below it leads to its chain.
   */
  lemma UndoTakesOutIff(s: State, r: Record)
    requires Unique(s) && RecordOk(s, r)
    ensures Undo(s, r).entries == s.entries[r.index := Without(s.entries[r.index], r.height)] <==>
            !IsTop(s, r) || LeadsHome(s, r)
  {
    var chain := s.entries[r.index];
    if !IsTop(s, r) || LeadsHome(s, r) {
      UndoAtHome(s, r);
    } else {
      UndoParts(s, r);
      hide Undo, NamesBelow;
      assert Without(chain, r.height) == chain[..r.height];
      assert At(s, r.index, 0) && At(s, r.index, r.height);
      assert chain[..r.height][0] != chain[r.height];
      assert Undo(s, r).entries[r.index] == chain || Undo(s, r).entries[r.index] == [chain[r.height]];
      assert Undo(s, r).entries[r.index] != chain[..r.height];
    }
  }

  // ---------- an undo buffer ----------

  /** The names after some records were taken back, the last one first. */
  function PoppedAll(s: State, records: seq<Record>): (s': State)
    ensures s'.entries == s.entries
  {
    if records == [] then s
    else
      var s1 := PoppedAll(s, records[1..]);
      if RecordOk(s1, records[0]) then Popped(s1, records[0]) else s1
  }

  /** A version above that of a record is not taken back before it. */
  ghost predicate Covered(s: State, r: Record, later: seq<Record>) {
    exists h: nat :: r.height < h < Height(s, r.index) && Record(r.index, h) !in later
  }

  /**
   * Every undo of a rollback finds its chain. This looks at names and chains before the rollback: only the names that
   * earlier undos give back are taken off.
   */
  ghost predicate Homeward(s: State, records: seq<Record>) {
    records != [] ==>
      && Homeward(s, records[1..]) && RecordOk(s, records[0])
      && (Covered(s, records[0], records[1..]) || LeadsHome(PoppedAll(s, records[1..]), records[0]))
  }

  /** A chain without the versions of some records. */
  function Left(chain: seq<Version>, i: nat, records: seq<Record>): seq<Version> {
    if chain == [] then []
    else Left(chain[..|chain| - 1], i, records) + if Record(i, |chain| - 1) in records then [] else [Top(chain)]
  }

  /** The versions of some records are gone from the chains, and nothing else is different. */
  ghost predicate TakenOut(s: State, records: seq<Record>, s': State) {
    && s'.entries.Keys == s.entries.Keys
    && forall i | i in s.entries :: s'.entries[i] == Left(s.entries[i], i, records)
  }

  /** A buffer of versions that are there, the lower ones of a chain first. */
  ghost predicate Intact(s: State, records: seq<Record>) {
    (forall x | 0 <= x < |records| :: RecordOk(s, records[x])) && Rising(records)
  }

  lemma {:induction false} LeftPrefix(chain: seq<Version>, i: nat, records: seq<Record>, n: nat)
    requires n <= |chain| && forall h: nat | h < n :: Record(i, h) !in records
    ensures n <= |Left(chain, i, records)| && Left(chain, i, records)[..n] == chain[..n]
    ensures |Left(chain, i, records)| == n <==> forall h: nat | n <= h < |chain| :: Record(i, h) in records
  {
    if chain != [] {
      var front := chain[..|chain| - 1];
      if n < |chain| {
        LeftPrefix(front, i, records, n);
        assert front[..n] == chain[..n];
        assert Left(chain, i, records)[..n] == Left(front, i, records)[..n];
      } else {
        LeftPrefix(front, i, records, n - 1);
        assert Left(front, i, records)[..n - 1] == front;
        assert |Left(front, i, records)| == n - 1;
        assert Left(chain, i, records) == front + [Top(chain)];
      }
    }
  }

  lemma {:induction false} LeftSame(chain: seq<Version>, i: nat, records: seq<Record>, records': seq<Record>)
    requires forall h: nat | h < |chain| :: Record(i, h) in records <==> Record(i, h) in records'
    ensures Left(chain, i, records) == Left(chain, i, records')
  {
    if chain != [] {
      LeftSame(chain[..|chain| - 1], i, records, records');
    }
  }

  /** Taking out one more version, below those that are gone. */
  lemma {:induction false} LeftMore(chain: seq<Version>, i: nat, h: nat, later: seq<Record>, all: seq<Record>)
    requires h < |chain| && all == [Record(i, h)] + later && forall k: nat | k <= h :: Record(i, k) !in later
    ensures h < |Left(chain, i, later)| && Left(chain, i, all) == Without(Left(chain, i, later), h)
  {
    var front := chain[..|chain| - 1];
    LeftPrefix(chain, i, later, h + 1);
    if h == |chain| - 1 {
      LeftSame(front, i, all, later);
      LeftPrefix(front, i, later, h);
      assert Left(front, i, later)[..h] == front;
    } else {
      LeftMore(front, i, h, later, all);
    }
  }

  lemma {:induction false} LeftMember(chain: seq<Version>, i: nat, records: seq<Record>, g: nat) returns (h: nat)
    requires g < |Left(chain, i, records)|
    ensures g <= h < |chain| && chain[h] == Left(chain, i, records)[g] && Record(i, h) !in records
  {
    var front := chain[..|chain| - 1];
    if g < |Left(front, i, records)| {
      h := LeftMember(front, i, records, g);
    } else {
      h := |chain| - 1;
      LeftShorter(front, i, records);
    }
  }

  lemma {:induction false} LeftShorter(chain: seq<Version>, i: nat, records: seq<Record>)
    ensures |Left(chain, i, records)| <= |chain|
  {
    if chain != [] {
      LeftShorter(chain[..|chain| - 1], i, records);
    }
  }

  lemma IntactRest(s: State, records: seq<Record>)
    requires Intact(s, records) && records != []
    ensures Intact(s, records[1..]) && RecordOk(s, records[0])
    ensures forall k: nat | k <= records[0].height :: Record(records[0].index, k) !in records[1..]
  {
    var rest := records[1..];
    forall x | 0 <= x < |rest| && rest[x].index == records[0].index ensures records[0].height < rest[x].height {
      assert records[x + 1] == rest[x];
    }
  }

  /** After later records were taken out, a record is where it was, with the same version below it. */
  lemma RecordStays(s: State, records: seq<Record>, t: State)
    requires Intact(s, records) && records != [] && TakenOut(s, records[1..], t)
    ensures var r := records[0];
      && RecordOk(s, r) && RecordOk(t, r) && t.entries[r.index][..r.height + 1] == s.entries[r.index][..r.height + 1]
      && (IsTop(t, r) <==> !Covered(s, r, records[1..]))
  {
    IntactRest(s, records);
    var r, rest := records[0], records[1..];
    LeftPrefix(s.entries[r.index], r.index, rest, r.height + 1);
  }

  /** Names are given back the same whatever happened to other chains. */
  lemma SamePop(s: State, t: State, r: Record)
    requires RecordOk(s, r) && RecordOk(t, r) && t.mapping == s.mapping
    requires t.entries[r.index][..r.height + 1] == s.entries[r.index][..r.height + 1]
    ensures Popped(t, r).mapping == Popped(s, r).mapping && (LeadsHome(t, r) <==> LeadsHome(s, r))
    ensures NamesBelow(t, r) == NamesBelow(s, r)
  {
    var a, b := s.entries[r.index][..r.height + 1], t.entries[r.index][..r.height + 1];
    assert a[r.height] == b[r.height] && a[r.height - 1] == b[r.height - 1];
    PopLike(s, t, a[r.height].ref.name);
    hide PopMapping;
    assert Freed(t, r).mapping == Freed(s, r).mapping;
    PopLike(Freed(s, r), Freed(t, r), a[r.height - 1].ref.name);
  }

  lemma LeftAfterOne(s: State, records: seq<Record>, t: State, t': State)
    requires Intact(s, records) && records != [] && TakenOut(s, records[1..], t) && RecordOk(t, records[0])
    requires t'.entries == t.entries[records[0].index := Without(t.entries[records[0].index], records[0].height)]
    ensures TakenOut(s, records, t')
  {
    IntactRest(s, records);
    hide Without, Left, Intact;
    var r, rest := records[0], records[1..];
    forall i | i in s.entries ensures t'.entries[i] == Left(s.entries[i], i, records) {
      if i == r.index {
        LeftMore(s.entries[i], i, r.height, rest, records);
      } else {
        LeftSame(s.entries[i], i, records, rest);
      }
    }
  }

  /** One more undo that finds its chain. */
  lemma OneMoreTakenOut(s: State, records: seq<Record>, t: State)
    requires Intact(s, records) && records != [] && TakenOut(s, records[1..], t)
    requires t.mapping == PoppedAll(s, records[1..]).mapping && RecordOk(s, records[0])
    requires Covered(s, records[0], records[1..]) || LeadsHome(PoppedAll(s, records[1..]), records[0])
    ensures RecordOk(t, records[0])
    ensures var t' := Undo(t, records[0]);
      && TakenOut(s, records, t') && t'.mapping == PoppedAll(s, records).mapping
      && t'.entries == t.entries[records[0].index := Without(t.entries[records[0].index], records[0].height)]
  {
    RecordStays(s, records, t);
    var r, rest := records[0], records[1..];
    assert PoppedAll(s, records) == Popped(PoppedAll(s, rest), r);
    hide Undo, Popped, NamesBelow, Covered, PoppedAll, Intact, TakenOut, Without, LeadsHome, IsTop;
    SamePop(PoppedAll(s, rest), t, r);
    UndoParts(t, r);
    UndoAtHome(t, r);
    LeftAfterOne(s, records, t, Undo(t, r));
  }

  /** A rollback whose undos all find their chains takes out exactly the versions of its records. */
  lemma {:induction false} HomewardTakesOut(s: State, records: seq<Record>)
    requires Intact(s, records) && Homeward(s, records)
    ensures TakenOut(s, records, Rollback(s, records))
    ensures Rollback(s, records).mapping == PoppedAll(s, records).mapping
  {
    if records == [] {
      forall i | i in s.entries ensures Left(s.entries[i], i, []) == s.entries[i] {
        LeftPrefix(s.entries[i], i, [], |s.entries[i]|);
      }
    } else {
      IntactRest(s, records);
      HomewardTakesOut(s, records[1..]);
      hide TakenOut, Intact, Undo, LeadsHome, PoppedAll, Covered, RecordOk;
      OneMoreTakenOut(s, records, Rollback(s, records[1..]));
    }
  }

  // ---------- a rollback that goes astray ----------

  /** No version with an identity is left. */
  ghost predicate Gone(t: State, id: nat) {
    forall i, h: nat | At(t, i, h) :: t.entries[i][h].ref.id != id
  }

  /** The first version of some chain is lost. */
  ghost predicate Lost(s: State, t: State) {
    exists j :: HasChain(s, j) && Gone(t, s.entries[j][0].ref.id)
  }

  /** Every chain starts with the version it started with. */
  ghost predicate Footed(s: State, t: State) {
    && t.entries.Keys == s.entries.Keys
    && forall j | j in s.entries ::
         s.entries[j] != [] && t.entries[j] != [] && t.entries[j][0].ref.id == s.entries[j][0].ref.id
  }

  /** A version that should have been taken out is in its chain, above the records that are left. */
  ghost predicate StuckAt(s: State, all: seq<Record>, k: nat, t: State, x: nat, g: nat)
    requires k <= |all|
  {
    && k <= x < |all| && At(t, all[x].index, g) && t.entries[all[x].index][g].ref.id == IdAt(s, all[x])
    && forall y | 0 <= y < k && all[y].index == all[x].index :: all[y].height < g
  }

  /** The rollback has gone wrong, for good. */
  ghost predicate Broken(s: State, all: seq<Record>, k: nat, t: State)
    requires k <= |all|
  {
    Lost(s, t) || (Footed(s, t) && exists x: nat, g: nat :: StuckAt(s, all, k, t, x, g))
  }

  /** Undoing never brings a version back. */
  lemma UndoGone(t: State, r: Record, id: nat)
    requires RecordOk(t, r) && Gone(t, id)
    ensures Gone(Undo(t, r), id)
  {
    UndoParts(t, r);
    hide Undo, NamesBelow;
    var t', chain := Undo(t, r), t.entries[r.index];
    forall i, h: nat | At(t', i, h) ensures t'.entries[i][h].ref.id != id {
      assert At(t, i, h) || i !in t.entries || h >= |t.entries[i]|;
      assert h < |chain| ==> At(t, r.index, h);
      assert h + 1 < |chain| ==> At(t, r.index, h + 1);
      assert At(t, r.index, r.height);
    }
  }

  /** Where an undo goes astray, the first version of the chain it replaces is lost. */
  lemma AstrayLoses(s: State, t: State, r: Record)
    requires Footed(s, t) && Unique(t) && Sound(t) && RecordOk(t, r) && IsTop(t, r)
    requires NamesBelow(t, r) != [] && Top(NamesBelow(t, r)).index != r.index
    ensures Lost(s, Undo(t, r))
  {
    UndoParts(t, r);
    var j := Top(NamesBelow(t, r)).index;
    NamesLead(t, r);
    hide Undo, NamesBelow, Sound;
    var t', chain := Undo(t, r), t.entries[r.index];
    var id := t.entries[j][0].ref.id;
    assert At(t, j, 0);
    forall i, h: nat | At(t', i, h) ensures t'.entries[i][h].ref.id != id {
      if i == j {
        assert At(t, r.index, h);
      } else if i == r.index {
        assert At(t, r.index, r.height);
      } else {
        assert At(t, i, h);
      }
    }
    assert HasChain(s, j);
  }

  lemma NamesLead(t: State, r: Record)
    requires Sound(t) && RecordOk(t, r) && NamesBelow(t, r) != []
    ensures HasChain(t, Top(NamesBelow(t, r)).index)
  {
    var chain := t.entries[r.index];
    PopSound(t, chain[r.height].ref.name);
    NewestSound(Freed(t, r), chain[r.height - 1].ref.name);
    var i := Top(NamesBelow(t, r)).index;
    assert i in t.entries && Aged(t.entries[i], t.currentRef);
  }

  /** An undo that does not go astray leaves the first versions where they are. */
  lemma UndoFooted(s: State, t: State, r: Record)
    requires Footed(s, t) && RecordOk(t, r) && (!IsTop(t, r) || NamesBelow(t, r) == [] || LeadsHome(t, r))
    ensures Footed(s, Undo(t, r))
  {
    UndoParts(t, r);
    hide Undo, NamesBelow;
  }

  /** A version that is stuck stays so while the records below it are taken back. */
  lemma StillStuck(s: State, all: seq<Record>, k: nat, t: State, x: nat, g: nat)
    requires k < |all| && Rising(all) && StuckAt(s, all, k + 1, t, x, g)
    requires RecordOk(t, all[k]) && (!IsTop(t, all[k]) || NamesBelow(t, all[k]) == [] || LeadsHome(t, all[k]))
    ensures exists x': nat, g': nat :: StuckAt(s, all, k, Undo(t, all[k]), x', g')
  {
    var r := all[k];
    UndoParts(t, r);
    hide Undo, NamesBelow;
    var t' := Undo(t, r);
    if r.index == all[x].index && !IsTop(t, r) {
      assert StuckAt(s, all, k, t', x, g - 1);
    } else {
      assert StuckAt(s, all, k, t', x, g);
    }
  }

  /** What has gone wrong is not put right by undoing more. */
  lemma StaysBroken(s: State, all: seq<Record>, k: nat, t: State)
    requires k < |all| && Rising(all) && Broken(s, all, k + 1, t) && Unique(t) && Sound(t)
    ensures Broken(s, all, k, UndoIfThere(t, all[k]))
  {
    var r := all[k];
    hide Undo, NamesBelow, Sound, Unique;
    if Lost(s, t) {
      var j :| HasChain(s, j) && Gone(t, s.entries[j][0].ref.id);
      if RecordOk(t, r) {
        UndoGone(t, r, s.entries[j][0].ref.id);
      }
      assert Lost(s, UndoIfThere(t, r));
    } else {
      var x: nat, g: nat :| StuckAt(s, all, k + 1, t, x, g);
      if !RecordOk(t, r) {
        assert StuckAt(s, all, k, t, x, g);
      } else if IsTop(t, r) && NamesBelow(t, r) != [] && !LeadsHome(t, r) {
        AstrayLoses(s, t, r);
      } else {
        UndoFooted(s, t, r);
        StillStuck(s, all, k, t, x, g);
      }
    }
  }

  /** The first undo that does not find its chain. */
  lemma BreaksFirst(s: State, all: seq<Record>, k: nat, t: State)
    requires k < |all| && Intact(s, all[k..]) && Intact(s, all) && TakenOut(s, all[k..][1..], t)
    requires t.mapping == PoppedAll(s, all[k..][1..]).mapping && Unique(t) && Sound(t) && Sound(s)
    requires !Covered(s, all[k], all[k..][1..]) && !LeadsHome(PoppedAll(s, all[k..][1..]), all[k])
    ensures Broken(s, all, k, UndoIfThere(t, all[k]))
  {
    var r, rest := all[k], all[k..][1..];
    RecordStays(s, all[k..], t);
    SamePop(PoppedAll(s, rest), t, r);
    TakenOutFooted(s, rest, t);
    UndoParts(t, r);
    hide Undo, NamesBelow, Sound, PoppedAll, TakenOut, Covered, Unique;
    if NamesBelow(t, r) == [] {
      UndoFooted(s, t, r);
      assert s.entries[r.index][..r.height + 1][r.height] == t.entries[r.index][..r.height + 1][r.height];
      assert StuckAt(s, all, k, Undo(t, r), k, r.height);
    } else {
      AstrayLoses(s, t, r);
    }
  }

  lemma TakenOutFooted(s: State, records: seq<Record>, t: State)
    requires TakenOut(s, records, t) && Sound(s) && forall x | 0 <= x < |records| :: RecordOk(s, records[x])
    ensures Footed(s, t)
  {
    forall j | j in s.entries
      ensures s.entries[j] != [] && t.entries[j] != [] && t.entries[j][0].ref.id == s.entries[j][0].ref.id
    {
      assert Aged(s.entries[j], s.currentRef);
      LeftPrefix(s.entries[j], j, records, 1);
      assert Left(s.entries[j], j, records)[..1][0] == s.entries[j][..1][0];
    }
  }

  /** A rollback that took out exactly its versions has not gone wrong. */
  lemma TakenOutIsNotBroken(s: State, records: seq<Record>, t: State)
    requires TakenOut(s, records, t) && Unique(s) && Sound(s) && Intact(s, records)
    ensures !Broken(s, records, 0, t)
  {
    TakenOutFooted(s, records, t);
    hide Sound;
    forall j | HasChain(s, j) ensures !Gone(t, s.entries[j][0].ref.id) {
      assert At(t, j, 0);
    }
    forall x: nat, g: nat | x < |records| && At(t, records[x].index, g)
      ensures t.entries[records[x].index][g].ref.id != IdAt(s, records[x])
    {
      var r := records[x];
      var h := LeftMember(s.entries[r.index], r.index, records, g);
      assert At(s, r.index, h) && At(s, r.index, r.height);
    }
  }

  /** Undoing moves versions or drops them. */
  lemma UndoUnique(s: State, r: Record)
    requires Unique(s) && RecordOk(s, r)
    ensures Unique(Undo(s, r))
  {
    UndoParts(s, r);
    var s', chain := Undo(s, r), s.entries[r.index];
    var j := if NamesBelow(s, r) == [] then r.index else Top(NamesBelow(s, r)).index;
    hide Undo, NamesBelow;
    if !IsTop(s, r) {
      forall i, h: nat | At(s', i, h)
        ensures var h' := if i == r.index && h >= r.height then h + 1 else h;
          At(s, i, h') && s'.entries[i][h] == s.entries[i][h']
      {
      }
    } else {
      forall i, h: nat | At(s', i, h) && s'.entries != s.entries
        ensures var i', h' := if i == j then r.index else i, if i == r.index && i != j then r.height else h;
          && At(s, i', h') && s'.entries[i][h] == s.entries[i'][h']
          && (i == j ==> h < r.height) && (i == r.index && i != j ==> h == 0)
      {
      }
    }
  }

  lemma {:induction false} RollbackUnique(s: State, records: seq<Record>)
    requires Unique(s)
    ensures Unique(Rollback(s, records))
  {
    hide Unique, Undo, RecordOk;
    if records != [] {
      RollbackUnique(s, records[1..]);
      if RecordOk(Rollback(s, records[1..]), records[0]) {
        UndoUnique(Rollback(s, records[1..]), records[0]);
      }
    }
  }

  lemma IntactFrom(s: State, all: seq<Record>, k: nat)
    requires Intact(s, all) && k <= |all|
    ensures Intact(s, all[k..])
  {
  }

  /** A rollback goes on as it should, or has gone wrong for good. */
  lemma {:induction false} RollbackFrom(s: State, all: seq<Record>, k: nat)
    requires Unique(s) && Sound(s) && Intact(s, all) && k <= |all|
    ensures Homeward(s, all[k..]) ==>
            TakenOut(s, all[k..], Rollback(s, all[k..])) &&
            Rollback(s, all[k..]).mapping == PoppedAll(s, all[k..]).mapping
    ensures !Homeward(s, all[k..]) ==> Broken(s, all, k, Rollback(s, all[k..]))
    decreases |all| - k
  {
    IntactFrom(s, all, k);
    if Homeward(s, all[k..]) {
      HomewardTakesOut(s, all[k..]);
    } else {
      var records, rest := all[k..], all[k + 1..];
      assert records[1..] == rest && records[0] == all[k];
      IntactRest(s, records);
      RollbackFrom(s, all, k + 1);
      var t := Rollback(s, rest);
      RollbackUnique(s, rest);
      RollbackSound(s, rest);
      assert Rollback(s, records) == UndoIfThere(t, all[k]);
      hide Unique, Sound, Broken, TakenOut, PoppedAll, Undo, LeadsHome, Covered, Rollback;
      if Homeward(s, rest) {
        BreaksFirst(s, all, k, t);
      } else {
        StaysBroken(s, all, k, t);
      }
    }
  }

  /**
   * A rollback takes out exactly the versions of its records and leaves everything else in the chains alone if and only
   * if every undo finds its chain.
   */
  lemma RollbackTakesOutIff(s: State, records: seq<Record>)
    requires Unique(s) && Sound(s) && Intact(s, records)
    ensures TakenOut(s, records, Rollback(s, records)) <==> Homeward(s, records)
  {
    hide Unique, Sound, TakenOut, Homeward, Broken, Intact, Rollback, PoppedAll;
    assert records[0..] == records;
    RollbackFrom(s, records, 0);
    if TakenOut(s, records, Rollback(s, records)) {
      TakenOutIsNotBroken(s, records, Rollback(s, records));
    }
  }

  /** Undoing a record leaves all names alone: it did not rename, and the newest value of its name is not deleted. */
  ghost predicate Plain(s: State, r: Record) {
    && RecordOk(s, r)
    && var chain := s.entries[r.index];
       var names := MappingOf(s, chain[r.height].ref.name);
       && chain[r.height - 1].ref.name == chain[r.height].ref.name && !chain[r.height - 1].kind.Invalid?
       && (names != [] ==> !Top(names).deleted)
  }

  lemma {:induction false} PlainNames(s: State, records: seq<Record>)
    requires forall x | 0 <= x < |records| :: Plain(s, records[x])
    ensures PoppedAll(s, records) == s
  {
    if records != [] {
      PlainNames(s, records[1..]);
      assert Plain(s, records[0]);
    }
  }

  /** Without renames in the buffer, the newest values before the rollback decide, one record at a time. */
  lemma {:induction false} PlainHomewardIff(s: State, records: seq<Record>)
    requires forall x | 0 <= x < |records| :: Plain(s, records[x])
    ensures Homeward(s, records) <==>
            forall x | 0 <= x < |records| ::
              Covered(s, records[x], records[x + 1..]) || NewestIs(s, records[x])
  {
    if records != [] {
      var rest := records[1..];
      PlainHomewardIff(s, rest);
      PlainNames(s, rest);
      assert Plain(s, records[0]);
      hide PoppedAll, Covered;
      forall x | 0 <= x < |rest| ensures rest[x] == records[x + 1] && rest[x + 1..] == records[x + 1 + 1..] {
      }
      forall x | 1 <= x < |records| ensures records[x] == rest[x - 1] && records[x + 1..] == rest[x - 1 + 1..] {
      }
      assert records[0 + 1..] == rest;
    }
  }

  /** The newest value of a version's name leads to its chain. */
  ghost predicate NewestIs(s: State, r: Record) {
    && RecordOk(s, r)
    && var names := MappingOf(s, s.entries[r.index][r.height].ref.name);
       names != [] && Top(names).index == r.index
  }

  lemma OnlyRecord(s: State, r: Record)
    requires Plain(s, r) && IsTop(s, r)
    ensures Homeward(s, [r]) <==> NewestIs(s, r)
  {
    PlainHomewardIff(s, [r]);
    assert [r][0 + 1..] == [];
  }

  /** The rollback that loses a table renamed in between would have found its chain before the rename. */
  lemma LaterRenameLeadsAstray(creator: Transaction, writer: Transaction)
    requires TRANSACTION_ID_START <= creator.id && creator.start == 4
    requires TRANSACTION_ID_START <= writer.id && writer.start == 5 && writer.id != creator.id
    ensures var a, b := Name(0, "a"), Name(0, "b");
      var created := CreateEntry(TableAndDropped(), creator, b, ObjectEntry, false, {});
      var s := RenameCommit(created.state, writer, [], a, b, 6);
      Homeward(created.state, created.pushed) && !Homeward(s, created.pushed)
  {
    var a, b := Name(0, "a"), Name(0, "b");
    var v := CreatesAgain(creator);
    var created := CreateEntry(TableAndDropped(), creator, b, ObjectEntry, false, {});
    RenameToDropped(created.state, writer, [v]);
    var s := RenameCommit(created.state, writer, [], a, b, 6);
    hide Homeward, RenameCommit, CreateEntry, FailsLate, WritesHome;
    assert "a"[0] == 'a' && "b"[0] == 'b';
    OnlyRecord(created.state, Record(1, 3));
    OnlyRecord(s, Record(1, 3));
  }
}
