# Verification of the GuinsooDB core

A Dafny model of six components of GuinsooDB, an embedded analytical database in C++, with proofs of what they promise.
`dafny verify dfyconfig.toml` checks all of it.

* **Multi-version catalog** (`Catalog`, `CatalogRollback`, `CatalogRuns`, `CatalogDependencies`, `CatalogCascades`,
  `CatalogInverse`, `CatalogRenames`, `CatalogReach`, `CatalogAborts`, `CatalogOwners`, `CatalogSet`, `CatalogEffects`,
  `CatalogReads`, `CatalogOutcomes`). Names map to chains of stamped versions. `Catalog` gives every operation as a
  function on catalog values; `CatalogSet` is the object whose methods change those values in place and is proved equal to
  it. On top: when rollback is an exact inverse and when it takes out exactly a transaction's versions, invariants of every
  interleaving of transactions, what every transaction reads over a run, when every operation succeeds, no lost updates,
  dependency maps that stay inverse, and cascading drops that terminate and drop exactly the transitive dependents.
* **Grouped aggregation** (`LinearProbing`, `GroupProbing`, `GroupAggregates`, `PartitionCapacity`, `AggregateHashTable`,
  `PartitionableHashTable`, `PerfectHashing`, `PerfectAggregateHashTable`). Vectorised linear probing with salts, in-place
  compaction of selection vectors, resizing, combining, radix partitioning, and the bit-packed perfect hash table, all
  against one specification: a map from group key to aggregate state.
* **Hash join** (`JoinSemantics`, `JoinChains`, `JoinScan`, `JoinBuild`, `JoinHashTable`, `JoinProbe`, `JoinResults`,
  `HashJoin`, `ExistenceJoins`). Build, chaining through the hash slot, the resumable probe and the scan for unmatched build
  rows, against the nested-loop join as a multiset of rows; SEMI, ANTI, MARK and SINGLE joins against existence and the
  three-valued IN of section 8.4 of ISO/IEC 9075:1992.
* **Window segment tree** (`WindowSegmentTree`). Flat levels and the level-by-level range query, against a direct fold.
* **Plan rewrites** (`CseOptimizer`, `ColumnLifetime`, `ColumnNeeds`). Common subexpression elimination preserves
  evaluation and leaves nothing shared; column pruning never removes a column that binding resolution looks up, and removes
  exactly the columns that are not needed.
* **Arithmetic and encodings** (`Bits`, `KeyEncoding`, `FloatEncoding`, `DataEncoding`, `Intervals`, `Levenshtein`). Bit
  smearing, key encodings of numbers whose byte order is the order of the numbers (floating point as in section 3.4 of IEEE
  754-2019), the intervals for which that is so, edit distance.

Aggregates are given by update, combine and initial state. Where states of several tables are merged, combining is required
to be a commutative monoid compatible with update, as the code itself relies on. Hash functions are arbitrary functions of the
key. Transaction ids come from one counter starting at `TRANSACTION_ID_START`, start times and commit ids from another one
below it, as the transaction manager hands them out.

## What the code does not promise

Seven properties one would expect fail in the code. Each has a concrete witness and an exact condition.

* Rollback does not always take back exactly what a transaction did. An undo finds the chain of a version by the newest
  value of a name, and a rename that another transaction committed may have changed that value, before the operation
  (`RolledBackCreateLosesTable`) or after it (`LaterRenameIsLost`): then the renamed table is overwritten. In every
  state of every run a single undo takes out its version and leaves all other chains alone if and only if the version is not on top or that
  value leads to its chain (`UndoTakesOutIff`). A rollback takes out exactly the versions of its transaction if and only if
  all its undos find their chains; this is decided by names and chains before the rollback, whatever other transactions
  did in between, and is proved of every state of every interleaving, renames included, as long as earlier rollbacks found
  their chains (`SafeRollbackIff`), and for every intact undo buffer also afterwards (`AnyRollbackIff`). Runs without
  renames always meet it (`KeptNamesHomeward`). These statements are about the chains.
* A create or rename whose dependency check fails has already changed the name mappings, and these are not in the undo
  buffer (`FailedRenameIsNotRolledBack`). For a rollback that follows an operation at once, the whole state, names and
  dependency maps included, comes back if and only if the operation did not fail that late and wrote to the chain its
  newest name leads to (`RollbackRestoresIff`), in every state that any interleaving reaches (`ReachedRollbackIff`); in
  states of runs without renames the second cause reduces to names that a late failure left behind
  (`KeptNamesRollbackIff`), and without late failures it is gone, for whole transactions (`RunningRollbackRestores`).
* Committing a rename stamps the old version as well, so a reader that began earlier loses the table. What it reads under a
  name stays the same if and only if that name is not the renamed one or the reader did not see its newest version
  (`RenameKeepsViewIff`, over every state of the invariant; witness `CommittedRenameBreaksSnapshot`). Snapshot stability is
  therefore stated for runs without renames.
* RIGHT and FULL OUTER joins keep build rows with NULL keys as a sentinel value. The comparison is right on them if and only
  if every condition rejects the sentinel, which `=`, `<` and `<=` do and `<>`, `>` and `>=` do not (`DecidesWithNullsIff`).
  For all conditions `HashJoin.Join` is the nested-loop join with the sentinel for NULL; under that condition it is the one
  with NULL, and for all other conditions `JoinsNull` gives two rows that it joins wrongly.
* When several tables are partitioned, the vector of target tables keeps growing but only its first tables are addressed, so
  redistribution can run out of capacity although fresh tables were made for every source (witness `PartitioningRunsOut`).
  It succeeds if and only if no vector of tuples sent to these tables is refused, that is, if the keys sent before it and the
  size of the vector never exceed the capacity (`PartitionAll`). If no key is in two sources that means: no partition has
  more tuples than one table can hold (`FitsIff`); in general this suffices, and that none has more keys is necessary.
* Column pruning visits the left side of a join before the right one with the same analyzer, so what a DISTINCT on the left
  refers to, which is everything, counts as referred to on the right as well, and columns on the right stay that nothing
  needs (witness `DistinctLeftIsAffected`). Pruning leaves out every unneeded column if and only if no filter or equality
  join there has both needed and unneeded columns (`PruneTightly`). Where none of the columns is needed all are kept, because
  an empty projection map stands for all of them (`LeavesOutIff`).
* Intervals are encoded as stored and compared after carrying days into months and microseconds into days, so byte order is
  not their order: forty days are greater than a month and sort before it (`FortyDays`). The two orders agree on all
  intervals with less than 30 days, and less than a day of microseconds unless the days are 29 (`ComparableAgree`); an
  interval is ordered by its bytes against all of these if and only if it is one of them or lies beyond them at an end of
  the range of months (`OrderAgreesIff`).

Where comments and code differ the model follows the code: the aggregation table is said to resize at 50 % and does so at two
thirds, and a drop that is said to look up the latest name of a dependent looks up the one the transaction may use.

## Model

| member | source | states |
|---|---|---|
| `CatalogSet.FindMapping` | src/catalog/catalog_set.cpp:249-259 | walking down a name chain returns the newest value the transaction may use, or the oldest one |
| `CatalogSet.GetEntryForTransaction` | src/catalog/catalog_set.cpp:300-309 | walking down a version chain returns the newest version the transaction may use, or the oldest one |
| `CatalogSet.CatalogSet.FindName` | src/catalog/catalog_set.cpp:220-260 | the object form of the name lookup equals the lookup on catalog values that the theorems below speak of |
| `CatalogSet.CatalogSet.ReadEntry` | src/catalog/catalog_set.cpp:341-373 | reading an entry by name equals the specified read: deleted, renamed and invisible versions are not returned |
| `CatalogSet.CatalogSet.FindEntry` | src/catalog/catalog_set.cpp:75-101 | looking an entry up for writing reports missing, found or conflict as specified |
| `CatalogSet.CatalogSet.AddToDependencies` | src/catalog/dependency_manager.cpp:10-29 | adding an object enters it in the dependents of everything it depends on and in both maps, and nowhere else |
| `CatalogSet.CatalogSet.EraseObject` | src/catalog/dependency_manager.cpp:101-119 | erasing an object removes it from both maps and from the dependents of everything it depends on |
| `CatalogSet.AddToDependents` | src/catalog/dependency_manager.cpp:22-25 | the loop over the dependencies changes the dependents of exactly those objects |
| `CatalogSet.RemoveFromDependents` | src/catalog/dependency_manager.cpp:108-115 | the loop over the dependencies removes the object from exactly their dependents |
| `CatalogSet.CatalogSet.CreateEntry` | src/catalog/catalog_set.cpp:18-73 | creating changes names, chains, counters, dependency maps and undo buffer as the value specification says, on every branch and on every failure |
| `CatalogSet.CatalogSet.AlterEntry` | src/catalog/catalog_set.cpp:103-161 | altering and renaming do so as well |
| `CatalogSet.CatalogSet.DropEntryInternal` | src/catalog/catalog_set.cpp:163-188 | drops the entry after all that depends on it and nothing else; if it fails a path of live dependents leads to one that is in conflict or takes a cascade that was not asked for, and whenever there is such a path it fails, with a cascade or wherever the edges to an entry agree on taking one |
| `CatalogSet.CatalogSet.DropObject` | src/catalog/dependency_manager.cpp:31-62 | afterwards no dependent is found any more, and every dropped entry depends on the object or on another dropped entry |
| `CatalogSet.CatalogSet.DropEntry` | src/catalog/catalog_set.cpp:190-207 | success drops exactly the entry and its transitive dependents; nothing happens if the name is not found; an internal entry is never dropped; the only reasons to fail are conflict, internal entry and a blocked dependent, and it fails exactly then, with a cascade or wherever the edges to an entry agree on taking one |
| `CatalogSet.CatalogSet.UndoRecord` | src/catalog/catalog_set.cpp:386-433 | undoing a version takes it off its chain, its names back and its dependencies out, as specified; where the newest value of the name leads to another chain, the older versions replace that chain and the version stays behind alone |
| `CatalogSet.CatalogSet.StampVersion` | src/catalog/catalog_set.cpp:375-378 | stamps one version and the newest value of its name, and nothing else |
| `CatalogSet.CatalogSet.CommitRecords` | src/transaction/commit_state.cpp:168-183 | committing stamps every version in the undo buffer, oldest first, and after a rename also the version below |
| `CatalogSet.CatalogSet.RollbackRecords` | src/transaction/undo_buffer.cpp:113-136 | rolling back undoes the records in reverse order |
| `CatalogRollback.ApplyUndone` | src/catalog/catalog_set.cpp:386-433 | undoing at once what one create, alter, rename or drop pushed restores every name mapping, every chain and both dependency maps if and only if the operation wrote to the chain that the newest value of its name leads to |
| `CatalogRollback.RollbackRestores` | src/transaction/rollback_state.cpp:16-24 | rolling back any sequence of such operations that no other transaction interrupts restores every name, chain and dependency map exactly |
| `CatalogRollback.RollbackRestoresIff` | src/catalog/catalog_set.cpp:18-161 | rolling back at once restores the whole state after any operation, failed ones included, if and only if the operation did not fail a dependency check made after the names were changed, and did not write to a chain its newest name does not lead to |
| `CatalogRollback.ApplySound` | src/catalog/catalog_set.cpp:18-433 | no operation, renames and failures included, leaves the states this is proved for |
| `CatalogReach.RunSound` | src/catalog/catalog_set.cpp:18-433 | nor does any interleaving of begin, work, commit and rollback steps, renames included |
| `CatalogReach.ReachedRollbackIff` | src/catalog/catalog_set.cpp:386-433 | the same condition for a rollback at once, in every state that any interleaving reaches from the empty catalog, renames included |
| `CatalogReach.KeptNamesRollbackIff` | src/catalog/catalog_set.cpp:386-433 | in every state of a run without renames it says: the operation does not fail late and does not write under a name that a late failure left behind |
| `CatalogReach.RunningRollbackRestores` | src/transaction/rollback_state.cpp:16-24 | after any run without renames and late failures, rolling back all that a transaction then does, renames included, restores the catalog unless one of its own operations fails late |
| `CatalogRollback.GoodRun` | src/catalog/catalog_set.cpp:18-207 | in such a state every operation of a run writes to the chain its newest name leads to |
| `CatalogAborts.UndoTakesOutIff` | src/catalog/catalog_set.cpp:386-433 | wherever no two versions have the same identity: undoing a version takes it out of its chain and leaves every other chain alone if and only if it is not on top, or the newest value of the name below it, once the new name of a rename is given back, leads to its chain |
| `CatalogAborts.HomewardTakesOut` | src/transaction/undo_buffer.cpp:113-136 | if every undo of a rollback finds its chain, exactly the versions of its records leave the chains, whatever others did since, and the names are those given back |
| `CatalogAborts.RollbackTakesOutIff` | src/transaction/undo_buffer.cpp:113-136 | a rollback takes exactly the versions of its records out of the chains if and only if every undo finds its chain, as names and chains before the rollback tell; once one does not, nothing later puts it right |
| `CatalogAborts.PlainHomewardIff` | src/catalog/catalog_set.cpp:386-433 | for records that renamed nothing and started no name that means: the newest value of each name leads to the chain of the record |
| `CatalogOwners.RunUnique` | src/catalog/catalog_set.cpp:18-433 | no two versions have the same identity in any state of any interleaving, renames and rollbacks that went astray included |
| `CatalogOwners.AnyRollbackIff` | src/transaction/undo_buffer.cpp:113-136 | this condition holds good in every state of every interleaving, renames included, for every undo buffer whose records are still of versions |
| `CatalogOwners.SafeRollbackIff` | src/transaction/undo_buffer.cpp:113-136 | in every state of a run whose rollbacks so far found their chains, renames and late failures included: rolling a transaction back takes exactly its own versions out of every chain if and only if every undo finds its chain |
| `CatalogOwners.RunOwns` | src/catalog/catalog_set.cpp:18-433 | in such a run the undo buffer of every running transaction lists exactly its versions |
| `CatalogOwners.ApplyWrites` | src/catalog/catalog_set.cpp:18-207 | any operation, renames included, puts at most one version on top of a chain it found or started and has no conflict with |
| `CatalogOwners.CommitRestamps` | src/transaction/commit_state.cpp:168-183 | a commit, renames included, stamps exactly the versions of the transaction and committed ones directly below them |
| `CatalogOwners.RunLosesNoUpdate` | src/catalog/catalog_set.cpp:214-218 | no lost update in any such run, renames included |
| `CatalogOwners.RunInOrder` | src/catalog/catalog_set.cpp:375-378 | in any such run commit stamps never increase downwards, and what is not committed is on top and of one running transaction |
| `CatalogOwners.KeptNamesHomeward` | src/catalog/catalog_set.cpp:386-433 | in runs without renames every undo finds its chain |
| `CatalogOwners.LiveAreListed` | src/catalog/dependency_manager.cpp:10-119 | in any such run, renames included, every live version above the first of its chain is a key of both dependency maps |
| `CatalogOwners.MapsHoldLiveEntries` | src/catalog/dependency_manager.cpp:31-66 | in every state of every run without renames the two maps are inverse to each other, acyclic, and have every live version as a key |
| `CatalogRollback.CleanIffNotLate` | src/catalog/catalog_set.cpp:18-161 | an operation leaves something outside the undo buffer if and only if its dependency check fails after the names were changed |
| `CatalogRollback.FailedRenameIsNotRolledBack` | src/catalog/catalog_set.cpp:130-144 | a concrete rename of a table with a dependent view fails, and rollback leaves the new name taken |
| `CatalogRenames.CreateUnderTakenName` | src/catalog/catalog_set.cpp:386-433 | a transaction older than a committed rename creates under the new name, meets no check, and its rollback replaces the renamed table by a dead chain |
| `CatalogRenames.RolledBackCreateLosesTable` | src/catalog/catalog_set.cpp:386-433 | the same from two committed tables: after the rollback a later reader no longer finds the renamed table |
| `CatalogRenames.LaterRenameIsLost` | src/catalog/catalog_set.cpp:386-433 | a create that wrote to the chain its newest name led to, a rename to that name by another transaction that commits, and only then the rollback of the create: a later reader finds the renamed table before and nothing after |
| `CatalogAborts.LaterRenameLeadsAstray` | src/catalog/catalog_set.cpp:386-433 | before that rename every undo would have found its chain, and after it does not |
| `CatalogRollback.EraseRegister` | src/catalog/dependency_manager.cpp:10-119 | erasing an object is the inverse of registering it |
| `CatalogRuns.NoLostUpdate` | src/catalog/catalog_set.cpp:214-218 | where stamps are in order up a chain, a writer is refused if any version of the chain is not committed by it, or was committed after it began |
| `CatalogRuns.UncommittedOnTop` | src/catalog/catalog_set.cpp:18-188 | there the uncommitted versions of a chain are a top section owned by one transaction |
| `CatalogRuns.CommitsInOrder` | src/catalog/catalog_set.cpp:375-378 | there committed stamps never increase downwards |
| `CatalogRuns.WorkStep` | src/catalog/catalog_set.cpp:18-207 | a create, alter or drop keeps the invariant and what every other transaction reads under every name |
| `CatalogRuns.CommitStep` | src/transaction/transaction_manager.cpp:172-224 | a commit keeps the invariant and what every other transaction reads |
| `CatalogRuns.RollbackTakesOut` | src/transaction/rollback_state.cpp:16-24 | rolling a transaction back takes exactly its versions out of every chain, whatever others did in between |
| `CatalogRuns.UndoAllIsRollback` | src/transaction/undo_buffer.cpp:183-187 | undoing step by step is the rollback of the undo buffer |
| `CatalogRuns.StepKeeps` | src/catalog/catalog_set.cpp:18-433 | every step of one transaction keeps the invariant and the reads of every other one |
| `CatalogRuns.Reachable` | src/catalog/catalog_set.cpp:18-433 | the invariant holds in every state that any interleaving of begin, work, commit and rollback steps reaches |
| `CatalogRuns.SnapshotStable` | src/catalog/catalog_set.cpp:220-309 | over any run of steps of other transactions a transaction reads the same version under every name |
| `CatalogRenames.RenameKeepsViewIff` | src/transaction/commit_state.cpp:168-183 | in every state of the invariant: altering, committing and reading again gives an older reader the same entry under every name, except exactly the renamed one if the reader saw its newest version |
| `CatalogRenames.CommitAllNames` | src/catalog/catalog_set.cpp:375-378 | a commit stamps of every name at most the newest value, and leaves its chain number and mark |
| `CatalogRenames.CommittedRenameBreaksSnapshot` | src/transaction/commit_state.cpp:174-177 | a concrete reader loses a table that another transaction renames and commits after the reader began |
| `CatalogDependencies.RegisterKeepsInverse` | src/catalog/dependency_manager.cpp:10-29 | adding or altering keeps the two maps inverse to each other and the graph acyclic |
| `CatalogDependencies.EraseKeepsInverse` | src/catalog/dependency_manager.cpp:101-119 | erasing does too |
| `CatalogInverse.StepRooted` | src/catalog/dependency_manager.cpp:10-119 | every step of a transaction, commits and rollbacks included, keeps what makes the two maps inverse |
| `CatalogInverse.MapsAreInverse` | src/catalog/dependency_manager.cpp:10-119 | in every state of every run without renames the two maps are inverse to each other in both directions and acyclic, and what an object depends on is registered |
| `CatalogDependencies.CascadeNotBlocked` | src/catalog/dependency_manager.cpp:31-62 | a cascade that succeeded met no dependent that stops it |
| `CatalogDependencies.SuccessIsNotBlocked` | src/catalog/dependency_manager.cpp:31-62 | nor did a drop without a cascade that succeeded, where the edges to every entry agree on taking a cascade |
| `CatalogReads.RunSteady` | src/catalog/dependency_manager.cpp:21-24 | they agree in every state of every run without renames that creates indexes in catalog sets of their own and alters none |
| `CatalogEffects.CreateIsRead` | src/catalog/catalog_set.cpp:18-73 | after a successful create the transaction reads under the name a version with the given kind and internal flag |
| `CatalogEffects.AlterIsRead` | src/catalog/catalog_set.cpp:103-161 | after a successful alteration it reads under the new name a version with the kind and the internal flag of the entry replaced, may alter or drop it again, and reads nothing under an old name; a new name that already led to the entry is the one exception, stated exactly |
| `CatalogEffects.AlterRegisters` | src/catalog/dependency_manager.cpp:64-92 | the altered version depends on everything the replaced one did, and takes a cascade when any of that is dropped |
| `CatalogEffects.DropIsRead` | src/catalog/catalog_set.cpp:190-207 | after a successful drop it reads nothing under the name |
| `CatalogEffects.SoleBlocksIff` | src/catalog/dependency_manager.cpp:31-62 | what stops the drop of an entry with one live dependent is that the dependent takes a cascade and none was asked for, and nothing else |
| `CatalogEffects.SoleDropIff` | src/catalog/dependency_manager.cpp:31-62 | such a drop succeeds exactly if the dependent takes no cascade or one was asked for, and then both are dropped |
| `CatalogEffects.CreateThenDrop` | src/catalog/dependency_manager.cpp:10-62 | after creating an entry that becomes the only live dependent of another, dropping the other succeeds if and only if there is a cascade or the new entry is an index; both are gone then, and otherwise the drop fails |
| `CatalogReads.ReadLaw` | src/catalog/catalog_set.cpp:341-373 | in every state of the invariant a transaction reads under a name the newest version that is its own or was committed before it began, and nothing if that one is deleted or there is none |
| `CatalogReads.ReadsOwnWrite` | src/catalog/catalog_set.cpp:300-309 | if it has written under the name, that is what it wrote last |
| `CatalogReads.BeginReads` | src/transaction/transaction_manager.cpp:56-78 | a transaction that begins reads under every name the newest committed version |
| `CatalogReads.RunReads` | src/catalog/catalog_set.cpp:341-373 | over any run: whatever others do, commit or roll back after it began, a transaction that writes nothing reads the newest version committed before it began |
| `CatalogReads.WriteIsRead` | src/catalog/catalog_set.cpp:18-207 | after each of its own operations a transaction reads what the operation wrote: the created kind, the altered entry, nothing for a drop |
| `CatalogReads.RunReadsOwn` | src/catalog/catalog_set.cpp:341-373 | over any run it reads that until its next operation, whatever others do |
| `CatalogReads.WorkPublishesNothing` | src/catalog/catalog_set.cpp:18-207 | no operation changes what is committed |
| `CatalogReads.AbortPublishesNothing` | src/transaction/rollback_state.cpp:16-24 | nor does a rollback |
| `CatalogReads.CommitPublishes` | src/transaction/commit_state.cpp:168-183 | a commit makes the newest committed version of every name its transaction has written what that transaction reads, with the commit stamp, and changes no other name |
| `CatalogOutcomes.LookupLaw` | src/catalog/catalog_set.cpp:75-101 | looking up for writing finds an entry, nothing or a conflict exactly if the chain of the name ends in a live version, in a deleted one or none, or has a version of another running transaction or one committed later |
| `CatalogOutcomes.CreateOutcome` | src/catalog/catalog_set.cpp:18-73 | exactly when a create succeeds, finds the name in use, or fails, its dependencies included |
| `CatalogOutcomes.AlterOutcome` | src/catalog/catalog_set.cpp:103-161 | exactly when an alteration succeeds, finds nothing, or fails: conflict, internal entry, or a dependent that is there for anyone |
| `CatalogOutcomes.DropOutcome` | src/catalog/catalog_set.cpp:163-207 | exactly when the drop of one entry succeeds, finds nothing, or fails |
| `CatalogOutcomes.RenameOutcome` | src/catalog/catalog_set.cpp:103-161 | exactly when a rename succeeds: the entry may be changed and nothing depends on it, the transaction reads nothing under the new name, and nobody else has started it |
| `CatalogOutcomes.TakenIffRead` | src/catalog/catalog_set.cpp:130-138 | a new name is refused as taken exactly if the transaction reads something under it |
| `CatalogOutcomes.UncommittedRenameUnseen` | src/catalog/catalog_set.cpp:341-373 | until it is committed no other transaction sees a rename, under any name |
| `CatalogDependencies.CascadeIsClosed` | src/catalog/dependency_manager.cpp:31-62 | every transitive live dependent of a dropped entry is dropped, along every path, diamonds included |
| `CatalogDependencies.DroppedIsReached` | src/catalog/dependency_manager.cpp:31-62 | and nothing else is: a path of live dependents leads from the named entry to every dropped one |
| `CatalogCascades.RunByAge` | src/catalog/dependency_manager.cpp:10-119 | in every run dependents stay younger than what they depend on, also after rollbacks |
| `CatalogCascades.CascadesEnd` | src/catalog/dependency_manager.cpp:31-62 | in every reachable state the recursion of a cascading drop has a decreasing measure |
| `LinearProbing.Insert` | src/execution/aggregate_hashtable.cpp:226-243 | filling the first empty slot from a home keeps: one slot per tuple, and no empty slot between a home and its tuple |
| `LinearProbing.WalkEnds` | src/execution/aggregate_hashtable.cpp:644-726 | with more slots than tuples a walk from any home meets an empty slot |
| `LinearProbing.MetBeforeEmptySlot` | src/execution/aggregate_hashtable.cpp:644-726 | a walk from a tuple's home passes its slot before the first empty one |
| `LinearProbing.OneSlotPerTuple` | src/execution/aggregate_hashtable.cpp:147-164 | no two slots refer to the same tuple |
| `GroupProbing.LookKeepsUnread` | src/execution/aggregate_hashtable.cpp:650-703 | compacting into the vector that is being read never overwrites an index not yet read |
| `GroupProbing.LookPartitions` | src/execution/aggregate_hashtable.cpp:650-703 | a round files every remaining row exactly once: as new, to compare, or to move on |
| `GroupProbing.CompareDecides` | src/execution/aggregate_hashtable.cpp:535-586 | column-wise comparison keeps a row exactly if all its columns agree with the tuple |
| `GroupProbing.FreeSlotMeansAbsent` | src/execution/aggregate_hashtable.cpp:653-687 | a row that reaches an empty slot has a key the table does not hold |
| `GroupProbing.FreshKeysDiffer` | src/execution/aggregate_hashtable.cpp:653-687 | two rows that take empty slots in the same round have different keys |
| `GroupProbing.RoundProgress` | src/execution/aggregate_hashtable.cpp:644-726 | a round leaves every remaining row past occupied slots with other keys, one slot further than before |
| `AggregateHashTable.GroupedAggregateHashTable.constructor` | src/execution/aggregate_hashtable.cpp:32-85 | a new table is valid and holds no group |
| `AggregateHashTable.GroupedAggregateHashTable.PayloadApply` | src/execution/aggregate_hashtable.cpp:91-111 | visits every tuple once, in page order |
| `AggregateHashTable.GroupedAggregateHashTable.NewBlock` | src/execution/aggregate_hashtable.cpp:113-118 | a new page keeps the page positions consistent |
| `AggregateHashTable.GroupedAggregateHashTable.FindFreeSlot` | src/execution/aggregate_hashtable.cpp:229-235 | the probe loop of a resize ends at the first free slot from the home |
| `AggregateHashTable.GroupedAggregateHashTable.Resize` | src/execution/aggregate_hashtable.cpp:198-246 | grows exactly if the new size is larger, and then indexes every tuple again under the probing invariant |
| `AggregateHashTable.GroupedAggregateHashTable.Classify` | src/execution/aggregate_hashtable.cpp:650-703 | the in-place loop over the rows equals its functional description row by row |
| `AggregateHashTable.GroupedAggregateHashTable.ScatterGroups` | src/execution/aggregate_hashtable.cpp:412-487 | writes the group columns of exactly the selected new tuples |
| `AggregateHashTable.GroupedAggregateHashTable.CompareGroups` | src/execution/aggregate_hashtable.cpp:489-586 | appends exactly the rows whose key differs from their tuple's |
| `AggregateHashTable.GroupedAggregateHashTable.ProbeRound` | src/execution/aggregate_hashtable.cpp:644-726 | one round keeps the lookup invariant and never runs out of slots |
| `AggregateHashTable.GroupedAggregateHashTable.ProbeAll` | src/execution/aggregate_hashtable.cpp:644-726 | the outer loop ends with every row at the tuple of its key |
| `AggregateHashTable.GroupedAggregateHashTable.FindOrCreateGroups` | src/execution/aggregate_hashtable.cpp:588-745 | fails exactly if the chunk could exceed the capacity, and then changes nothing; otherwise every row gets the tuple with its key and the tuples added are those of the rows reported as new |
| `GroupAggregates.SameTupleIffSameKey` | src/execution/aggregate_hashtable.cpp:588-731 | two rows get the same address if and only if their keys are equal |
| `GroupAggregates.NewGroupsAreAbsentKeys` | src/execution/aggregate_hashtable.cpp:682-685 | the rows reported as new have distinct keys and stand for exactly the keys that were absent |
| `AggregateHashTable.GroupedAggregateHashTable.AddChunk` | src/execution/aggregate_hashtable.cpp:271-361 | every key's state is extended by exactly the rows with that key; fails exactly if the table could overflow |
| `AggregateHashTable.GroupedAggregateHashTable.FlushMove` | src/execution/aggregate_hashtable.cpp:760-787 | combines a vector of tuples of another table into the groups of their keys, exactly if there is room for all of them to be new |
| `AggregateHashTable.GroupedAggregateHashTable.TakeVector` | src/execution/aggregate_hashtable.cpp:760-787 | a table has one tuple for every key it had or was sent, so that the keys sent so far decide whether the next vector is refused |
| `AggregateHashTable.GroupedAggregateHashTable.Combine` | src/execution/aggregate_hashtable.cpp:789-824 | afterwards every key has the combination of both tables' states; fails exactly if one of the vectors of the other table's tuples is refused |
| `AggregateHashTable.GroupedAggregateHashTable.Partition` | src/execution/aggregate_hashtable.cpp:838-874 | every target table is merged with exactly the groups of its partition; fails exactly if a target refuses one of the vectors of tuples sent to it |
| `GroupAggregates.FindApply` | src/execution/aggregate_hashtable.cpp:271-361 | updating row by row at the found addresses extends every key by its own rows |
| `GroupAggregates.ExtendIsMerge` | src/execution/aggregate_hashtable.cpp:760-824 | extending a state by rows equals merging it with the state of those rows alone |
| `GroupAggregates.FindPartition` | src/execution/aggregate_hashtable.cpp:838-874 | the tuples sent to a partition hold a key exactly if the source does and the key has that radix |
| `GroupAggregates.PartitionState` | src/execution/partitionable_hashtable.cpp:83-107 | the rows selected for a partition aggregate to the groups of that partition and to nothing else |
| `PartitionableHashTable.RadixIsRemainder` | src/execution/partitionable_hashtable.cpp:26-29 | masking and shifting a hash yields its bits above the shift modulo the number of partitions, hence a partition number |
| `PartitionableHashTable.RadixPartitionInfo.constructor` | src/execution/partitionable_hashtable.cpp:5-30 | the partition count is the largest power of two up to the bound and 256, and the mask selects as many bits |
| `PartitionableHashTable.ListAddChunk` | src/execution/partitionable_hashtable.cpp:52-63 | the merged list gains exactly the aggregates of the chunk, and fails exactly if the chunk alone exceeds a table's capacity |
| `PartitionableHashTable.SplitRows` | src/execution/partitionable_hashtable.cpp:79-91 | the selection vectors hold each partition's rows, in order |
| `PartitionableHashTable.AddToPartitions` | src/execution/partitionable_hashtable.cpp:101-109 | every list gains the rows selected for it; fails exactly if some selection exceeds a table's capacity |
| `PartitionableHashTable.PartitionAll` | src/execution/partitionable_hashtable.cpp:112-129 | every list holds exactly its partition of all sources, although all sources are sent to the first tables; fails if and only if one of these tables refuses a vector, which the keys and the order of the source tuples decide |
| `PartitionCapacity.FitsIfFew` | src/execution/partitionable_hashtable.cpp:112-129 | nothing is refused if no partition has more tuples, over all sources, than one table can hold |
| `PartitionCapacity.FitsOnlyIfFewKeys` | src/execution/partitionable_hashtable.cpp:112-129 | something is if a partition has more keys than one table can hold |
| `PartitionCapacity.FitsIff` | src/execution/partitionable_hashtable.cpp:112-129 | with no key in two source tables: exactly if no partition has more tuples than one table can hold |
| `PartitionCapacity.ReceivedKeys` | src/execution/aggregate_hashtable.cpp:760-787 | a table that received tuples holds its own keys and theirs, and no others |
| `PartitionCapacity.GroupsCount` | src/execution/partitionable_hashtable.cpp:112-129 | a partition has at most as many keys as tuples, and with no key twice as many |
| `PartitionableHashTable.MergedKeys` | src/execution/partitionable_hashtable.cpp:112-129 | a table that was merged with its partition of a source holds the keys of both |
| `PartitionableHashTable.RowsDoNotFit` | src/execution/partitionable_hashtable.cpp:112-129 | more rows of one partition with different keys than a table can hold cannot be partitioned |
| `PartitionableHashTable.TooManyRows` | src/execution/partitionable_hashtable.cpp:112-129 | more different keys than fit into one table of every partition cannot be partitioned, whatever the hash function |
| `PartitionableHashTable.PartitioningRunsOut` | src/execution/partitionable_hashtable.cpp:112-129 | for every capacity, block size, hash function and partition count: one row more than that, with different keys; adding them works and partitioning fails |
| `PartitionableHashTable.GroupsInTheirPartition` | src/execution/partitionable_hashtable.cpp:65-129 | every group in list r has radix r and belongs to a row that was added |
| `PartitionableHashTable.PartitionableHashTable.constructor` | src/execution/partitionable_hashtable.cpp:32-50 | a new table holds the aggregates of no rows |
| `PartitionableHashTable.PartitionableHashTable.Partition` | src/execution/partitionable_hashtable.cpp:112-129 | partitioning conserves the aggregates of all rows added so far; fails exactly if PartitionAll does |
| `PartitionableHashTable.PartitionableHashTable.AddChunk` | src/execution/partitionable_hashtable.cpp:65-110 | after any run of chunks, partitioned at any point, merging the tables gives the group-by of all rows; the exact condition for the capacity exception, before, while and after partitioning |
| `PerfectHashing.AddressInTable` | src/execution/perfect_aggregate_hashtable.cpp:92-112 | every address is below two to the number of required bits |
| `PerfectHashing.AddressesDiffer` | src/execution/perfect_aggregate_hashtable.cpp:42-90 | different keys, NULL included, have different addresses |
| `PerfectHashing.KeyRoundTrip` | src/execution/perfect_aggregate_hashtable.cpp:183-222 | reconstructing an address returns the key it was made from, for any columns and widths |
| `PerfectHashing.AddressRoundTrip` | src/execution/perfect_aggregate_hashtable.cpp:183-222 | every address of the table is the address of the key reconstructed from it |
| `PerfectHashing.EarlierColumns` | src/execution/perfect_aggregate_hashtable.cpp:224-251 | shifting out later columns leaves the packed earlier ones |
| `PerfectAggregateHashTable.ComputeGroupLocation` | src/execution/perfect_aggregate_hashtable.cpp:42-90 | adds one column to all partial addresses |
| `PerfectAggregateHashTable.ComputeAddresses` | src/execution/perfect_aggregate_hashtable.cpp:92-106 | the column loop computes the packed address of every row |
| `PerfectAggregateHashTable.ReconstructGroup` | src/execution/perfect_aggregate_hashtable.cpp:183-222 | the column loop reconstructs all columns of a group |
| `PerfectAggregateHashTable.PerfectAggregateHashTable.constructor` | src/execution/perfect_aggregate_hashtable.cpp:7-36 | a new table holds no group |
| `PerfectAggregateHashTable.PerfectAggregateHashTable.AddChunk` | src/execution/perfect_aggregate_hashtable.cpp:92-127 | every key's state is extended by exactly its rows |
| `PerfectAggregateHashTable.PerfectAggregateHashTable.Combine` | src/execution/perfect_aggregate_hashtable.cpp:142-181 | every key ends up with the combined state of both tables, batches included |
| `PerfectAggregateHashTable.PerfectAggregateHashTable.Scan` | src/execution/perfect_aggregate_hashtable.cpp:224-260 | returns the next groups that are set, up to a vector, and where to go on |
| `PerfectAggregateHashTable.ScanAll` | src/execution/perfect_aggregate_hashtable.cpp:224-260 | repeated scans cover the whole table |
| `PerfectAggregateHashTable.ScanReturnsGroups` | src/execution/perfect_aggregate_hashtable.cpp:224-260 | a row is scanned if and only if the table holds that state for that key |
| `PerfectAggregateHashTable.ScanKeysDiffer` | src/execution/perfect_aggregate_hashtable.cpp:224-260 | no key is scanned twice |
| `PerfectAggregateHashTable.FoldIsExtend` | src/execution/perfect_aggregate_hashtable.cpp:92-127 | folding the rows at a key's address is grouping them by the key |
| `JoinSemantics.GatherIsMatch` | src/execution/join_hashtable.cpp:508-539 | comparing serialized keys decides the SQL join conditions on all keys that pass the NULL filter |
| `JoinSemantics.ComparisonsAgree` | src/execution/join_hashtable.cpp:508-539 | the six comparisons are those of one strict total order |
| `JoinSemantics.EqualKeysMatch` | src/execution/join_hashtable.cpp:91-130 | equality conditions match exactly equal keys, with NULL only in columns that treat NULLs as equal |
| `JoinSemantics.DecidesWithNullsIff` | src/execution/join_hashtable.cpp:106-130 | with NULL build keys kept, serialized comparison agrees with SQL if and only if every condition rejects the NULL sentinel |
| `JoinSemantics.NullBuildKeyMatches` | src/execution/join_hashtable.cpp:508-539 | any condition the sentinel satisfies has a probe key that wrongly matches a NULL build key |
| `JoinSemantics.MatchAgreesOnHashedColumns` | src/execution/join_hashtable.cpp:91-105 | keys that match agree on the columns that are hashed |
| `JoinSemantics.DroppedNeverMatches` | src/execution/join_hashtable.cpp:239-261 | a key dropped by the NULL filter matches nothing |
| `JoinChains.LinkNext` | src/execution/join_hashtable.cpp:367-388 | putting a tuple at the front of its bucket keeps the chains well formed and later hashes readable |
| `JoinChains.ChainIsBucket` | src/execution/join_hashtable.cpp:367-388 | a chain visits exactly the tuples of its bucket, each once, latest first |
| `JoinChains.EveryTupleInOneChain` | src/execution/join_hashtable.cpp:390-430 | every appended tuple is in the chain of its bucket and in no other |
| `JoinBuild.FilterNullValues` | src/execution/join_hashtable.cpp:227-237 | keeps exactly the rows that are not NULL |
| `JoinBuild.PrepareKeys` | src/execution/join_hashtable.cpp:239-261 | filters column by column, except columns where NULLs are equal or all build rows are kept |
| `JoinBuild.PreparedKeysSelect` | src/execution/join_hashtable.cpp:239-261 | the filter keeps exactly the rows whose keys may match, in order |
| `JoinBuild.Serialize` | src/execution/join_hashtable.cpp:106-216 | writes key, payload and hash of every selected row |
| `JoinBuild.AppendToBlocks` | src/execution/join_hashtable.cpp:218-225 | fills the last block first and makes room for all new tuples |
| `JoinBuild.LoadHashes` | src/execution/join_hashtable.cpp:413-420 | reads the stored hashes of a vector of tuples while their slots still hold them |
| `JoinBuild.InsertHashes` | src/execution/join_hashtable.cpp:367-388 | links a vector of tuples and leaves later slots untouched |
| `JoinBuild.LinkBlocks` | src/execution/join_hashtable.cpp:402-427 | one pass over all blocks links every tuple |
| `JoinHashTable.JoinHashTable.constructor` | src/execution/join_hashtable.cpp:15-57 | a new table is empty and ready for building |
| `JoinHashTable.JoinHashTable.Build` | src/execution/join_hashtable.cpp:263-365 | the table holds the tuples of exactly the rows that may match or must be returned, and remembers whether rows were dropped |
| `JoinHashTable.JoinHashTable.Finalize` | src/execution/join_hashtable.cpp:390-430 | all tuples are chained by hash; the number of buckets is a power of two and at least twice the tuples |
| `JoinHashTable.JoinHashTable.ScanFullOuter` | src/execution/join_hashtable.cpp:1060-1100 | returns the next unmatched build rows, up to a vector, in block order |
| `JoinHashTable.StartScan` | src/execution/join_hashtable.cpp:432-471 | a started probe has every matching tuple still ahead of it |
| `JoinHashTable.ProbeHeads` | src/execution/join_hashtable.cpp:444-470 | points every remaining row at its bucket and selects those whose bucket is not empty |
| `JoinHashTable.ScanUnmatched` | src/execution/join_hashtable.cpp:1060-1082 | collects unmatched tuples across block borders without skipping or repeating |
| `JoinScan.Gather` | src/execution/join_hashtable.cpp:508-539 | splits a selection by one condition |
| `JoinScan.ResolvePredicates` | src/execution/join_hashtable.cpp:591-640 | splits the selection by all conditions |
| `JoinScan.AdvancePointers` | src/execution/join_hashtable.cpp:673-690 | moves the selected rows one tuple on and keeps those with a tuple |
| `JoinScan.NothingSkipped` | src/execution/join_hashtable.cpp:673-690 | between a pointer and the one after it there is no match |
| `JoinScan.RoundEmits` | src/execution/join_hashtable.cpp:650-671 | a round finds exactly the matches its rows move past, none a second time |
| `JoinScan.AdvanceShrinks` | src/execution/join_hashtable.cpp:673-690 | advancing shortens the total remaining chain length |
| `JoinScan.ScanInnerJoin` | src/execution/join_hashtable.cpp:650-671 | goes on until some rows match or all chains have ended |
| `JoinScan.ScanKeyMatches` | src/execution/join_hashtable.cpp:806-825 | finds for every row whether it has a match |
| `JoinProbe.NextMatches` | src/execution/join_hashtable.cpp:769-804 | one call returns new matches and flags exactly their rows and tuples |
| `JoinProbe.ConstructMarkJoinResult` | src/execution/join_hashtable.cpp:868-909 | a mark is true on a match, otherwise NULL for a NULL key or if build rows were dropped, otherwise false |
| `JoinProbe.ScanStructure.constructor` | src/execution/join_hashtable.cpp:432-475 | a new scan has found nothing and has everything ahead |
| `JoinProbe.ScanStructure.NextInnerJoin` | src/execution/join_hashtable.cpp:769-804 | returns the rows of the matches found since the last call; none only at the end |
| `JoinProbe.ScanStructure.NextLeftJoin` | src/execution/join_hashtable.cpp:982-1011 | the same, and at the end the left rows without a match |
| `JoinProbe.ScanStructure.NextSemiOrAntiJoin` | src/execution/join_hashtable.cpp:827-866 | returns the left rows with, or without, a match |
| `JoinProbe.ScanStructure.NextMarkJoin` | src/execution/join_hashtable.cpp:911-980 | returns one mark per left row |
| `JoinProbe.ScanStructure.NextSingleJoin` | src/execution/join_hashtable.cpp:1013-1058 | returns every left row with one match's payload or with NULL |
| `JoinProbe.ScanStructure.Next` | src/execution/join_hashtable.cpp:477-506 | dispatches; every call that returns rows makes progress |
| `JoinResults.NestedLoopPairs` | src/execution/join_hashtable.cpp:432-471 | the reference nested loop enumerates every pair of the join once |
| `JoinResults.EnumerationIsJoin` | src/execution/join_hashtable.cpp:432-471 | any duplicate-free enumeration of the pairs has the multiset of rows of the nested loop |
| `JoinResults.NestedLoopRows` | src/execution/operator/join/physical_hash_join.cpp:177-256 | the rows of the reference nested loop by join type: INNER has every matching pair, LEFT also every left row without a match once, RIGHT every build row without a match once, FULL OUTER both, counted with multiplicity |
| `HashJoin.JoinHasRows` | src/execution/operator/join/physical_hash_join.cpp:177-256 | so has every result with the rows of the nested loop |
| `HashJoin.ProbeChunk` | src/execution/operator/join/physical_hash_join.cpp:224-256 | driving Next to the end returns every match of the chunk once and every unmatched left row once |
| `HashJoin.ConstructEmptyJoinResult` | src/execution/operator/join/physical_comparison_join.cpp:34-78 | the rows are those of the nested-loop join with an empty right side, and what a complete scan of no tuples returns |
| `HashJoin.AddChunk` | src/execution/operator/join/physical_hash_join.cpp:224-256 | the collected result grows by exactly the rows of the chunk |
| `HashJoin.ScanRemaining` | src/execution/operator/join/physical_hash_join.cpp:195-198 | repeated scans return every unmatched build row once |
| `HashJoin.LeftoversCompleteJoin` | src/execution/operator/join/physical_hash_join.cpp:177-222 | the unmatched tuples complete the result of a right or full outer join |
| `HashJoin.Join` | src/execution/operator/join/physical_hash_join.cpp:177-256 | for any build rows, probe chunks and conditions the result of an INNER, LEFT, RIGHT or FULL OUTER join is the multiset of the nested-loop join with the build rows as compared, where a right or full outer join compares the sentinel for NULL; if every condition rejects the sentinel it is the nested-loop join with the rows as they are; in both cases the rows are also given by join type, as for `NestedLoopRows` |
| `HashJoin.JoinsNull` | src/execution/join_hashtable.cpp:500-620 | for every RIGHT or FULL OUTER join with a condition that accepts the sentinel, one row on each side whose join is not the nested-loop join |
| `HashJoin.PairInJoin` | src/execution/operator/join/physical_hash_join.cpp:177-256 | the join of one row with one row pairs them exactly if they match |
| `HashJoin.ComparedIsJoin` | src/execution/join_hashtable.cpp:500-620 | comparing the sentinel makes no difference to the join if every condition rejects it |
| `JoinSemantics.SentinelMatches` | src/execution/join_hashtable.cpp:500-620 | serialized comparison of any keys in range is the SQL comparison with the sentinel for NULL in the columns that do not treat NULLs as equal |
| `ExistenceJoins.SemiOrAntiJoin` | src/execution/join_hashtable.cpp:827-866 | returns exactly the left rows for which a matching build row exists, or those for which none does |
| `ExistenceJoins.SemiAndAntiPartition` | src/execution/join_hashtable.cpp:827-866 | SEMI and ANTI together return every left row once |
| `ExistenceJoins.InCases` | src/execution/join_hashtable.cpp:868-909 | the three-valued IN is true on an equal value, unknown if NULLs leave it open, and false otherwise |
| `ExistenceJoins.MarkIsIn` | src/execution/join_hashtable.cpp:868-909 | a mark is the three-valued IN of the key and the build values |
| `ExistenceJoins.MarkJoin` | src/execution/join_hashtable.cpp:911-980 | a single-key uncorrelated MARK join computes IN for every left row, for empty tables too |
| `ExistenceJoins.SingleJoin` | src/execution/join_hashtable.cpp:1013-1058 | every left row appears once, with the payload of a row that joins with it or alone if there is none |
| `WindowSegmentTree.SegmentTree.CountInternalNodes` | src/execution/window_segment_tree.cpp:116-127 | the counted space is enough for all levels |
| `WindowSegmentTree.SegmentTree.constructor` | src/execution/window_segment_tree.cpp:116-150 | every level is stored between its starts and the last has at most one node; no write leaves the space |
| `WindowSegmentTree.SegmentTree.ConstructLevel` | src/execution/window_segment_tree.cpp:135-149 | appends the parents of the level on top |
| `WindowSegmentTree.SegmentTree.WindowSegmentValue` | src/execution/window_segment_tree.cpp:67-114 | folds a range of nodes of one level into the state |
| `WindowSegmentTree.SegmentTree.FoldEdges` | src/execution/window_segment_tree.cpp:172-190 | folds the ragged edges; state and remaining range still fold to the total, and the next level exists |
| `WindowSegmentTree.SegmentTree.FoldLeftEdge` | src/execution/window_segment_tree.cpp:179-183 | folds the nodes before the first whole group |
| `WindowSegmentTree.SegmentTree.Compute` | src/execution/window_segment_tree.cpp:152-193 | for every range the result is that of folding the rows directly, and the level loop returns before an unbuilt level |
| `WindowSegmentTree.FoldParents` | src/execution/window_segment_tree.cpp:116-150 | folding whole parents is folding all nodes below them |
| `WindowSegmentTree.EdgesThenParents` | src/execution/window_segment_tree.cpp:172-190 | left edge, right edge and parents cover a range exactly once, for a commutative monoid |
| `WindowSegmentTree.FoldLevelZero` | src/execution/window_segment_tree.cpp:67-90 | folding level zero is folding the rows |
| `CseOptimizer.CseState.CountExpressions` | src/optimizer/cse_optimizer.cpp:46-69 | the counts are the numbers of occurrences of every expression that may be shared |
| `CseOptimizer.CseState.PerformReplacement` | src/optimizer/cse_optimizer.cpp:71-113 | the rewritten expression has the original's value on every row, calls side-effecting functions as often and reads only the projection |
| `CseOptimizer.CseState.ReplaceColumn` | src/optimizer/cse_optimizer.cpp:73-89 | a column reference becomes a reference to its column of the projection |
| `CseOptimizer.CseState.ReplaceShared` | src/optimizer/cse_optimizer.cpp:90-108 | a shared expression becomes a reference to its one column of the projection |
| `CseOptimizer.ExtractCommonSubExpressions` | src/optimizer/cse_optimizer.cpp:115-144 | rewrites exactly if some function node that calls nothing with side effects occurs twice; meaning is preserved for every operator, row and evaluation; no two columns of the projection are equal, and each is a column reference that occurs or such a node that occurs twice; nothing that occurs twice is left in the rewritten expressions |
| `CseOptimizer.NodeEliminated` | src/optimizer/cse_optimizer.cpp:71-113 | a node over rewritten arguments contains nothing shared, and is the original node if it reads nothing of the projection |
| `CseOptimizer.NodeReplaces` | src/optimizer/cse_optimizer.cpp:71-113 | replacing arguments preserves the meaning of the node |
| `CseOptimizer.ReplacesMore` | src/optimizer/cse_optimizer.cpp:71-113 | later columns of the projection do not change earlier rewrites |
| `CseOptimizer.NoCalls` | src/optimizer/cse_optimizer.cpp:56-66 | an expression that may be shared calls nothing with side effects |
| `CseOptimizer.SideEffectsAreCalls` | src/optimizer/cse_optimizer.cpp:56-66 | an expression counts as having side effects if and only if evaluating it calls a function with side effects |
| `ColumnLifetime.ColumnLifetimeAnalyzer.VisitExpressions` | src/optimizer/column_lifetime_analyzer.cpp:139-143 | records exactly the columns the expressions read |
| `ColumnLifetime.ColumnLifetimeAnalyzer.ExtractUnusedColumnBindings` | src/optimizer/column_lifetime_analyzer.cpp:11-18 | returns exactly the columns nothing refers to |
| `ColumnLifetime.ColumnLifetimeAnalyzer.GenerateProjectionMap` | src/optimizer/column_lifetime_analyzer.cpp:20-36 | maps to the used columns in order; empty if that is all of them |
| `ColumnLifetime.ColumnLifetimeAnalyzer.VisitOperator` | src/optimizer/column_lifetime_analyzer.cpp:50-137 | the pruned plan resolves, has the same rows, and every kept column has the same data; every filter and equality join in it leaves out exactly the columns that are not needed above it, where needs are defined on the original plan; the references collected are those the plan exposes |
| `ColumnLifetime.ColumnLifetimeAnalyzer.VisitAggregate` | src/optimizer/column_lifetime_analyzer.cpp:52-59 | an aggregate keeps its columns while its child may lose some |
| `ColumnLifetime.ColumnLifetimeAnalyzer.VisitFilter` | src/optimizer/column_lifetime_analyzer.cpp:117-132 | a filter leaves out exactly the columns of its child that are not needed above, and so does everything below it |
| `ColumnLifetime.ColumnLifetimeAnalyzer.VisitJoin` | src/optimizer/column_lifetime_analyzer.cpp:60-92 | a join with an equality leaves out exactly such columns of its right side, other joins none, and so does everything below |
| `ColumnLifetime.PruneColumns` | src/optimizer/column_lifetime_analyzer.cpp:50-137 | pruning a whole plan that resolves yields one that resolves, with the same rows and output columns, in which every filter and equality join leaves out exactly the columns that are not needed above it: the root and the inputs of DISTINCT and of set operations need all, a projection or aggregate what it reads, and the right side of a join also what its left side exposes |
| `ColumnLifetime.MapKeepsNeeded` | src/optimizer/column_lifetime_analyzer.cpp:20-36 | the projection map made of the unused columns keeps exactly the needed ones |
| `ColumnNeeds.LeavesOutIff` | src/optimizer/column_lifetime_analyzer.cpp:20-36 | columns are left out exactly if some are needed and others are not |
| `ColumnNeeds.TightIff` | src/optimizer/column_lifetime_analyzer.cpp:50-137 | a pruned plan leaves out every column that no operator above needs if and only if no filter or equality join with both needed and unneeded columns stands to the right of a DISTINCT of the same scope |
| `ColumnNeeds.PruneTightly` | src/optimizer/column_lifetime_analyzer.cpp:50-137 | so does the pruning of a whole plan |
| `ColumnNeeds.NothingAffected` | src/optimizer/column_lifetime_analyzer.cpp:110-116 | plans in which no left side of a join exposes a DISTINCT have no such filter or join |
| `ColumnNeeds.DistinctLeftIsAffected` | src/optimizer/column_lifetime_analyzer.cpp:110-116 | a concrete join of a DISTINCT with a filtered table has one |
| `ColumnLifetime.LookUpKept` | src/execution/column_binding_resolver.cpp:72-94 | a kept column is found with the data it had |
| `ColumnLifetime.BothPruned` | src/optimizer/column_lifetime_analyzer.cpp:60-92 | losing columns on either side and through the map loses no row and no referenced column of a join |
| `ColumnLifetime.FilterPruned` | src/optimizer/column_lifetime_analyzer.cpp:117-132 | the same for a filter |
| `ColumnLifetime.ColumnBindingResolver.ResolveReference` | src/execution/column_binding_resolver.cpp:72-94 | finds the first position of a binding, or fails if there is none |
| `ColumnLifetime.ColumnBindingResolver.VisitOperator` | src/execution/column_binding_resolver.cpp:18-70 | succeeds if and only if every column reference of the plan resolves, and ends with the plan's bindings |
| `ColumnLifetime.ColumnBindingResolver.VisitJoin` | src/execution/column_binding_resolver.cpp:19-41 | resolves the left conditions against the left side and the right ones against the right side |
| `Bits.NextPowerOfTwo` | src/common/constants.cpp:17-27 | returns the least power of two not below its argument, and zero exactly for zero and above 2^63, by smearing bits |
| `Bits.Smear` | src/common/constants.cpp:19-24 | or-ing with a shifted copy doubles the number of set top bits |
| `Bits.MaskIsRemainder` | src/execution/join_hashtable.cpp:62-89 | masking with a power of two less one is the remainder |
| `KeyEncoding.StoredIsBigEndian` | src/include/guinsoodb/common/bit_operations.hpp:18-30 | byte swapping stores the same bytes on machines of either byte order |
| `KeyEncoding.BigEndianOrder` | src/common/bit_operations.cpp:103-121 | byte order of unsigned encodings is numeric order, both ways, at every width |
| `KeyEncoding.FlipIsOffset` | src/common/bit_operations.cpp:18-20 | flipping the sign bit of the first byte adds half the range |
| `KeyEncoding.SignedOrder` | src/common/bit_operations.cpp:79-101 | byte order of signed encodings is numeric order and encodings are distinct, at every width |
| `KeyEncoding.HugeOrder` | src/common/bit_operations.cpp:123-127 | the same for 128-bit numbers |
| `FloatEncoding.EncodeOrder` | src/common/bit_operations.cpp:22-72 | encoded numbers are ordered as the numbers, infinities and subnormals included, and exactly the two zeros are identified |
| `FloatEncoding.MagnitudeOrder` | src/common/bit_operations.cpp:22-72 | magnitudes of IEEE 754 binary formats have the order of their bit fields |
| `DataEncoding.EncodeFloat` | src/common/bit_operations.cpp:22-47 | the mask operations compute the specified 32-bit encoding |
| `DataEncoding.EncodeDouble` | src/common/bit_operations.cpp:49-72 | the arithmetic computes the specified 64-bit encoding |
| `DataEncoding.FloatBytesOrder` | src/common/bit_operations.cpp:129-139 | byte order of encoded floating-point numbers is their order, NaN aside |
| `DataEncoding.EncodeSigned` | src/common/bit_operations.cpp:79-101 | writes the signed encoding at its place and nothing else |
| `DataEncoding.EncodeUnsigned` | src/common/bit_operations.cpp:103-121 | writes the unsigned encoding at its place and nothing else |
| `DataEncoding.EncodeHuge` | src/common/bit_operations.cpp:123-127 | writes both halves of a 128-bit number at their places |
| `DataEncoding.EncodeFloatData` | src/common/bit_operations.cpp:129-133 | writes the encoded 32-bit number |
| `DataEncoding.EncodeDoubleData` | src/common/bit_operations.cpp:135-139 | writes the encoded 64-bit number |
| `DataEncoding.EncodeBool` | src/common/bit_operations.cpp:74-77 | writes one byte, 1 for true and 0 for false, and nothing else |
| `DataEncoding.EncodeInterval` | src/common/bit_operations.cpp:141-148 | writes months, days and microseconds |
| `DataEncoding.IntervalOrder` | src/common/bit_operations.cpp:141-148 | byte order of intervals is the order of the stored months, then days, then microseconds |
| `Intervals.ComparableAgree` | src/common/types/interval.cpp:315-350 | among intervals with less than a month of days and less than a day of microseconds, or more only next to a full month, byte order is the order of intervals |
| `Intervals.OrderAgreesIff` | src/common/types/interval.cpp:315-350 | an interval is ordered by its bytes against all of these if and only if it is one of them, or lies beyond them at an end of the 32-bit range of months |
| `Intervals.FortyDays` | src/common/types/interval.cpp:333-350 | forty days are greater than one month, and their bytes come first |
| `Levenshtein.LevenshteinArray.Set` | src/common/string_util.cpp:183-193 | writing a cell of the flattened table changes no other cell |
| `Levenshtein.CellsApart` | src/common/string_util.cpp:191-193 | different cells have different places |
| `Levenshtein.LevenshteinDistance` | src/common/string_util.cpp:197-229 | the table ends with the distance of the recurrence, for all strings |
| `Levenshtein.NoShorterScript` | src/common/string_util.cpp:197-229 | no script of insertions, deletions and substitutions is shorter than the distance |
| `Levenshtein.ShortestScript` | src/common/string_util.cpp:197-229 | some script is as short |
| `Levenshtein.LevIsEditDistance` | src/common/string_util.cpp:197-229 | a script of at most n edits exists if and only if the distance is at most n |
| `Levenshtein.LevSymmetric` | src/common/string_util.cpp:197-229 | the distance is symmetric |
| `Levenshtein.TriangleInequality` | src/common/string_util.cpp:197-229 | the distance satisfies the triangle inequality |

## Left out

- CatalogSet.CatalogSet.UndoRecord: records name versions by chain and height, while the code keeps pointers; after an undo that went astray the pointers follow the moved versions, and those into the chain that was replaced dangle, which is not modelled.
- CatalogRollback.ApplyUndone: the undo follows the operation at once; with other transactions in between, what happens to the chains is `SafeRollbackIff`.
- CatalogRollback.RollbackRestores: no other transaction interrupts; with others in between, the same.
- CatalogRollback.RollbackRestoresIff: the rollback follows the operation at once, the same.
- CatalogReach.ReachedRollbackIff: the rollback follows the operation at once, the same.
- CatalogReach.KeptNamesRollbackIff: the rollback follows the operation at once, the same.
- CatalogOwners.SafeRollbackIff: speaks of chains; what becomes of the names of interleaved renames is `HomewardTakesOut`, which says what is given back and not whose it was.
- CatalogOwners.AnyRollbackIff: asks that records are still of versions, in rising order, since an earlier rollback that went astray can leave records of nothing, which in the code are dangling pointers.
- JoinHashTable.JoinHashTable.Finalize: requires at most 2^62 tuples, beyond which doubling the count leaves the range of `NextPowerOfTwo`.
- ExistenceJoins.MarkJoin: covers one key column; with several, the validity mask of a later column overwrites that of an earlier one.
- JoinProbe.ScanStructure.NextMarkJoin: correlated MARK joins, which keep counts per group, are not modelled.
- CatalogSet.CatalogSet.FindName: the lower-case alias lookup for a name that is not found is not modelled.
- CatalogSet.CatalogSet.ReadEntry: default entry generators and the alias lookup are not modelled.
- CatalogSet.CatalogSet.FindEntry: the alias lookup is not modelled.
- CatalogSet.CatalogSet.DropEntryInternal: without a cascade what makes it fail is stated one way only where some edges to an entry take a cascade and others do not, since the order in which dependents are visited then decides; runs without renames that keep indexes in sets of their own, as the schema does, never get there (`RunSteady`).
- CatalogSet.CatalogSet.DropEntry: the same.
- CatalogRuns.SnapshotStable: covers runs without renames, because a committed rename breaks it; the exact condition is `RenameKeepsViewIff`.
- CatalogReads.RunReads: covers runs without renames, for the same reason.
- CatalogReads.RunReadsOwn: covers runs without renames, for the same reason.
- CatalogReads.RunSteady: covers runs without renames and without alterations of indexes.
- CatalogOutcomes.RenameOutcome: the state before it is one of a run without renames.
- CatalogEffects.CreateThenDrop: the new entry is the only one that depends on the other and can be found, and edges that older versions under its name left behind carry its flag.
- CatalogRuns.Reachable: what holds of names covers runs without renames, because a rename gives a chain a second name; what holds of chains and undo buffers with renames is `RunOwns`.
- CatalogRuns.StepKeeps: covers steps without renames for the same reason.
- CatalogRuns.WorkStep: covers creates, alterations and drops without renames for the same reason.
- CatalogRuns.CommitStep: covers commits without renames; the commit of a rename is `RenameKeepsViewIff`.
- CatalogRuns.RollbackTakesOut: covers runs without renames; with renames the exact condition is `SafeRollbackIff`.
- CatalogCascades.RunByAge: covers runs without renames.
- CatalogCascades.CascadesEnd: covers states of runs without renames.
- CatalogInverse.MapsAreInverse: covers runs without renames, since it builds on what holds of their names.
- CatalogInverse.StepRooted: covers steps without renames, the same.
- CatalogOwners.MapsHoldLiveEntries: covers runs without renames, except that live versions are keys of both maps with renames too (`LiveAreListed`).
- CatalogReach.RunningRollbackRestores: the run before the transaction has no renames, because a rename can make a later rollback fail, and nothing interrupts the transaction.
- AggregateHashTable.GroupedAggregateHashTable.AddChunk: DISTINCT and filtered aggregates are not modelled.
- WindowSegmentTree.SegmentTree.Compute: the path for aggregates that cannot be combined, the zero-column count and the copy across chunk borders are not modelled.
- ColumnLifetime.ColumnLifetimeAnalyzer.VisitOperator: delim and any joins, index creation and the left projection map, which nothing sets, are not modelled.
- ColumnNeeds.PruneTightly: the exact condition asks that nothing on the left of a join refers to columns on its right, as the table indexes that the binder hands out ensure.
- PerfectAggregateHashTable.PerfectAggregateHashTable.Scan: addresses are unbounded integers; the 32-bit width of scanned group values and the width of the bit shift are not modelled.
- Column values are modelled as optional integers, group and join keys as sequences of them; strings, their heaps, raw memory, alignment, pinning and per-type dispatch are not modelled.
- Join comparison on serialized values is modelled for signed integers, whose sentinel is the least value.
- Fixed-size selection vectors, slot arrays and tuple pages of the hash tables are sequence fields that methods reassign; positions replace pointers, so aliasing of pages is not captured.
- Catalog entries of all sets share one table keyed by set and name; lower-case aliases, default generators, locks and the cleanup of old versions are not modelled.
- An alteration that turns out to change nothing returns early without effect and is not modelled.
- Catalog writes are atomic steps, since every write holds the catalog write lock.
- The cache of result chunks in the hash join operator, parallel build, and the delim join are not modelled.
- Finalization of aggregates, the group count an aggregation returns to its operator, and `GroupedAggregateHashTable::Scan` are not modelled.
- Expressions are trees with a meaning supplied as a parameter: comparisons, conjunctions, casts, CASE and operators are functions of their arguments, all of which are evaluated; subqueries, windows and unnests are not modelled.
- Column pruning models expressions by the columns they read.
- NaN and the string prefix of the key encodings, and the ranking of similar strings by edit distance, are not modelled.
- File systems, network, Parquet, the C API, the profiler and the remaining optimizers are not modelled.
