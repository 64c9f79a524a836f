# Verification of the analysis index and its tools

This project models the parts of a Lua language server where a wrong step is
hardest to see, and proves what they promise for every input and every run.

**The copy-on-write store.** An index field is a map cut into shards. A slot
table and the shards inside it sit behind counted references, so a clone or a
task fork shares everything until it writes; a fork's writes go to a dirty
list beside the table. `ArcWorld` models the counted references themselves:
tables and shards have addresses, and a count is the number of places that
hold an address. `CowMemory.Memory` is the store over that memory, operation by
operation, with every fast path the code takes. Each operation is specified by
what it does to `Reads`, the family of finite maps the store stands for.
`CowRuns` puts any interleaving of the operations together.

**Supersteps.** Tasks fork the frozen index and write apart; a barrier takes
every fork back by a three-way merge (`ThreeWay`), shard by shard, field by
field and domain by domain (`Supersteps`; `StoredColumns` and `StoredDomains`
run it over the store). `PlainInstalls` says what is left without a merge;
`Pruning`, `MergeAlgebra`, `MapOrders` and `InAnyOrder`
say what the merges of sums, sets and maps leave and exactly when the order of
the forks shows.

**Derived indexes.** Net sites with their reference counts and inverse index
(`NetSites`, `NetSitesInstall`), and numeric-range populations by file and by
global (`Populations`, `SortedLists`, `PopulationsInstall`), with the invariants that tie
their two sides together and what the superstep merge makes of them.

**Protocols and transformations around the index.** The bounded build queue of
the determinism tool (`BuildQueue`, `BuildOrder`), the staging of file-system events into
moves and writes (`FileEvents`, `FileMoves`, `FileStaging`), the publication
of inferred facts (`InferenceFacts`), the edits and the framing of the LSP client (`LspEdits`,
`LspFraming`), the KeyValues reader (`KeyValues`) and the classification of
configuration changes (`ConfigChange`, `ConfigTable`).

`dafny verify dfyconfig.toml` checks the whole project.

Where the code and its comments differ, the code is followed. Where a promise
does not hold of every input, the failing input and the exact condition are
theorems:

- Forks of a sum install alike in every order unless all changes add up to
  nothing, one fork stores a zero and another changes to something else
  (`MergeAlgebra.SumOrderMatters`). Sets install alike in every order whatever
  is stored.
- Forks of a map of counts or of sets install alike in every order unless an
  entry does not, or one fork stores an empty map, another changes to something
  else, and the others undo each other at every entry
  (`InAnyOrder.MapsOfCountsOrderMatters`, `InAnyOrder.MapsOfSetsOrderMatters`).
  Sets undo each other only by stored empty sets; counts also by wrapping
  around (`MapOrders.CancelledCountsOrderMatters`).
- A global's list merged from several tasks loses repetitions of a population
  a task lists more often than before, unless the task is first to change the
  list (`PopulationsInstall.MergedIndexIsValid`,
  `PopulationsInstall.RepetitionIsLost`).
- A batch of file events is staged to what it says exactly when no two of its
  paths share an order key (`FileStaging.StagingMeansEveryBatch`). Keys fold
  `\` into `/`, and case where paths ignore it, so two may.
- A disputed inference node is never written itself, but a declaration and its
  type owner share one fact, and a disputed one changes with the other
  (`InferenceFacts.DisputedReads` says exactly when).
- How far a change of configuration reaches can be hidden by passing through a
  value whose `runtime` or `gmod` is not an object
  (`ConfigTable.StepsNeverHideReach`); no configuration serializes to one, so
  for configurations it never is (`ConfigTable.EmmyrcStepsNeverHideReach`).

Functions of the store that take a closure (`get_mut`, `entry`, `retain`) are
modelled with a pure function of the value, the page hash is an arbitrary
function, and keys, values, facts, paths and file ids are opaque types with
equality.

## Model

| member | source | states |
|---|---|---|
| `Sharding.PagedFilesFit` | crates/glua_code_analysis/src/db_index/cow_shards.rs:184-193 | with pages in front, a file slot survives the truncation to the 32-bit dirty key, and stays clear of the pages, exactly for ids below 2^32 minus the pages |
| `Sharding.PagedFileCollides` | crates/glua_code_analysis/src/db_index/cow_shards.rs:184-193 | the first file past that bound shares its dirty key with page 0 |
| `Sharding.FileShardHoldsItsKeys` | crates/glua_code_analysis/src/db_index/cow_shards.rs:176-193 | a key lies in the shard of a file exactly when that file owns it, whatever the page hash |
| `ThreeWay.InstallKey` | crates/glua_code_analysis/src/db_index/cow_shards.rs:447-476 | one changed key of an install: what is left and whether it conflicts are the per-key three-way merge, merges of equal changes included |
| `ThreeWay.MergeShard` | crates/glua_code_analysis/src/db_index/cow_shards.rs:432-480 | the inner loop of an install, over changed keys in any order, leaves the per-key merge of the whole shard and conflicts exactly when a key does |
| `ThreeWay.MergedReads` | crates/glua_code_analysis/src/db_index/cow_shards.rs:447-476 | of every key an install leaves, by what the index, the frozen map and the fork read of it: the index's value where the fork has none of its own, the fork's where the index has none or the merge refuses, the composed value otherwise; it conflicts exactly at a refused key where the two differ |
| `ThreeWay.FoldMapsByKey` | crates/glua_code_analysis/src/db_index/cow_shards.rs:490-616 | a superstep acts on each key by itself: the fold of maps read at a key is the fold of that key's values |
| `ThreeWay.UnwrittenForkIsIdentity` | crates/glua_code_analysis/src/db_index/cow_shards.rs:420-446 | a fork that reads like the frozen map changes nothing and conflicts with nothing |
| `ThreeWay.UnchangedIndexBecomesFork` | crates/glua_code_analysis/src/db_index/cow_shards.rs:436-446 | an index unchanged since the fork becomes the fork without conflict: the whole-shard move agrees with the merge |
| `PlainInstalls.PlainSuperstep` | crates/glua_code_analysis/src/db_index/cow_shards.rs:409-476 | without a merge, or with one that refuses, every key holds the value of the last fork that changed it, the index's own if none did; a fork conflicts exactly when at some key it changes what an earlier change left otherwise |
| `PlainInstalls.PlainInstall` | crates/glua_code_analysis/src/db_index/cow_shards.rs:490-542 | so does the store's install of all forks, with those flags |
| `PlainInstalls.PlainField` | crates/glua_code_analysis/src/db_index/cow_shards.rs:1771-1806 | and so does every field of a domain's superstep |
| `ArcWorld.CountedOnce` | crates/glua_code_analysis/src/db_index/cow_shards.rs:706-720 | a shard counted once has one holder, and no other place reads it |
| `ArcWorld.CountedOnceStillShared` | crates/glua_code_analysis/src/db_index/cow_shards.rs:342-352 | a shard counted once in a table two maps hold is still shared: both read it, neither reaches it by get_mut, and a write would show in both |
| `ArcWorld.UniqueIsWritable` | crates/glua_code_analysis/src/db_index/cow_shards.rs:706-720 | a shard reached through a table held once and counted once is held by no other map |
| `ArcWorld.WriteLeaves` | crates/glua_code_analysis/src/db_index/cow_shards.rs:706-720 | writing such a shard in place leaves every other map's entries alone |
| `ArcWorld.ContentsLookup` | crates/glua_code_analysis/src/db_index/cow_shards.rs:779-800 | what a map reads of a key is what the shard of the key's slot holds of it |
| `ArcWorld.CopyReadsTheSame` | crates/glua_code_analysis/src/db_index/cow_shards.rs:225-233 | a copy that shares every shard reads like what it was copied from |
| `CowMemory.Memory.SlotsMut` | crates/glua_code_analysis/src/db_index/cow_shards.rs:342-352 | the slot table becomes this map's alone, copied when shared, and every shard of every map reads as before |
| `CowMemory.Memory.MakeMut` | crates/glua_code_analysis/src/db_index/cow_shards.rs:706-720 | the shard held at a place becomes its alone, copied when counted twice, with the same entries |
| `CowMemory.Memory.ShardMut` | crates/glua_code_analysis/src/db_index/cow_shards.rs:706-720 | the shard of a slot becomes writable: in the dirty list of a fork, in the slot table otherwise, and nothing reads differently |
| `CowMemory.Memory.Get` | crates/glua_code_analysis/src/db_index/cow_shards.rs:780-787 | get reads the key in the map's finite map |
| `CowMemory.Memory.Insert` | crates/glua_code_analysis/src/db_index/cow_shards.rs:820-823 | insert puts the key in this map, returns what it held, and leaves every other map's finite map alone |
| `CowMemory.Memory.Remove` | crates/glua_code_analysis/src/db_index/cow_shards.rs:824-831 | remove takes the key out of this map only, and an absent key leaves the whole family alone |
| `CowMemory.Memory.GetMut` | crates/glua_code_analysis/src/db_index/cow_shards.rs:799-819 | a change through get_mut reaches this map only; a missing key changes nothing |
| `CowMemory.Memory.Entry` | crates/glua_code_analysis/src/db_index/cow_shards.rs:832-835 | an entry's change, inserting or removing, reaches this map only |
| `CowMemory.Memory.New` | crates/glua_code_analysis/src/db_index/cow_shards.rs:215-223 | a new map reads empty and no other map changes |
| `CowMemory.Memory.Copy` | crates/glua_code_analysis/src/db_index/cow_shards.rs:225-233 | a clone or fork reads like its source, holds the source's dirty slots, and changes no map |
| `CowMemory.Memory.Drop` | crates/glua_code_analysis/src/db_index/cow_shards.rs:267-280 | a map let go changes no other map |
| `CowMemory.Memory.Clear` | crates/glua_code_analysis/src/db_index/cow_shards.rs:320-325 | clear empties this map only |
| `CowMemory.Memory.Flatten` | crates/glua_code_analysis/src/db_index/cow_shards.rs:721-734 | folding the dirty list into the slot table changes no map's finite map and leaves no dirty slot |
| `CowMemory.Memory.Retain` | crates/glua_code_analysis/src/db_index/cow_shards.rs:735-778 | of every key the map holds exactly what the function makes of its entry, nothing where it makes nothing and for no other key; no other map changes |
| `CowMemory.Memory.Len` | crates/glua_code_analysis/src/db_index/cow_shards.rs:294-310 | len is the size of the finite map |
| `CowMemory.Memory.Iter` | crates/glua_code_analysis/src/db_index/cow_shards.rs:262-293 | iter lists every entry once, shard by shard in slot order |
| `CowMemory.Memory.FileEntries` | crates/glua_code_analysis/src/db_index/cow_shards.rs:253-260 | file_entries are exactly the entries whose key the file owns while the file's slot fits the 32-bit dirty key; past it, the entries of the page the key collides with when a dirty shard of it is held, and none otherwise |
| `CowMemory.Memory.TakeHeldShard` | crates/glua_code_analysis/src/db_index/cow_shards.rs:267-280 | the shard a map holds at a slot moves out, leaving every other slot and map as it was |
| `CowMemory.Memory.PlaceShard` | crates/glua_code_analysis/src/db_index/cow_shards.rs:620-638 | a shard is placed in the slot, apart when the table is shared and in the table otherwise; no shard leaves the slot empty |
| `CowMemory.Memory.InstallShardMut` | crates/glua_code_analysis/src/db_index/cow_shards.rs:639-650 | the shard an install writes becomes writable apart or in place, with the same entries |
| `CowMemory.Memory.InstallSlot` | crates/glua_code_analysis/src/db_index/cow_shards.rs:420-483 | one slot of an install, by whichever path, is the three-way merge of the three shards, and conflicts exactly when the merge does |
| `CowMemory.Memory.InstallWith` | crates/glua_code_analysis/src/db_index/cow_shards.rs:420-483 | an install leaves the per-key three-way merge of the three finite maps and conflicts exactly when some key does, whatever path each slot took; no other map changes |
| `CowMemory.Memory.ForkedSlots` | crates/glua_code_analysis/src/db_index/cow_shards.rs:402-412 | every slot whose entries the fork changed is visited |
| `CowMemory.Memory.InstallShard` | crates/glua_code_analysis/src/db_index/cow_shards.rs:550-616 | one slot of all forks, moved or merged key by key, is the fold of the merge over what the forks left, with exactly the folds' conflicts |
| `CowMemory.Memory.GatherForks` | crates/glua_code_analysis/src/db_index/cow_shards.rs:503-517 | every fork's changed shards are gathered by slot and every fork is consumed |
| `CowMemory.Memory.InstallApart` | crates/glua_code_analysis/src/db_index/cow_shards.rs:503-542 | installing shard by shard, in any order of shards, is the fold over whole forks in order, and reports the same places |
| `CowMemory.Memory.InstallAll` | crates/glua_code_analysis/src/db_index/cow_shards.rs:490-542 | install_all leaves the map and the conflicting places, ascending when the places are, of installing the forks one after another |
| `CowMemory.Memory.InstallInOrder` | crates/glua_code_analysis/src/db_index/cow_shards.rs:497-503 | the one-after-another path meets the same specification, fork by fork |
| `CowMemory.Memory.Wrote` | crates/glua_code_analysis/src/db_index/cow_shards.rs:1112-1120 | a fork is told unwritten exactly when it holds the frozen table and the very dirty shards of the frozen map, and then reads like it |
| `CowMemory.Memory.ChangedKeys` | crates/glua_code_analysis/src/db_index/cow_shards.rs:656-667 | changed_keys are exactly the keys fork and frozen read differently |
| `CowMemory.Memory.BothChangedKeys` | crates/glua_code_analysis/src/db_index/cow_shards.rs:668-677 | both_changed_keys are exactly the keys an install without a merge conflicts over, so it is non-empty exactly when the install conflicts |
| `CowFrames.SuperstepContents` | crates/glua_code_analysis/src/db_index/cow_shards.rs:490-542 | slots that each hold their fold make a map that is the fold |
| `CowFrames.SuperstepConflict` | crates/glua_code_analysis/src/db_index/cow_shards.rs:490-542 | a fork conflicts in a map exactly when it conflicts in some slot |
| `InstallSpec.InstalledNext` | crates/glua_code_analysis/src/db_index/cow_shards.rs:490-503 | one more fork of a family of independent maps is one more three-way merge, with its conflict |
| `CowRuns.Write` | crates/glua_code_analysis/src/db_index/cow_shards.rs:706-835 | a write through one map of a family makes memory stand for the same write on independent finite maps |
| `CowRuns.Make` | crates/glua_code_analysis/src/db_index/cow_shards.rs:225-233 | so do creating, cloning, forking and dropping |
| `CowRuns.Install` | crates/glua_code_analysis/src/db_index/cow_shards.rs:490-542 | and a superstep's install |
| `CowRuns.Execute` | crates/glua_code_analysis/src/db_index/cow_shards.rs:252-352 | isolation over whole runs: any interleaving of operations on maps related by clone and fork reads like independent finite maps |
| `CowRuns.EveryStepReads` | crates/glua_code_analysis/src/db_index/cow_shards.rs:706-835 | every step of every run, key by key: what each operation, retain and plain installs included, leaves of every key of every map |
| `CowRuns.ExecuteFromNothing` | crates/glua_code_analysis/src/db_index/cow_shards.rs:215-223 | and so does every run from a new store, which stands for no maps |
| `Pruning.CommutingFold` | crates/glua_code_analysis/src/db_index/cow_shards.rs:447-476 | forks of a key whose steps commute leave the same in every order |
| `Pruning.AlikeInAnyOrder` | crates/glua_code_analysis/src/db_index/cow_shards.rs:447-476 | forks of a merge that prunes leave the same in every order up to whether nothing is stored as an absence or an empty value |
| `Pruning.OrderMatters` | crates/glua_code_analysis/src/db_index/cow_shards.rs:447-476 | for every such merge, some order leaves something else exactly when one fork stores the empty value, another changes to something else, and without the first the forks undo each other |
| `Pruning.IndexOrderMatters` | crates/glua_code_analysis/src/db_index/cow_shards.rs:447-476 | whatever the merge, some order of whole forks leaves another index exactly when some order of one key's values leaves another value |
| `MergeAlgebra.SumFold` | crates/glua_code_analysis/src/db_index/cow_shards.rs:1332-1341 | forks of a wrapping sum leave the starting amount plus every fork's wrapping delta, the shortcut past the merge included |
| `MergeAlgebra.SumOrderFree` | crates/glua_code_analysis/src/db_index/cow_shards.rs:1332-1341 | when no fork stores a zero, in every order the very same |
| `MergeAlgebra.SumOrderMatters` | crates/glua_code_analysis/src/db_index/cow_shards.rs:1332-1341 | some order leaves something else exactly when all changes add up to nothing, a fork stores a zero it did not find, and another changes to something else |
| `MergeAlgebra.StoredZeroOrderMatters` | crates/glua_code_analysis/src/db_index/cow_shards.rs:1332-1370 | three such forks in every word size: values 1, the word before wrapping and 0 over an absence |
| `MergeAlgebra.MergeSetInPlace` | crates/glua_code_analysis/src/db_index/cow_shards.rs:1375-1394 | the in-place set merge keeps all additions and removals and stores no empty set |
| `MergeAlgebra.SetFold` | crates/glua_code_analysis/src/db_index/cow_shards.rs:1375-1394 | forks of a set leave what was there and every addition, less every removal |
| `MergeAlgebra.SetStepsCommute` | crates/glua_code_analysis/src/db_index/cow_shards.rs:1375-1394 | two forks of a set can be taken in either order, stored empty sets and absences included |
| `MergeAlgebra.SetOrderFree` | crates/glua_code_analysis/src/db_index/cow_shards.rs:1375-1394 | forks of a set leave the same in every order, whatever is stored |
| `MergeAlgebra.SetRepetitionFree` | crates/glua_code_analysis/src/db_index/cow_shards.rs:1375-1394 | and however often repeated, when no empty set is stored |
| `MergeAlgebra.MergeMapInPlace` | crates/glua_code_analysis/src/db_index/cow_shards.rs:1515-1563 | the in-place map merge is the per-key merge by the inner merge, refusing exactly when a key does |
| `MergeAlgebra.MapMergeReads` | crates/glua_code_analysis/src/db_index/cow_shards.rs:1515-1563 | what the map merge leaves of every entry, and that it refuses exactly when both changed an entry apart and the inner merge refuses it |
| `MergeAlgebra.MapFold` | crates/glua_code_analysis/src/db_index/cow_shards.rs:1515-1563 | a map of mergeable values folds entry by entry, shortcuts of both levels included |
| `MapOrders.MapOrderMatters` | crates/glua_code_analysis/src/db_index/cow_shards.rs:1515-1563 | for every inner merge that never refuses, some order of forks of a map leaves something else exactly when one leaves another entry, or a fork stores the empty map, another something else, and the others undo each other at every entry |
| `MapOrders.SetRestores` | crates/glua_code_analysis/src/db_index/cow_shards.rs:1375-1394 | forks of a set leave it as they found it exactly when none changed it, or, over nothing, they store empty sets alone and an even number with the index's own |
| `MapOrders.SetMapOrderMatters` | crates/glua_code_analysis/src/db_index/cow_shards.rs:1515-1563 | the order of forks of a map of sets is seen exactly on that condition of the values: a stored empty map, another change, and the other forks' sets undoing each other so at every entry |
| `MapOrders.SetMapShowsEmpties` | crates/glua_code_analysis/src/db_index/cow_shards.rs:1515-1563 | so it is seen only where forks store an empty map and a map with an empty set |
| `MapOrders.StoredEmptyMapOrderMatters` | crates/glua_code_analysis/src/db_index/cow_shards.rs:1515-1563 | two forks where it is: an empty map and a map of one empty set |
| `MapOrders.SumRestores` | crates/glua_code_analysis/src/db_index/cow_shards.rs:1332-1341 | forks of a count leave it as they found it exactly when: a zero found is unchanged; stored zeros alone, over nothing, are even in number; or else all changes add up to what was found |
| `MapOrders.SumMapOrderMatters` | crates/glua_code_analysis/src/db_index/cow_shards.rs:1515-1563 | the order of forks of a map of counts, zeros stored or not, is seen exactly when an entry's is, or beside a stored empty map and another change the other forks' counts undo each other so at every entry |
| `MapOrders.CountMapOrderMatters` | crates/glua_code_analysis/src/db_index/cow_shards.rs:1515-1563 | where no zero is stored: exactly when, beside a stored empty map and another change, the other forks' wrapping deltas bring every entry back to what was found |
| `MapOrders.CancelledCountsOrderMatters` | crates/glua_code_analysis/src/db_index/cow_shards.rs:1332-1370 | three such forks in every word size, no zero among them: 1 and the word before wrapping under one key, and the empty map |
| `InAnyOrder.CountsAddUp` | crates/glua_code_analysis/src/db_index/cow_shards.rs:447-476 | in every order an index of counts holds each key's starting amount plus all deltas, and no fork conflicts |
| `InAnyOrder.CountsOrderMatters` | crates/glua_code_analysis/src/db_index/cow_shards.rs:447-476 | some order leaves another index of counts exactly when, at some key, the sum's condition holds |
| `InAnyOrder.CountsInAnyOrder` | crates/glua_code_analysis/src/db_index/cow_shards.rs:447-476 | forks that store no zero leave the same index of counts in every order |
| `InAnyOrder.SetsInAnyOrder` | crates/glua_code_analysis/src/db_index/cow_shards.rs:447-476 | every order of forks leaves the same index of sets, each key all additions and no removal, without conflict, whatever is stored |
| `InAnyOrder.MapsOfSetsOrderMatters` | crates/glua_code_analysis/src/db_index/cow_shards.rs:1515-1563 | some order leaves another index of maps of sets, whatever is stored, exactly when the condition on the values holds at some key |
| `InAnyOrder.MapsOfSetsInAnyOrder` | crates/glua_code_analysis/src/db_index/cow_shards.rs:1515-1563 | an index of maps of sets: every entry all additions and no removal in every order, no conflict, and the same index in every order when no fork stores an empty map, or none an empty set |
| `InAnyOrder.MapsOfCountsOrderMatters` | crates/glua_code_analysis/src/db_index/cow_shards.rs:1515-1563 | some order leaves another index of maps of counts, zeros stored or not, exactly when the condition on the values holds at some key |
| `InAnyOrder.MapsOfPositiveCountsOrderMatters` | crates/glua_code_analysis/src/db_index/cow_shards.rs:1515-1563 | where no zero is stored: exactly when, at some key beside a stored empty map and another change, the other forks' deltas cancel at every entry |
| `InAnyOrder.MapsOfCountsInAnyOrder` | crates/glua_code_analysis/src/db_index/cow_shards.rs:1515-1563 | an index of maps of counts, whatever zeros are stored: every entry its start plus all deltas in every order and no conflict; the same index in every order when no fork stores a zero or an empty map |
| `Supersteps.FieldAfterIsFold` | crates/glua_code_analysis/src/db_index/cow_shards.rs:1112-1130 | a field's superstep is the fold its maps install by |
| `Supersteps.InstallTask` | crates/glua_code_analysis/src/db_index/cow_shards.rs:1735-1747 | one fork's fields one after another, and the names of those that conflict in field order |
| `Supersteps.ReportLists` | crates/glua_code_analysis/src/db_index/cow_shards.rs:1735-1747 | a fork's report names all fields it conflicts in and no other, by the order of the fields |
| `Supersteps.InstallRows` | crates/glua_code_analysis/src/db_index/cow_shards.rs:1771-1776 | a domain that installs fork by fork leaves every field's fold and every fork's conflicts at its place |
| `Supersteps.InstallColumn` | crates/glua_code_analysis/src/db_index/cow_shards.rs:1092-1098 | one field's column of forks leaves its fold and the places that conflict, in order |
| `Supersteps.InstallColumns` | crates/glua_code_analysis/src/db_index/cow_shards.rs:1777-1806 | a domain that installs field by field leaves the same fields and the same conflict lists |
| `Supersteps.WritersSuffice` | crates/glua_code_analysis/src/db_index/mod.rs:1578-1587 | leaving out the forks that did not write a domain loses nothing |
| `Supersteps.UnwrittenReportsNothing` | crates/glua_code_analysis/src/db_index/mod.rs:1578-1587 | such a fork has no conflicts in the domain |
| `Supersteps.InstallDomain` | crates/glua_code_analysis/src/db_index/mod.rs:1573-1593 | a domain's superstep over the forks that wrote it is the domain's superstep over all forks |
| `Supersteps.InstallTasks` | crates/glua_code_analysis/src/db_index/mod.rs:1555-1630 | the barrier leaves the index and each fork's conflict list, in domain and field order, of installing whole forks in order |
| `Supersteps.ReportsAreFlat` | crates/glua_code_analysis/src/db_index/mod.rs:1622-1626 | the domains' reports are joined from the first domain to the last |
| `Supersteps.InstallInOrder` | crates/glua_code_analysis/src/db_index/mod.rs:1550-1559 | installing whole forks in order meets that same specification |
| `StoredColumns.InstallColumn` | crates/glua_code_analysis/src/db_index/cow_shards.rs:1126-1130 | installing every fork of a field into the store is that column install: the same map and the same places |
| `StoredColumns.WroteFlags` | crates/glua_code_analysis/src/db_index/cow_shards.rs:1112-1120 | the store's pointer comparison tells truly: a fork told not to have written reads the field as frozen |
| `StoredDomains.InstallByColumns` | crates/glua_code_analysis/src/db_index/cow_shards.rs:1777-1806 | a domain of several memories installed field by field by the store leaves every field's superstep and every fork's conflicts at its place |
| `StoredDomains.InstallByRows` | crates/glua_code_analysis/src/db_index/cow_shards.rs:1771-1776 | installed fork by fork by the store it leaves the same |
| `StoredDomains.Wrote` | crates/glua_code_analysis/src/db_index/cow_shards.rs:1714-1719 | the forks told by their pointers to have written no field read the whole domain as frozen |
| `StoredDomains.InstallDomain` | crates/glua_code_analysis/src/db_index/mod.rs:1573-1593 | the store's install of the writers alone leaves every field its superstep over all forks, and every fork's conflicts |
| `StoredDomains.InstallTasks` | crates/glua_code_analysis/src/db_index/mod.rs:1555-1630 | the barrier over a store of many domains leaves every field its superstep and every fork its conflicts, in domain and field order, nothing assumed of what a fork wrote |
| `StoredDomains.JoinedIsReports` | crates/glua_code_analysis/src/db_index/mod.rs:1620-1626 | those are the conflicts the barrier over finite maps is specified by |
| `LocalTasks.DisjointNeverConflict` | crates/glua_code_analysis/src/db_index/cow_shards.rs:447-476 | tasks that write different keys never conflict |
| `LocalTasks.MergedIsSequential` | crates/glua_code_analysis/src/db_index/cow_shards.rs:447-476 | merging tasks that write different keys is running them one after another |
| `NetSites.CountedWhenNamed` | crates/glua_code_analysis/src/db_index/net_site.rs:87-135 | a file is counted by a holder exactly when one of its facts names it |
| `NetSites.InsertSite` | crates/glua_code_analysis/src/db_index/net_site.rs:87-108 | filing a fact keeps every file's count equal to the facts naming it, and reports exactly the files newly named or no longer named |
| `NetSites.RemoveSite` | crates/glua_code_analysis/src/db_index/net_site.rs:110-122 | unfiling does the same, and no zero count is kept |
| `NetSites.Unname` | crates/glua_code_analysis/src/db_index/net_site.rs:124-135 | dropping a fact's names never underflows a count and reports exactly those that reach zero |
| `NetSites.HoldersNameTheFile` | crates/glua_code_analysis/src/db_index/mod.rs:898-1003 | in a valid index a holder is filed under a file exactly when one of its sites names the file |
| `NetSites.FactsDetermineIndex` | crates/glua_code_analysis/src/db_index/mod.rs:898-975 | two valid indexes with the same facts are equal, counts and inverse included |
| `NetSites.NetIndex.Relink` | crates/glua_code_analysis/src/db_index/mod.rs:956-974 | relinking adds and removes exactly the given files for this holder and keeps no empty set |
| `NetSites.NetIndex.Store` | crates/glua_code_analysis/src/db_index/mod.rs:898-919 | storing a net site keeps the index valid and files exactly that fact |
| `NetSites.NetIndex.Reset` | crates/glua_code_analysis/src/db_index/mod.rs:920-941 | resetting keeps the index valid and unfiles exactly that fact; no empty holder is kept |
| `NetSites.NetIndex.RemoveFile` | crates/glua_code_analysis/src/db_index/mod.rs:942-955 | removing a file's sites keeps the index valid and drops exactly its facts |
| `NetSites.NetIndex.RemapSites` | crates/glua_code_analysis/src/db_index/mod.rs:976-1003 | visiting only the holders the inverse index lists, an edit moves every site of other files that names the edited file and returns exactly the sites it destroyed |
| `NetSites.CarriedReads` | crates/glua_code_analysis/src/db_index/mod.rs:976-1003 | what an edit leaves at every site: its moved fact where it has one and another file holds it, the old fact otherwise |
| `NetSitesInstall.MergedRefers` | crates/glua_code_analysis/src/db_index/mod.rs:1685-1729 | after the merge a holder is filed under a file exactly when its merged sites name it |
| `NetSitesInstall.MergedIndexIsValid` | crates/glua_code_analysis/src/db_index/mod.rs:1685-1729 | forks that keep the invariant and change different holders merge, plain sites with set-merged holders, to a valid index without conflict |
| `NetSitesInstall.Execute` | crates/glua_code_analysis/src/db_index/mod.rs:898-1003 | any run of stores, resets, removals and edits keeps the index valid, its facts are the run's, and every edit returns exactly the sites it destroyed |
| `NetSitesInstall.OwnRun` | crates/glua_code_analysis/src/db_index/mod.rs:898-955 | a run without edits is a run of one task's operations on its holders, so it composes with the superstep below |
| `NetSitesInstall.NetSuperstep` | crates/glua_code_analysis/src/db_index/mod.rs:1685-1729 | the merged index is the one running the tasks one after another leaves |
| `Populations.PartitionPoint` | crates/glua_code_analysis/src/db_index/numeric_range_population.rs:46-66 | the insertion point is after every population not above it, before every other |
| `Populations.FilesDetermineGlobals` | crates/glua_code_analysis/src/db_index/numeric_range_population.rs:46-66 | the lists by global follow from the lists by file when the order tells populations apart, whatever order files were set in |
| `Populations.PopulationIndex.Remove` | crates/glua_code_analysis/src/db_index/numeric_range_population.rs:113-127 | removing a file drops exactly its populations from every global, keeping the lists sorted and none empty |
| `Populations.PopulationIndex.File` | crates/glua_code_analysis/src/db_index/numeric_range_population.rs:46-66 | filing one population inserts it in order in its global's list |
| `Populations.PopulationIndex.SetFile` | crates/glua_code_analysis/src/db_index/numeric_range_population.rs:46-66 | setting a file's populations keeps every global's list exactly the populations of all files for it, sorted |
| `SortedLists.MergeListCounts` | crates/glua_code_analysis/src/db_index/cow_shards.rs:1460-1486 | how often the list merge leaves an element: as often as the index has it unless the fork dropped it, once when the fork added it |
| `SortedLists.MergeListPicks` | crates/glua_code_analysis/src/db_index/cow_shards.rs:1460-1483 | the merged list is what the index has and the fork did not drop, in order, then what the fork added, in its order and once each |
| `SortedLists.SortBySorts` | crates/glua_code_analysis/src/db_index/cow_shards.rs:1487-1498 | sorting a merged list gives the same populations in order |
| `SortedLists.SortByStays` | crates/glua_code_analysis/src/db_index/cow_shards.rs:1487-1498 | populations the order does not tell apart keep their order |
| `SortedLists.Unmoved` | crates/glua_code_analysis/src/db_index/cow_shards.rs:1460-1498 | forks that change different populations leave the list found exactly while none changed it: it never comes back to it |
| `SortedLists.CountFold` | crates/glua_code_analysis/src/db_index/cow_shards.rs:1460-1498 | how often a population is left: as often as its fork has it when the fork is first to change the list, else not at all, as often as before, or once when it is new |
| `PopulationsInstall.MergedTimes` | crates/glua_code_analysis/src/db_index/numeric_range_population.rs:140-150 | which repetitions of a population survive the merge of tasks that write different files |
| `PopulationsInstall.MergedIndexIsValid` | crates/glua_code_analysis/src/db_index/numeric_range_population.rs:140-150 | the merged index is valid, without conflict, exactly when every population survives: its task was first to change the global's list, or lists it not at all, as often as before, or once for the first time |
| `PopulationsInstall.RepetitionIsLost` | crates/glua_code_analysis/src/db_index/numeric_range_population.rs:140-150 | two tasks over an empty index where it is not: a population filed twice is left once |
| `PopulationsInstall.TidyMerges` | crates/glua_code_analysis/src/db_index/numeric_range_population.rs:140-150 | where no file lists a population twice every population survives, and the merged index repeats nothing |
| `PopulationsInstall.Execute` | crates/glua_code_analysis/src/db_index/numeric_range_population.rs:46-127 | any run of set and remove keeps the index valid and leaves the files the run says, without repetitions when the lists set have none |
| `PopulationsInstall.PopulationSuperstep` | crates/glua_code_analysis/src/db_index/numeric_range_population.rs:140-150 | tasks that write different files merge to the files running them in sequence leaves, without conflict, in a valid index exactly when every population survives |
| `PopulationsInstall.TidySuperstep` | crates/glua_code_analysis/src/db_index/numeric_range_population.rs:140-150 | tasks whose lists repeat nothing, over an index that repeats nothing, merge to a valid index that repeats nothing |
| `PopulationsInstall.PopulationSuperstepIsSequential` | crates/glua_code_analysis/src/db_index/numeric_range_population.rs:140-150 | where the order tells populations apart, the merge is the very index that sequence leaves exactly when every population survives |
| `BuildQueue.AnswerKeys.Plan` | tools/determinism/src/main.rs:2654-2664 | planning is one step per key in order |
| `BuildQueue.PlanningCounts` | tools/determinism/src/main.rs:2653-2664 | planning counts every use and queues behind the rest, once each, exactly the keys that had no use to come |
| `BuildQueue.PlanningKeepsOrder` | tools/determinism/src/main.rs:2653-2664 | new keys are queued in the order the stages first use them |
| `BuildQueue.UnplannedStartsFirst` | tools/determinism/src/main.rs:2722-2728 | an unplanned key asked for stays at the head of the queue, its take waiting, until a build begins |
| `BuildOrder.AskedStartsNext` | tools/determinism/src/main.rs:2722-2728 | in every run the first build to begin after the take of an unplanned key is of that key |
| `BuildOrder.BuildsBeginOnSchedule` | tools/determinism/src/main.rs:2653-2755 | in every run the builds begun, then the queue, are the schedule its events say: planned keys without a use to come behind the rest by first use, an unplanned key next, nothing that has not begun after the close |
| `BuildOrder.BuildsBeginAsPlanned` | tools/determinism/src/main.rs:2653-2697 | without takes, the builds begun and then the queue are the planned keys by first use |
| `BuildQueue.AnswerKeys.Start` | tools/determinism/src/main.rs:2688-2697 | a worker takes the head of the queue, and the head alone, exactly when the limit allows and one is queued |
| `BuildQueue.FinishKeeps` | tools/determinism/src/main.rs:2706-2712 | a finished build frees its slot and its worker and its key moves from the keys building to the keys built, keeping every invariant of the queue |
| `BuildQueue.AskKeeps` | tools/determinism/src/main.rs:2722-2728 | after a take is asked for, its key is queued, building or built, in one place only, at the head of the queue when it was nowhere |
| `BuildQueue.AnswerKeys.Receive` | tools/determinism/src/main.rs:2729-2745 | a take hands over the kept build, counts the use and lets the build go at its last use |
| `BuildQueue.StepKeeps` | tools/determinism/src/main.rs:2654-2755 | every step of driver and workers keeps the invariant |
| `BuildQueue.EveryRunIsSafe` | tools/determinism/src/main.rs:2620-2755 | over whole runs live builds never exceed the limit, builds are exactly those in progress plus kept ones, queued, building and built keys stay duplicate-free and disjoint, and every use count is positive |
| `BuildQueue.EveryUseIsAccounted` | tools/determinism/src/main.rs:2654-2745 | planned uses are conserved: handed over or to come; builds begun are done or under way; what is kept is the last build of its key |
| `BuildQueue.TakeHandsOverItsOwnBuild` | tools/determinism/src/main.rs:2722-2745 | every take returns the last build of its own key, and lets it go exactly when no planned use is left |
| `BuildQueue.BlockedForEver` | tools/determinism/src/main.rs:2674-2720 | a blocked driver has no worker step left exactly when kept analyses alone fill the limit and nothing is being built |
| `BuildQueue.WorkerStepCounts` | tools/determinism/src/main.rs:2687-2720 | every worker step takes one from what the workers have left to do, their leaving included, and before the close one from twice the queued plus the building keys; the driver is left alone |
| `BuildQueue.DriverGoesOn` | tools/determinism/src/main.rs:2674-2745 | under every scheduling a waiting driver goes on: worker runs are no longer than the work queued, and where none is left the driver is unblocked |
| `BuildQueue.OneBaseNeverBlocksTwoSlots` | tools/determinism/src/main.rs:3585-3607 | with two slots or more and one kept base the driver always goes on |
| `BuildQueue.FullOfBasesDeadlocks` | tools/determinism/src/main.rs:3585-3589 | with as many kept bases as slots the first take waits for ever |
| `BuildQueue.WorkersLeave` | tools/determinism/src/main.rs:2748-2755 | after the close every worker returns, and workers are stuck exactly when all have |
| `BuildQueue.Execute` | tools/determinism/src/main.rs:2632-2755 | every run of the protocol, carried out by the object's own sections, leaves the object as the run says |
| `StableSort.Sorts` | crates/glua_code_analysis/src/lib.rs:574 | sorting by key orders the events and keeps them all |
| `StableSort.SortsStably` | crates/glua_code_analysis/src/lib.rs:574 | events of one key keep their order |
| `FileEvents.LastWins` | crates/glua_code_analysis/src/lib.rs:566-571 | applying events one after another leaves each path what its last event says |
| `FileEvents.SameEventsSameMeaning` | crates/glua_code_analysis/src/lib.rs:571-620 | batches with one event per path and the same events mean the same in any order |
| `FileEvents.Latest` | crates/glua_code_analysis/src/lib.rs:571-581 | the sorted, collapsed batch says of every path what the batch says last, with one event per path when order keys tell paths apart |
| `FileStaging.PendingIsSame` | crates/glua_code_analysis/src/lib.rs:583-589 | dropping events whose text an indexed file already holds changes no path's text |
| `FileStaging.SharedKeyStagesAnother` | crates/glua_code_analysis/src/lib.rs:571-620 | where two paths share an order key a batch is staged, through sorting, collapsing, filtering, pairing and writing, to another text than it says |
| `FileMoves.TargetsAreApart` | crates/glua_code_analysis/src/lib.rs:631-657 | a pairing joins a deletion and a creation of one text, and no creation is used twice |
| `FileMoves.Pair` | crates/glua_code_analysis/src/lib.rs:631-657 | the k-th deletion of a text pairs with the k-th creation of that text |
| `FileMoves.PairMoves` | crates/glua_code_analysis/src/lib.rs:622-670 | moves and rest hold every event exactly once, every move joins a file's newest text with a creation of it where no file is, and no two halves of a move are left over |
| `FileStaging.Vfs.MoveFile` | crates/glua_code_analysis/src/vfs/mod.rs:451-478 | the file keeps its id at the new path; refused exactly when there is no file or one is in the way |
| `FileStaging.Vfs.SetFileContent` | crates/glua_code_analysis/src/vfs/mod.rs:352-358 | a path's text is set, under the id it has or a new one |
| `FileStaging.Vfs.DeleteFileContent` | crates/glua_code_analysis/src/vfs/mod.rs:419-423 | a path's text is removed and its id kept; a path without a file is left alone |
| `FileStaging.Vfs.ApplyMoves` | crates/glua_code_analysis/src/lib.rs:590-594 | moves that name every path once and are sound are none refused, and every moved file keeps its id |
| `FileStaging.Vfs.StageFileSystemChanges` | crates/glua_code_analysis/src/lib.rs:571-620 | staging leaves the texts of the moves and then the rest; where order keys tell the batch's paths apart that is the batch applied event by event, and the files reported are exactly those, before or after, of the paths whose last event is not the text an indexed file already has |
| `FileStaging.StagingMeansEveryBatch` | crates/glua_code_analysis/src/lib.rs:571-620 | staging means the batch, for every state of the files and every batch over some paths, exactly when no two of the paths share an order key |
| `InferenceFacts.Disputes` | crates/glua_code_analysis/src/db_index/mod.rs:1131-1139 | after sorting, neighbours clash over exactly the nodes given two different facts |
| `InferenceFacts.AscendingUnique` | crates/glua_code_analysis/src/db_index/mod.rs:1129 | updates ascending in node order are determined by their set |
| `InferenceFacts.OrderAndRepetitionDecideNothing` | crates/glua_code_analysis/src/db_index/mod.rs:1125-1186 | the same updates in any order and number settle alike, so the same facts are written and the same files reported |
| `InferenceFacts.Index.PublishInferenceFacts` | crates/glua_code_analysis/src/db_index/mod.rs:1125-1186 | exactly the undisputed updates are written, once each in node order; a file is reported exactly when an update of it finds its node reading other than its fact; nothing is reported only if nothing changed |
| `InferenceFacts.NothingElseIsWritten` | crates/glua_code_analysis/src/db_index/mod.rs:1141-1176 | a fact no published node names is left alone, and files are reported only for published nodes |
| `InferenceFacts.ChangedFiles` | crates/glua_code_analysis/src/db_index/mod.rs:1141-1186 | a file is reported exactly when an update of it finds its node reading other than its fact: what the facts said, or what the one node sharing its fact left earlier |
| `InferenceFacts.PublishedReads` | crates/glua_code_analysis/src/db_index/mod.rs:1106-1123 | a published node, unless a later node sharing the fact was published, reads its fact if it found it and the form its fact is kept in otherwise |
| `InferenceFacts.DisputedReads` | crates/glua_code_analysis/src/db_index/mod.rs:1125-1186 | a disputed node reads as before exactly when no published node that shares its fact is kept with another |
| `InferenceFacts.DisputedChangesWithItsOwner` | crates/glua_code_analysis/src/db_index/mod.rs:1125-1186 | a declaration given two facts, its type owner given one: the declaration reads differently exactly when it held neither that fact nor what is kept for it |
| `LspEdits.PositionOf` | tools/lsp_client.js:311-316 | an offset's line and character convert back to the offset, and the character counts units of its own line |
| `LspEdits.CommonStart` | tools/lsp_client.js:303-306 | the cut is the furthest both texts agree up to without splitting a CRLF or following a high surrogate in either |
| `LspEdits.CommonSuffix` | tools/lsp_client.js:307-310 | the suffix is the longest both texts end in past the cut, splitting nothing in either |
| `LspEdits.ContentChanges` | tools/lsp_client.js:296-321 | applying the change at its positions yields the new text; start never passes end; neither end splits anything in either text; the cut is the furthest and the suffix the longest |
| `LspFraming.Client.Receive` | tools/lsp_client.js:39-54 | a chunk hands on the bodies of the whole messages the buffer then begins with and keeps the rest |
| `LspFraming.ContentLengthIs` | tools/lsp_client.js:45-47 | a header says a length exactly when the field, in any case and anywhere, is followed by a digit; it is the number behind the first such place |
| `LspFraming.NumberIs` | tools/lsp_client.js:47 | digits are read by their place; zeros in front add nothing |
| `LspFraming.DrainLater` | tools/lsp_client.js:39-54 | bytes arriving later never change what was whole, for every byte stream, malformed headers included |
| `LspFraming.ReceiveAll` | tools/lsp_client.js:39-54 | however a stream is cut, the bodies handed on and the bytes kept are those of the whole stream |
| `LspFraming.UnfinishedFrame` | tools/lsp_client.js:43-49 | a frame still arriving is kept whole |
| `LspFraming.FramingRoundTrip` | tools/lsp_client.js:100-104 | framed bodies are handed on in order, and only the bytes of an unfinished frame are kept |
| `LspFraming.Transmit` | tools/lsp_client.js:39-104 | every sequence of bodies, cut into chunks anywhere, arrives whole and in order |
| `KeyValues.Tokenizer.SkipWhitespaceAndComments` | crates/glua_code_analysis/src/gamemode_base.rs:359-376 | skipping moves to the first character that is neither space nor comment |
| `KeyValues.Tokenizer.NextToken` | crates/glua_code_analysis/src/gamemode_base.rs:310-357 | every token strictly advances the position and is the next one of the input |
| `KeyValues.GapIsSkipped` | crates/glua_code_analysis/src/gamemode_base.rs:359-376 | spaces, tabs, line feeds, carriage returns, form feeds and comments are passed over, whatever follows |
| `KeyValues.BareIsLexed` | crates/glua_code_analysis/src/gamemode_base.rs:343-355 | a bare word ends before one of those five characters, a brace, a quote or the end |
| `KeyValues.QuotedIsLexed` | crates/glua_code_analysis/src/gamemode_base.rs:325-342 | a quoted word ends at the first quote no backslash escapes, or with the input |
| `KeyValues.NothingPrinted` | crates/glua_code_analysis/src/gamemode_base.rs:359-376 | blanks and comments alone hold no token, a last comment without a line end included |
| `KeyValues.Lex` | crates/glua_code_analysis/src/gamemode_base.rs:310-357 | every token takes something of the input |
| `KeyValues.ParseBaseField` | crates/glua_code_analysis/src/gamemode_base.rs:212-288 | the search over the tokenizer is the search over the input's tokens; the depth stays at least one inside the root block |
| `KeyValues.SearchIsReading` | crates/glua_code_analysis/src/gamemode_base.rs:230-288 | the search agrees with a reader that takes one token at a time, on all tokens, well nested or not |
| `KeyValues.TrimmedIs` | crates/glua_code_analysis/src/gamemode_base.rs:243-249 | the value found is all but the white space around it, none when it is all white space |
| `KeyValues.WhiteIsListed` | crates/glua_code_analysis/src/gamemode_base.rs:243-249 | white space is what Unicode lists |
| `KeyValues.NestedIsSkipped` | crates/glua_code_analysis/src/gamemode_base.rs:249-283 | a nested tree is passed over, whatever it holds |
| `KeyValues.BaseOfTree` | crates/glua_code_analysis/src/gamemode_base.rs:212-288 | among a tree's tokens the search finds the trimmed value of the first top-level leaf called base in any case, none if empty or absent |
| `KeyValues.RenderRoundTrip` | crates/glua_code_analysis/src/gamemode_base.rs:310-376 | tokens printed quoted, escapes included, or bare, each behind any blanks and comments, read back as themselves |
| `KeyValues.PrintedTreeIsRead` | crates/glua_code_analysis/src/gamemode_base.rs:212-288 | reading a tree printed so, of any nesting and whatever follows it, yields the root's first base |
| `ConfigChange.ListedChange` | crates/glua_code_analysis/src/config/change.rs:103-114 | the loop finds the nearest listed entry |
| `ConfigChange.NearestIsLongest` | crates/glua_code_analysis/src/config/change.rs:103-114 | that entry is the one of the longest listed path that is the path or lies above it, Analysis when there is none |
| `ConfigChange.OrderIsRank` | crates/glua_code_analysis/src/config/change.rs:6-22 | a reach is wider than another exactly when applying it takes more work |
| `ConfigChange.ChangeIsWidestLeaf` | crates/glua_code_analysis/src/config/change.rs:60-92 | between configurations that are objects wherever they differ above a listed path, the change is the widest entry over all differing leaves |
| `ConfigChange.ChangeIsSymmetric` | crates/glua_code_analysis/src/config/change.rs:60-92 | undoing a change reaches as far as making it, for all configurations |
| `ConfigChange.ChangeTriangle` | crates/glua_code_analysis/src/config/change.rs:60-100 | a direct change reaches no further than the wider of two steps through a configuration that is an object wherever something below reaches further |
| `ConfigTable.ListedBelow` | crates/glua_code_analysis/src/config/change.rs:34-57 | paths are listed below three sections only |
| `ConfigTable.TableIsListed` | crates/glua_code_analysis/src/config/change.rs:34-57 | of every path the table says what is listed for it, by what it reaches |
| `ConfigTable.GmodPathsAre` | crates/glua_code_analysis/src/config/change.rs:52-55 | four gmod settings decide which files load |
| `ConfigTable.StepsNeverHideReach` | crates/glua_code_analysis/src/config/change.rs:34-114 | for the listed paths, steps through a configuration never hide how far a change reaches exactly when its runtime and gmod sections are objects |
| `ConfigTable.EmmyrcChangeIsWidestLeaf` | crates/glua_code_analysis/src/config/change.rs:58-66 | between any two configurations, whose sections all serialize to objects, the change is the widest entry over all differing leaves |
| `ConfigTable.EmmyrcStepsNeverHideReach` | crates/glua_code_analysis/src/config/change.rs:58-66 | going through any configuration on the way never hides how far a change reaches |

## Left out

- Rayon, threads, condition-variable wakeups, `drop_apart` and the freeing of memory: steps are atomic and garbage is ignored; shards of a parallel install run one at a time in any order.
- CowMemory.Memory.InstallWith: keys whose slot does not fit the 32-bit dirty key are outside the store's validity, so no write or install is modelled for them; only `FileEntries` reads past the bound.
- CowMemory.Memory.Retain: the closure is a pure function of key and value, so an effect of its own across calls is not modelled; the same holds for `get_mut` and `entry`.
- `CowCell`, `CowShardSet` and the collection adapters (`extend`, `from_iter`, `into_iter`, `index`): one-key or thin forms of what is modelled.
- `CowShards::eq` and `iter_mut`: they follow from the reads and from retain.
- The `prepare`, `then` and `plan => settle` hooks of a domain, and the fields of the whole index that are a single value (`gmod_call_roles`, the structure revision): each is its own three-way step beside the fields.
- StoredDomains.InstallTasks: the fields of all domains have one key and one value type, and a domain's own counted reference, copied before the first install into it, is not modelled.
- `note_read` and `note_write`, fingerprints and the re-analysis engine: they observe the indexes and do not change them.
- NetSites.NetIndex.RemapSites: the order of the returned lost facts is not modelled, they are a set; so are the linked and unlinked lists handed to relinking.
- Populations.PopulationIndex.SetFile: a file's order key is an integer rank instead of a string, and the populations set for a file carry that file's id, as callers pass them.
- Populations.FilesDetermineGlobals: populations the order does not tell apart may be listed in either order, so the lists are determined only when it does.
- BuildQueue.Execute: one driver, as the tool has; a panic inside a build outside the workers leaves its slot taken until the close.
- FileStaging.Vfs.StageFileSystemChanges: every URI names a path of its own and order keys are integers instead of strings; parsing, editor versions and URIs without a path are not modelled.
- InferenceFacts.Index.PublishInferenceFacts: the order of nodes is an injective rank, binding an owner's fact is a function of owner and fact, and writes under a fallback are not modelled.
- LspEdits.PositionOf: lines end at LF only, as the client counts them; the protocol's lone CR is not a line end here.
- LspFraming.Client.Receive: a body is handed on as bytes; JSON parsing and dispatch, and lengths beyond the precision of a double, are not modelled.
- KeyValues.ParseBaseField: works on characters instead of UTF-8 bytes, every separator being ASCII; the two checks of a depth of zero that can never hold are left out.
- `walk_chain` and the search for gamemode files: file system access.
- ConfigChange.ChangeIsWidestLeaf: arrays and scalars are one kind of leaf, told apart by their text.
- The rest of the server: parsing, type inference, diagnostics, the VFS beyond paths, ids and texts, configuration loading, and the other tools.
