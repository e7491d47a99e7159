# rust-crdt-talk in Dafny

This project models the state-based replicated data types (CRDTs) of the
`rust-crdt-talk` repository and proves their properties. The types are:

- the hybrid logical clock, in its current form and in the older one;
- the `Max` register and the last-writer-wins register;
- the grow-only set and map, each in its current form and in the older one;
- the last-writer-wins set and map;
- the two-phase map;
- the to-do task and the task document built on top of them.

Every type has an in-place `merge_mut` that is meant to be a join: idempotent,
commutative and associative.

How the Rust maps to Dafny:

- **Values and merges.** Each type is a Dafny `datatype` holding its value.
  Its consuming `merge` (`src/merge.rs`) is a pure function `Merge(a, b)`.
- **In-place operations.** Each type also has a class with the Rust
  struct's fields. Its `insert`, `remove` and `merge_mut` change those fields
  in place. Every such method's postcondition says the new state is the pure
  function applied to the old state.
- **Merge loops.** A loop over the other side's map (`merge_mut` of the
  grow-only map, last-writer-wins set and map, and two-phase map) is proved
  to compute `Merge` by its invariant. The invariant does not depend on the
  order in which keys are visited.
- **Laws.** Each merge law of `src/merge.rs` (idempotence, commutativity,
  associativity) is a lemma of its own for each type. `Max`, the grow-only
  set and the clock maximum also carry a `Semilattice` lemma, so that the
  containers can use them as value merges. Every merge law the source's property tests
  check is either proved or refuted by a concrete counterexample, and so is
  the map's remove-after-insert test.
- **Generic values.** A value type that is itself mergeable is passed as the
  join function `join: (V, V) -> V`. The container laws then require that
  function to be idempotent, commutative or associative.
- **External inputs.** Wall-clock readings (`Utc::now()`) and UUIDs are
  integer parameters. Clock timestamps are integers. Counters are bounded by
  their Rust width.

Verifying the last-writer-wins map (`src/crdt/lwwmap.rs`) showed that its
merge is neither idempotent on every reachable state nor associative, and
that its remove-after-insert test claims more than the map guarantees (see
"## Findings"). `VersionedLwwMap` is a corrected design: each value carries
the clock of the write that produced it. For that design the laws are proved.

## Model

| member | source | states |
|---|---|---|
| MergeLaws.JoinIsLeastUpperBound | src/merge.rs:1-39 | a merge satisfying the three tested laws makes "merging a into b leaves b" a partial order in which merge(a, b) is the least upper bound of a and b |
| Hlc.CompareInt | src/crdt/hlc.rs:61-64 | comparing one field answers Less exactly when it is smaller and Equal exactly when it is equal |
| Hlc.PartialCmp | src/crdt/hlc.rs:68-72 | `partial_cmp` is always defined, and it answers Less exactly when comparing the other way answers Greater |
| Hlc.Cmp | src/crdt/hlc.rs:59-66 | `cmp` answers Less exactly when the first clock is lexicographically smaller (timestamp, then counter, then node id) and Greater exactly when it is larger |
| Hlc.NewClock | src/crdt/hlc.rs:40-46 | a new clock takes the wall-clock reading and the node id, and starts its counter at 0 |
| Hlc.TickClock | src/crdt/hlc.rs:48-56 | when the wall clock has moved past the timestamp, the clock takes the new time and resets the counter; otherwise it increments the counter; the node id never changes, and the new clock is strictly later than the old one |
| Hlc.CmpIsLexicographic | src/crdt/hlc.rs:59-66 | `<` on clocks is lexicographic: timestamp first, then counter, then node id |
| Hlc.CmpEqualIffSame | src/crdt/hlc.rs:59-66 | `cmp` answers Equal exactly for equal clocks, which agrees with the derived `Eq` |
| Hlc.CmpAntisymmetric | src/crdt/hlc.rs:59-66 | swapping the operands of `cmp` reverses the answer |
| Hlc.LtIsStrictTotalOrder | src/crdt/hlc.rs:59-72 | `<` on clocks is irreflexive, transitive, asymmetric and total |
| Hlc.MaxClockIsUpperBound | src/crdt/lwwset.rs:36-38 | keeping the later of two clocks yields one of them, and that clock is at or above both |
| Hlc.MutableClock.New | src/crdt/hlc.rs:40-46 | the constructed clock is the new clock for that node id and time |
| Hlc.MutableClock.Tick | src/crdt/hlc.rs:48-56 | the in-place tick leaves the clock equal to the ticked value of the old clock |
| LegacyHlc.NewClock | src/hlc.rs:14-20 | a new clock takes the wall-clock reading and the node id, and starts its counter at 0 |
| LegacyHlc.TickClock | src/hlc.rs:22-30 | the tick takes a later wall clock and resets the counter, or otherwise increments the counter; the new clock compares strictly greater than the old one |
| LegacyHlc.Cmp | src/hlc.rs:33-40 | the hand-written `cmp` answers Equal exactly for equal clocks, and Greater exactly when the first clock is lexicographically larger |
| LegacyHlc.Eq | src/hlc.rs:42-48 | the hand-written `eq` holds exactly when all three fields agree |
| LegacyHlc.DerivedPartialCmp | src/hlc.rs:6-11 | the derived field-by-field `partial_cmp` is always defined and answers Equal exactly for equal clocks |
| LegacyHlc.DerivedPartialCmpAgreesWithCmp | src/hlc.rs:6-40 | the derived `PartialOrd` compares fields in declaration order, is always defined, and agrees with the hand-written `cmp` |
| LegacyHlc.CmpIsLexicographic | src/hlc.rs:33-40 | `cmp` answers Less exactly in lexicographic order of timestamp, counter and node id |
| LegacyHlc.EqIsFieldwiseEquality | src/hlc.rs:42-48 | the hand-written `eq` holds exactly for equal clocks, and exactly when `cmp` answers Equal |
| LegacyHlc.MutableClock.New | src/hlc.rs:14-20 | the constructed clock is the new clock |
| LegacyHlc.MutableClock.Tick | src/hlc.rs:22-30 | the in-place tick gives the ticked value of the old clock |
| MaxRegister.From | src/crdt/max.rs:15-22 | `from` wraps the value unchanged |
| MaxRegister.Merge | src/crdt/max.rs:8-12 | the merge is one of its two operands and is at or above both |
| MaxRegister.MergeIsMaximum | src/crdt/max.rs:8-12 | the merge is one of its operands, at or above both, and a smaller or equal `other` changes nothing |
| MaxRegister.MergeIdempotent | src/crdt/max.rs:30-35 | merging a value with itself gives it back |
| MaxRegister.MergeCommutative | src/crdt/max.rs:37-42 | the merge does not depend on operand order |
| MaxRegister.MergeAssociative | src/crdt/max.rs:44-49 | the merge does not depend on grouping |
| MaxRegister.MergeIsSemilattice | src/crdt/max.rs:30-49 | all three laws hold for every value, in the form that containers require of their value type |
| MaxRegister.MutableMax.From | src/crdt/max.rs:19-21 | the constructed register holds the value |
| MaxRegister.MutableMax.MergeMut | src/crdt/max.rs:8-12 | the in-place merge leaves the merge of the old value with `other` |
| LwwRegister.New | src/crdt/lww.rs:12-17 | a new register holds the given value and clock |
| LwwRegister.Merge | src/crdt/lww.rs:39-43 | the merge is one of the two writes, and its clock is at or above both clocks |
| LwwRegister.MergeKeepsLaterWrite | src/crdt/lww.rs:39-43 | the merge keeps the write with the strictly later clock, and otherwise keeps self; its clock is the later of the two clocks |
| LwwRegister.MergeTieKeepsSelf | src/crdt/lww.rs:39-43 | when the two clocks are equal, self wins whatever the values |
| LwwRegister.MergeIdempotent | src/crdt/lww.rs:52-57 | merging a register with itself gives it back |
| LwwRegister.MergeCommutative | src/crdt/lww.rs:59-66 | the merge is commutative exactly when a shared clock means the same write; distinct clocks, which the test assumes, are one such case, and two different writes under one clock are the only failure |
| LwwRegister.MergeAssociative | src/crdt/lww.rs:68-77 | the merge is associative on every triple of registers, tied clocks included, so only commutativity depends on the test's distinct-clock assumption |
| LwwRegister.MutableLWWRegister.New | src/crdt/lww.rs:12-17 | the constructed register holds the value and clock |
| LwwRegister.MutableLWWRegister.Set | src/crdt/lww.rs:20-23 | `set` overwrites the value and the clock, whatever the clocks |
| LwwRegister.MutableLWWRegister.MergeMut | src/crdt/lww.rs:39-43 | the in-place merge leaves the merge of the old register with `other` |
| GrowSet.Merge | src/crdt/gset.rs:17-19 | the merged set contains both sets and nothing else |
| GrowSet.MergeIdempotent | src/crdt/gset.rs:28-33 | merging a set with itself gives it back |
| GrowSet.MergeCommutative | src/crdt/gset.rs:35-40 | the merge does not depend on operand order |
| GrowSet.MergeAssociative | src/crdt/gset.rs:42-47 | the merge does not depend on grouping |
| GrowSet.MergeIsSemilattice | src/crdt/gset.rs:28-47 | all three laws hold for every set |
| GrowSet.MutableGSet.Insert | src/crdt/gset.rs:10-12 | `insert` adds the item and removes nothing |
| GrowSet.MutableGSet.MergeMut | src/crdt/gset.rs:17-19 | `append` leaves the union, and no item is lost |
| GrowMap.InsertOrMerge | src/crdt/gmap.rs:15-24 | `insert` adds the key; an absent key gets the value verbatim; a present key gets its old entry merged with the value, never overwritten; every other entry is unchanged |
| GrowMap.Merge | src/crdt/gmap.rs:34-38 | the merged key set is the union of both key sets, and each entry is the inner merge where both sides have the key and the single side's entry otherwise |
| GrowMap.GetMut | src/crdt/gmap.rs:27-29 | `get_mut` answers Some exactly for a present key, with its entry |
| GrowMap.MergeByInserts | src/crdt/gmap.rs:34-38 | merging is folding `insert` over the other map's entries, one key at a time |
| GrowMap.InsertOnlyGrows | src/crdt/gmap.rs:15-24 | `insert` never removes a key, and it changes no other key's entry |
| GrowMap.MergeIdempotent | src/crdt/gmap.rs:55-60 | merging a map with itself gives it back when the value merge is idempotent |
| GrowMap.MergeCommutative | src/crdt/gmap.rs:62-67 | the merge is commutative when the value merge is |
| GrowMap.MergeAssociative | src/crdt/gmap.rs:69-74 | the merge is associative when the value merge is |
| GrowMap.MergeLawsOverMax | src/crdt/gmap.rs:55-74 | all three laws hold for maps of `Max` values, as the tests instantiate them |
| GrowMap.MutableGMap.Default | src/crdt/gmap.rs:43-45 | `default` is the empty map |
| GrowMap.MutableGMap.Insert | src/crdt/gmap.rs:15-24 | the in-place insert gives the insert-or-merge of the old map |
| GrowMap.MutableGMap.GetMut | src/crdt/gmap.rs:27-29 | `get_mut` answers Some exactly for a present key, with its entry |
| GrowMap.MutableGMap.MergeMut | src/crdt/gmap.rs:34-38 | the loop of inserts leaves the merge of the old map with `other`, whatever order the keys are visited in |
| LwwSet.RecordIfLater | src/crdt/lwwset.rs:14-16 | recording a clock only if it is strictly later is an insert-or-merge whose value merge keeps the later clock |
| LwwSet.AddAt | src/crdt/lwwset.rs:13-17 | `insert` records the clock among the adds when it is later, and leaves the removes untouched |
| LwwSet.RemoveAt | src/crdt/lwwset.rs:20-24 | `remove` records the clock among the removes when it is later, and leaves the adds untouched |
| LwwSet.Contains | src/crdt/lwwset.rs:27-29 | an item is contained exactly when it has an add clock and either no remove clock or an earlier one |
| LwwSet.Merge | src/crdt/lwwset.rs:34-46 | the merged adds and removes cover the items of both sides, and each recorded clock is one of the two sides' clocks for that item and at or above both, so it is their later clock |
| LwwSet.AddRecordsIffLater | src/crdt/lwwset.rs:13-17 | `insert` sets the item's add clock exactly when the item is absent or the new clock is strictly later |
| LwwSet.MaxClockIsSemilattice | src/crdt/lwwset.rs:34-46 | keeping the later clock is idempotent, commutative and associative |
| LwwSet.MergeIdempotent | src/crdt/lwwset.rs:55-60 | merging a set with itself gives it back |
| LwwSet.MergeCommutative | src/crdt/lwwset.rs:62-67 | the merge does not depend on operand order |
| LwwSet.MergeAssociative | src/crdt/lwwset.rs:69-74 | the merge does not depend on grouping |
| LwwSet.ClockMergeNeverDecreases | src/crdt/lwwset.rs:34-46 | after a merge, every item of either side has a clock at or above that side's clock |
| LwwSet.ClocksNeverDecrease | src/crdt/lwwset.rs:13-46 | no add or remove clock of any item ever decreases under `insert`, `remove` or `merge_mut` |
| LwwSet.RemoveThenReAdd | src/crdt/lwwset.rs:13-29 | a later remove hides an item, and a still later add brings it back |
| LwwSet.ConcurrentAddAndRemoveConverge | src/crdt/lwwset.rs:27-46 | an add on one replica and a later remove on another merge to the same state in either order, and the item is absent |
| LwwSet.MutableLWWSet.Insert | src/crdt/lwwset.rs:13-17 | the in-place insert gives the pure insert of the old state |
| LwwSet.MutableLWWSet.Remove | src/crdt/lwwset.rs:20-24 | the in-place remove gives the pure remove of the old state |
| LwwSet.MutableLWWSet.MergeMut | src/crdt/lwwset.rs:34-46 | the two loops of conditional inserts leave the merge of the old state with `other` |
| LwwMap.InsertAt | src/crdt/lwwmap.rs:27-30 | `insert` records the add in the key set, then inserts or merges the value, whether or not the add won |
| LwwMap.RemoveAt | src/crdt/lwwmap.rs:44-47 | `remove` records the remove and deletes the key's value, whatever the clock |
| LwwMap.Retain | src/crdt/lwwmap.rs:72 | `retain` keeps exactly the values whose keys are contained, unchanged |
| LwwMap.Merge | src/crdt/lwwmap.rs:68-80 | the key sets are merged first, and afterwards every key holding a value is contained in the merged key set and held a value on one of the sides |
| LwwMap.MergeKeepsValuesOfContainedKeys | src/crdt/lwwmap.rs:68-80 | after a merge, the key sets are merged, and a key holds a value exactly when it is contained and either side held one; that value is the inner merge of the sides' values; every key holding a value is contained |
| LwwMap.DefaultValuesContained | src/crdt/lwwmap.rs:55-60 | the default map satisfies the invariant that every key holding a value is contained |
| LwwMap.RemovePreservesValuesContained | src/crdt/lwwmap.rs:44-47 | `remove` keeps that invariant |
| LwwMap.InsertPreservesValuesContainedIff | src/crdt/lwwmap.rs:27-30 | `insert` keeps that invariant exactly when the inserted key is contained afterwards |
| LwwMap.RemoveAfterInsertRemovesValue | src/crdt/lwwmap.rs:144-154 | an insert followed by a remove at a later clock leaves the key neither contained nor holding a value, provided no add of the key already recorded is later than the remove |
| LwwMap.RemoveAfterInsertCanLeaveKeyContained | src/crdt/lwwmap.rs:144-154 | counterexample: a base already holding a later add of the key keeps the key contained after the insert and the remove, with no value |
| LwwMap.MergeCommutative | src/crdt/lwwmap.rs:164-169 | the merge is commutative on every pair of states when the value merge is |
| LwwMap.MergeIdempotent | src/crdt/lwwmap.rs:157-162 | the merge is idempotent on states satisfying the invariant |
| LwwMap.InsertCanBreakIdempotence | src/crdt/lwwmap.rs:27-30 | counterexample: an insert at a clock earlier than the key's remove leaves a state with merge(a, a) != a |
| LwwMap.MergeNotAssociative | src/crdt/lwwmap.rs:68-80 | counterexample: three states satisfying the invariant whose merge depends on grouping |
| LwwMap.MutableLWWMap.Default | src/crdt/lwwmap.rs:55-60 | `default` has an empty key set and no values |
| LwwMap.MutableLWWMap.Insert | src/crdt/lwwmap.rs:27-30 | the in-place insert gives the pure insert of the old state |
| LwwMap.MutableLWWMap.InsertValue | src/crdt/lwwmap.rs:32-41 | `insert_value` inserts or merges the value and leaves the key set alone |
| LwwMap.MutableLWWMap.Remove | src/crdt/lwwmap.rs:44-47 | the in-place remove gives the pure remove of the old state |
| LwwMap.MutableLWWMap.MergeMut | src/crdt/lwwmap.rs:68-80 | merging the key sets, then retaining, then looping over the other side's values leaves the pure merge of the old state with `other` |
| VersionedLwwMap.Prune | src/crdt/lwwmap.rs:71-72 | pruning keeps exactly the values written after their key's latest remove |
| VersionedLwwMap.InsertAt | src/crdt/lwwmap.rs:27-30 | corrected insert: record the add, and keep the value only when the write is later than the key's latest remove |
| VersionedLwwMap.RemoveAt | src/crdt/lwwmap.rs:44-47 | `remove` records the remove and drops every value of the key, as in the original |
| VersionedLwwMap.Merge | src/crdt/lwwmap.rs:68-80 | corrected merge: the key sets are merged, and every surviving value was written after its key's latest merged remove and came from one of the sides |
| VersionedLwwMap.ValidValuesAreContained | src/crdt/lwwmap.rs:71-72 | in a valid state every key holding a value is contained |
| VersionedLwwMap.DefaultValid | src/crdt/lwwmap.rs:55-60 | the default state is valid |
| VersionedLwwMap.InsertPreservesValid | src/crdt/lwwmap.rs:27-30 | the corrected insert keeps every state valid |
| VersionedLwwMap.RemovePreservesValid | src/crdt/lwwmap.rs:44-47 | `remove` keeps every state valid |
| VersionedLwwMap.MergePreservesValid | src/crdt/lwwmap.rs:68-80 | merging two valid states gives a valid state |
| VersionedLwwMap.MergeDropsOverruledVersions | src/crdt/lwwmap.rs:68-80 | no value written at or before a remove that either side has seen survives a merge |
| VersionedLwwMap.MergeIdempotent | src/crdt/lwwmap.rs:157-162 | the corrected merge is idempotent on valid states |
| VersionedLwwMap.MergeCommutative | src/crdt/lwwmap.rs:164-169 | the corrected merge is commutative on every pair of states |
| VersionedLwwMap.MergeAssociative | src/crdt/lwwmap.rs:171-176 | the corrected merge is associative on every triple of states |
| TwoPhaseMap.InsertUnlessRemoved | src/crdt/twopmap.rs:22-35 | `insert` of a removed key changes nothing; otherwise it inserts or merges; the removed keys never change |
| TwoPhaseMap.RemoveForever | src/crdt/twopmap.rs:37-40 | `remove` deletes the key's value and adds the key to the removed keys |
| TwoPhaseMap.Merge | src/crdt/twopmap.rs:48-55 | the removed keys become the union of both sides' removed keys, the present keys are those of either side minus the removed ones, and no key is both present and removed |
| TwoPhaseMap.DefaultDisjoint | src/crdt/twopmap.rs:63-68 | in the default map, no key is both present and removed |
| TwoPhaseMap.InsertPreservesDisjoint | src/crdt/twopmap.rs:22-35 | `insert` keeps present and removed keys disjoint |
| TwoPhaseMap.RemovePreservesDisjoint | src/crdt/twopmap.rs:37-40 | `remove` keeps present and removed keys disjoint |
| TwoPhaseMap.MergeRemovedWins | src/crdt/twopmap.rs:48-55 | after a merge, a key removed on either side is removed and absent; a key removed on neither side holds the merged entry of both sides; present and removed keys are disjoint |
| TwoPhaseMap.RemovedKeyStaysRemoved | src/crdt/twopmap.rs:22-25 | once removed, a key stays removed and absent whatever is inserted |
| TwoPhaseMap.MergeIdempotentIff | src/crdt/twopmap.rs:121-126 | merging a map with itself gives it back exactly when no key is both present and removed |
| TwoPhaseMap.MergeCommutative | src/crdt/twopmap.rs:128-133 | the merge is commutative on every pair of states when the value merge is |
| TwoPhaseMap.MergeAssociative | src/crdt/twopmap.rs:135-140 | the merge is associative on every triple of states when the value merge is |
| TwoPhaseMap.MutableTwoPMap.Default | src/crdt/twopmap.rs:63-68 | `default` has no entries and no removed keys |
| TwoPhaseMap.MutableTwoPMap.Insert | src/crdt/twopmap.rs:22-35 | the in-place insert gives the pure insert of the old state |
| TwoPhaseMap.MutableTwoPMap.Remove | src/crdt/twopmap.rs:37-40 | the in-place remove gives the pure remove of the old state |
| TwoPhaseMap.MutableTwoPMap.MergeMut | src/crdt/twopmap.rs:48-55 | `append`, the loop of inserts and `retain` together leave the pure merge of the old state with `other` |
| LegacyGrowSet.GSet.New | src/gset.rs:10-12 | `new` is the empty set |
| LegacyGrowSet.GSet.Insert | src/gset.rs:14-16 | `insert` adds the item and removes nothing |
| LegacyGrowSet.GSet.MergeMut | src/gset.rs:20-24 | draining `other` item by item leaves the union |
| LegacyGrowSet.MergeLawsOverBool | src/gset.rs:35-53 | the union is idempotent, commutative and associative on sets of booleans |
| LegacyGrowMap.GMap.Wrap | src/gmap.rs:6 | the tuple struct wraps the given map |
| LegacyGrowMap.GMap.MergeMut | src/gmap.rs:9-20 | the loop leaves the grow-only map merge: the union of the keys, the inner merge under shared keys, the other side's values verbatim under its own keys, and self's entries unchanged under self's keys |
| LegacyGrowMap.MergeLawsOverGSet | src/gmap.rs:30-49 | the merge of maps of grow-only sets is idempotent, commutative and associative |
| DocumentTask.New | src/document/task.rs:14-20 | a new task stamps all three registers with the same clock: added at the current time, not complete, and with the given description |
| DocumentTask.Merge | src/document/task.rs:25-29 | each field of the merged task is one of the two writes of that field, with a clock at or above both |
| DocumentTask.MergeIsFieldwise | src/document/task.rs:25-29 | each field of a merged task is the later write of that field alone, so merging one field never changes another |
| DocumentTask.MergeIdempotent | src/document/task.rs:25-29 | merging a task with itself gives it back |
| DocumentTask.MergeCommutative | src/document/task.rs:25-29 | the task merge is commutative exactly when no field holds two different writes under one clock, which includes a copy edited in only some fields |
| DocumentTask.MergeAssociative | src/document/task.rs:25-29 | the task merge is associative on every triple of tasks |
| DocumentTask.Status | src/replica/task.rs:23 | the status box is "[x]" exactly when the task is complete, and "[ ]" otherwise |
| DocumentTask.Display | src/document/task.rs:34-37 | the printed line is the status box, one space, then the description; the earlier task in src/replica/task.rs:21-25 prints the same line |
| DocumentTask.DisplayShowsCompleteAndDescription | src/document/task.rs:34-37 | two tasks print the same line exactly when they agree on completion and description |
| DocumentTask.MutableTask.New | src/document/task.rs:14-20 | the constructed task holds the three registers of a new task |
| DocumentTask.MutableTask.MergeMut | src/document/task.rs:25-29 | the in-place merge, one register at a time, leaves the task merge of the old task with `other`; the earlier task's `merge_mut` in src/replica/task.rs:12-16 is the same |
| TaskDocument.WithDescription | src/document.rs:37-40 | updating a description overwrites the description register with the new value and clock, and keeps the other two registers |
| TaskDocument.Completed | src/document.rs:48-51 | completing a task overwrites the completion register with true at the clock, and keeps the other two registers |
| TaskDocument.CompletedTaskShowsChecked | src/document.rs:47-51 | a completed task prints a checked box followed by its unchanged description |
| TaskDocument.CompletingOneCopyCommutes | src/document.rs:47-62 | a task completed on one replica and untouched on the other merges to the completed task in either order |
| TaskDocument.MergeTasksIdempotent | src/document.rs:58-62 | merging a document's tasks with themselves changes nothing |
| TaskDocument.MergeTasksCommutative | src/document.rs:58-62 | the document merge is commutative exactly when no shared task holds two different writes of a field under one clock |
| TaskDocument.MergeTasksAssociative | src/document.rs:58-62 | the document merge is associative on every triple of task maps |
| TaskDocument.InsertSorted | src/document.rs:15-19 | inserting into a sorted listing keeps it sorted, and adds exactly that entry |
| TaskDocument.Document.Default | src/document.rs:8-11 | the default document has no tasks |
| TaskDocument.Document.Tasks | src/document.rs:15-19 | `tasks` lists every task exactly once, with its id, sorted by the time it was added and then by id |
| TaskDocument.Document.AddTask | src/document.rs:22-28 | `add_task` inserts a new task under the id and returns the id |
| TaskDocument.Document.UpdateTaskDescription | src/document.rs:31-44 | answers true exactly when the id is present; then only that task's description changes; otherwise nothing changes |
| TaskDocument.Document.CompleteTask | src/document.rs:47-55 | answers true exactly when the id is present; then only that task's completion changes; otherwise nothing changes |
| TaskDocument.Document.MergeMut | src/document.rs:58-62 | the document merge is the grow-only map merge of the task maps under the task merge |

## Left out

- `src/main.rs` is not modelled: command-line parsing, file and JSON I/O, printing and tracing set-up.
- `src/replica.rs` is not modelled. Its `Replica::merge_mut` delegates to the grow-only map merge, exactly as `TaskDocument.Document.MergeMut` does.
- `src/crdt/merge.rs`, which `src/crdt.rs` declares, is not part of this model. The in-place `merge_mut` of the `src/crdt/` types is specified against each type's consuming `Merge`.
- Wall-clock reads (`Utc::now()`) become the parameter `now`. Random task ids (`Uuid::new_v4()`) become the parameter `id`. Node ids are the 128-bit values of their UUIDs; task ids are integers, ordered like the UUIDs.
- The clocks' `Display` formatting is not modelled, because it renders dates and UUIDs through foreign crates.
- The property-test generators (`Arbitrary` impls) are not modelled. Reachability is stated instead as the invariants `LwwMap.ValuesContained`, `VersionedLwwMap.Valid` and `TwoPhaseMap.Disjoint`, each proved preserved by the operations.
- serde derives and `tracing::instrument` attributes are not modelled, because they carry no behaviour.
- `GMap::iter` and `LWWMap::iter` only expose the underlying map. The model exposes the map itself, as `entries` and `values`, and not its key order.
- Hash and B-tree iteration order is not modelled. Merge loops visit keys in an arbitrary order, and their invariants show the result does not depend on it.
- Hlc.TickClock: requires the counter to be below `u16::MAX` when the wall clock has not advanced. The source's `counter += 1` panics there in debug builds and wraps in release builds, so that call is outside the model.
- Hlc.MutableClock.Tick: the same precondition as `Hlc.TickClock`.
- LegacyHlc.TickClock: the same precondition, with the `u64` bound.
- LegacyHlc.MutableClock.Tick: the same precondition as `LegacyHlc.TickClock`.
- MaxRegister.Merge: modelled over integers rather than any `Ord` type. The tests' `bool` is the two-element case.
- LwwMap.MergeIdempotent: holds only on states where every key holding a value is contained. "## Findings" shows reachable states where it fails.
- VersionedLwwMap: reading a key's current value (the inner merge of its surviving versions) is not modelled, only the state and its merge.
- `LWWSet` derives no `Default` in src/crdt/lwwset.rs:4-5, though the map's `Default` (src/crdt/lwwmap.rs:50-61) calls `LWWSet::default()`. `LwwSet.Default` is the empty set that call evidently means.
- `LwwMap.MutableLWWMap` and `TaskDocument.Document` hold their key set and task map as object references with no ownership framing. Two instances may alias one key set or task map, which Rust's ownership rules out; the model does not prove the absence of such sharing.
- The `added` register holds the wall-clock time as an integer, so `tasks` compares times as integers.

## Findings

| source | as written | input that shows it | evidently intended | confidence | as-written member | corrected member |
|---|---|---|---|---|---|---|
| src/crdt/lwwmap.rs:27-30 | `insert` stores the value even when its add loses to a newer remove of the key, leaving a value under a key that is not contained; `merge` then prunes it, so `merge(a, a) != a` | `a = remove(default, k, T2)` followed by `insert(a, k, Max(1), T1)` with `T1 < T2`, a state the map's test generator builds from two items with the same key | a value is kept only when its write beats the key's latest remove, so merging a state with itself changes nothing | high; not executed | LwwMap.InsertCanBreakIdempotence | VersionedLwwMap.InsertPreservesValid |
| src/crdt/lwwmap.rs:68-80 | `merge_mut` decides whether to keep a value from key membership at merge time, not from when the value was written, so a value pruned in one merge order survives in another and is merged with a newer value | `a = insert(k, Max(1), T1)`; `b = insert(k, Max(0), T0)` then `remove(k, T2)`; `c = insert(k, Max(0), T3)`, with `T0 < T1 < T2 < T3`: `(a ⊔ b) ⊔ c` holds `Max(0)` while `a ⊔ (b ⊔ c)` holds `Max(1)` | the merge is associative, as the map's `merge_associative` test asserts: a value written before a remove never reappears | high; not executed | LwwMap.MergeNotAssociative | VersionedLwwMap.MergeAssociative |
| src/crdt/lwwmap.rs:144-154 | the `removing_removes_value` test inserts `k` at a fresh clock read from the wall clock, removes it one tick later, and asserts `k` is not contained, on an arbitrary generated base | a base built by the map's generator (src/crdt/lwwmap.rs:102-129) holding an add of `k` whose timestamp, drawn up to 1.8e12 seconds (src/crdt/hlc.rs:19-25), is later than the test's wall-clock reading: the base's add outlasts the test's remove, so `k` stays contained | the assertion holds when no add of `k` already recorded is later than the remove, as last-writer-wins intends | high; not executed | LwwMap.RemoveAfterInsertCanLeaveKeyContained | LwwMap.RemoveAfterInsertRemovesValue |
