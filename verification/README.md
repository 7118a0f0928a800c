# Movici: tracked entity state, its timeline, and four smaller cores

Movici keeps the state of a simulated world as entity groups with attributes and exchanges updates of
what changed. This project models that engine and proves that its fast, incremental forms mean what the
simple ones mean.

* **Entities.** `EntityIndex` (block index and binary search), `CsrRows` and `CsrKernels` (rows of any
  length in flat buffers), `ChangeTracking`, `TrackedArrays`, `AttributeValues` and `Attributes` (change
  flags, lazy snapshots, growth), `EntityTable`, `EntityGroups` and `TrackedStates` (receiving and
  generating updates).
* **Protocol.** `MergeUpdates`, `PublishSubscribe`, `DataMask`, `StateExchange`, `StateCycles`,
  `ModelAdapter` and `ModelRuns`: a publisher and a subscriber keep a shared world state, over any number
  of cycles, with masks and merged updates, driven by the life cycle of a model.
* **Timeline.** `UpdateStreams` (a doubly linked list with a cursor), `Timelines`, `UpdateOrder`,
  `TimeProgression` and `ResultDatasets`: a state that moves forward and back through a simulation.
* **Import and export.** `DataFormat`, `EnumConversions`, `JsonPaths` and `ConfigRefs`, and `InpText`,
  `InpFiles`, `InpRoundTrip`, `InpRecords` and `InpExport` for SWMM `.inp` files.
* **Aggregation and points.** `Aggregation` and `PointGenerators`.

`Cells` has the values that attributes hold and `Decimals` the digits of numbers. A cell is undefined, a
number or a text; a row is a sequence of cells; a uniform attribute has rows of one cell. Integers,
booleans and texts compare exactly, floats by closeness with a relative and an absolute tolerance over
the real numbers. An exception is an `Err` result, with a short message. Dictionaries are maps, and a
loop over one takes the keys in any order, so that what is proved holds for every order.

Objects that the source updates in place are classes here, each proved against a function on values
(`Model()`); properties of whole runs are lemmas about these functions. The base of an attribute, its
rows at the last reset, is a history variable: the source does not store it.

## Where the code differs from what it is meant to do

* Setting the ids of an index again raises even when they are the same, although the code first checks
  for that (`EntityIndex.Index.SetIds`).
* An array that grows while it is not being tracked can hide that a cell is later set back to undefined
  (`ChangeTracking.MissedChanges`), and an undefined row is never published over a defined one
  (`PublishSubscribe.CycleKeepsAgreement`).
* What is compared by closeness is flagged by single moves, not by how far it got: uniform attributes per
  cycle, CSR attributes per write. A subscriber holds the row of the last cycle that sent one
  (`PublishSubscribe.HoldsLastSent`), and `UniformCycle`, `CsrCycle`, `SentIfMoved` and `SentIfJumped` say
  exactly when a row is sent; small moves can add up without bound (`PublishSubscribe.FloatsDriftApart`,
  `ChangeTracking.CsrDrift`).
* The in-place path of `update_from_matrix` compares integers by closeness, which shows exactly when the
  tolerance reaches one at some entry (`TrackedArrays.PathsAgreeOnIntegers`);
  otherwise such writes are noticed (`PublishSubscribe.IntegersAreFaithful`), as the theorems on exactly
  compared attributes need.
* An update that brings new entities to a known group is not undone when the timeline moves back
  (`Timelines.UndoRestores`).
* A timeline takes new groups, but not with CSR data, nor a new CSR attribute together with a new entity:
  computing the reverse raises (`Timelines.NewGroupIsSliceable`, `Timelines.NewCsrAttributeRaises`), so
  that a dataset with such an update cannot be opened (`ResultDatasets.Open`).
* Generating an update raises when a published attribute was never filled, as in a group without entities
  (`TrackedStates.EntityGroupState.GenerateUpdate`).
* Masks that have only the id in common overlap (`DataMask.SpuriousOverlap`).
* A None inside a longer row of nested lists turns the whole row into None (`DataFormat.CsrRoundTrip`).
* Keys that are no identifiers and negative positions do not survive as paths (`JsonPaths.PathRoundTrip`),
  and any character, not only a dot, may stand before a key (`JsonPaths.ParsedExactly`).
* A source that is listed twice in one area loses part of its share
  (`Aggregation.ConservedWithoutRepeats`); a special value is integrated as a number
  (`Aggregation.SpecialIsIntegrated`), and an undefined one stops the whole area for a step
  (`Aggregation.IntegralGrowth`).
* An enum list with a value that occurs twice gives that value a position that cannot be decoded
  (`EnumConversions.DecodableLists`); negative codes pass the check.
* A pump with a type but without a curve is written as an ideal pump (`InpRecords.PumpTypeSurvives`).

## Model

| member | source | states |
|---|---|---|
| EntityIndex.QueryFindsPosition | packages/simulation-core/src/movici_simulation_core/core/index.py:98-142 | for distinct ids in any order, building the block index and searching it gives each id's position in the sequence, and -1 for an id that is absent |
| EntityIndex.BlocksCover | packages/simulation-core/src/movici_simulation_core/core/index.py:112-136 | the blocks are maximal runs of consecutive ids that lie one after the other and cover all positions |
| EntityIndex.BlocksBeginAtSplits | packages/simulation-core/src/movici_simulation_core/core/index.py:125-132 | a block begins at a position exactly when it is the first one or the difference with the previous id is not one |
| EntityIndex.BlocksApart | packages/simulation-core/src/movici_simulation_core/core/index.py:132-142 | blocks of distinct ids are disjoint intervals |
| EntityIndex.SortOrders | packages/simulation-core/src/movici_simulation_core/core/index.py:138-142 | sorting disjoint blocks by their first id also sorts them by their last id, which the binary search relies on |
| EntityIndex.SearchSorted | packages/simulation-core/src/movici_simulation_core/core/index.py:104-104 | binary search gives the first place whose value is not below the one searched for |
| EntityIndex.PositionStable | packages/simulation-core/src/movici_simulation_core/core/index.py:47-51 | positions do not change when ids are added, and a new id comes after all old ones |
| EntityIndex.QueryIndices | packages/simulation-core/src/movici_simulation_core/core/index.py:90-95 | the loop over a list of ids gives each one's result |
| EntityIndex.Index.AddIds | packages/simulation-core/src/movici_simulation_core/core/index.py:47-51 | new ids are appended; duplicates, among themselves or with known ids, raise and leave the index as it was |
| EntityIndex.Index.SetIds | packages/simulation-core/src/movici_simulation_core/core/index.py:41-45 | ids can be set once; any later attempt raises, also with the very same ids, because these are duplicates of the known ones |
| EntityIndex.Index.Get | packages/simulation-core/src/movici_simulation_core/core/index.py:66-87 | looking ids up gives their positions, -1 for unknown ones, or raises when some are unknown and the index was made to |
| EntityIndex.EnsureUnique | packages/simulation-core/src/movici_simulation_core/core/index.py:53-61 | candidates are accepted exactly when no id occurs twice |
| CsrRows.RowsOfFlatten | packages/simulation-core/src/movici_simulation_core/csr.py:249-253 | a column of rows survives being stored as cells and row pointers |
| CsrRows.FlattenOfRows | packages/simulation-core/src/movici_simulation_core/csr.py:249-253 | cells and row pointers are determined by the rows they stand for |
| CsrRows.WriteSegment | packages/simulation-core/src/movici_simulation_core/csr.py:229-234 | rows are disjoint segments of the buffer: writing one changes no other |
| CsrRows.StripThenOverwrite | packages/simulation-core/src/movici_simulation_core/core/attribute.py:412-451 | removing undefined rows from an update and writing the rest leaves each row as the update has it, or as it was where the update is undefined |
| CsrRows.UndefinedCellsAndRows | packages/simulation-core/src/movici_simulation_core/core/attribute.py:427-451 | the count of undefined cells is the number of undefined rows exactly when undefined cells only stand alone, and otherwise it is larger |
| CsrRows.DeltaReachesReceiver | packages/simulation-core/src/movici_simulation_core/csr.py:151-274 | masked generation, stripping and updating gives the publisher's row at changed indices where that is defined, and the receiver's own row everywhere else |
| CsrKernels.GetNewCsrArray | packages/simulation-core/src/movici_simulation_core/csr.py:249-253 | row pointers for the given lengths and a buffer of exactly the right size |
| CsrKernels.GetRow | packages/simulation-core/src/movici_simulation_core/csr.py:224-226 | the slice between two row pointers is the row |
| CsrKernels.SetRow | packages/simulation-core/src/movici_simulation_core/csr.py:229-234 | one row is written in place, inside the buffer, and every other row stays |
| CsrKernels.UpdatedRowLengths | packages/simulation-core/src/movici_simulation_core/csr.py:168-171 | the lengths of updated rows are replaced, all others kept |
| CsrKernels.CopyOtherRows | packages/simulation-core/src/movici_simulation_core/csr.py:175-180 | rows outside the update are copied to their new places |
| CsrKernels.WriteUpdatedRows | packages/simulation-core/src/movici_simulation_core/csr.py:182-189 | updated rows are written at their positions and flagged exactly when they differ from the row they replace |
| CsrKernels.UpdateCsrArray | packages/simulation-core/src/movici_simulation_core/csr.py:151-190 | the new arrays are well formed and hold the updated rows at the updated positions and the old rows elsewhere; change flags are as compared |
| CsrKernels.RemoveUndefinedCsr | packages/simulation-core/src/movici_simulation_core/csr.py:193-221 | the defined rows and their indices remain, in order, in buffers of exactly the allocated size |
| CsrKernels.AllocationExact | packages/simulation-core/src/movici_simulation_core/core/attribute.py:427-451 | the buffers allocated from the count of undefined cells fit the rows that remain exactly when undefined cells only stand alone in their rows |
| CsrKernels.SliceCsrArray | packages/simulation-core/src/movici_simulation_core/csr.py:237-246 | slicing gives the rows at the indices, in their order |
| CsrKernels.GenerateUpdate | packages/simulation-core/src/movici_simulation_core/csr.py:256-274 | an update has one row per masked entity: its row where it changed and one undefined cell where it did not |
| ChangeTracking.CacheAlwaysFresh | packages/simulation-core/src/movici_simulation_core/core/arrays.py:49-81 | over any interleaving of reads, writes, queries, resets and growth the cached flags equal a fresh comparison with the snapshot |
| ChangeTracking.FlagsExactWithoutGrowth | packages/simulation-core/src/movici_simulation_core/core/arrays.py:49-81 | without growth the flags say exactly which cells differ from those at the last reset |
| ChangeTracking.UntouchedFlags | packages/simulation-core/src/movici_simulation_core/core/arrays.py:49-77 | merely reading an array raises no flag exactly when every cell is the same as itself, which fails for NaN when it is not equal to itself |
| ChangeTracking.FlagsExact | packages/simulation-core/src/movici_simulation_core/core/arrays.py:49-81 | from a reset on, over any interleaving with growth and for any reflexive comparison, a cell is flagged exactly when it differs from its value at the last reset, or from undefined if the array grew before it was tracked while the cell was defined |
| ChangeTracking.MissedChanges | packages/simulation-core/src/movici_simulation_core/core/attribute.py:331-339 | a change goes unflagged exactly when, since the last reset, the array grew before it was tracked while the cell was defined, and the cell is undefined now |
| ChangeTracking.NoChangeMissed | packages/simulation-core/src/movici_simulation_core/core/attribute.py:312-339 | when no write puts undefined over a defined cell, every changed cell is flagged, whatever else happens |
| ChangeTracking.GrowthCanHideAChange | packages/simulation-core/src/movici_simulation_core/core/attribute.py:331-339 | the exception that MissedChanges allows does occur |
| ChangeTracking.WriteIsOverwrite | packages/simulation-core/src/movici_simulation_core/core/arrays.py:53-55 | writing cells of a uniform array is overwriting rows of one cell |
| ChangeTracking.UnflaggedRowsUnchanged | packages/simulation-core/src/movici_simulation_core/core/arrays.py:120-139 | under exact comparison a CSR row without a flag equals its row at the last reset, over any run of updates, resets, growth and replacements in place that tell different rows apart |
| ChangeTracking.CsrFlagsExact | packages/simulation-core/src/movici_simulation_core/core/arrays.py:120-139 | over any run and for any reflexive comparison a CSR row is flagged exactly when a single operation since the last reset moved it further than it tolerates |
| ChangeTracking.MovedOnce | packages/simulation-core/src/movici_simulation_core/core/arrays.py:120-139 | a CSR row that moved once since the last reset is flagged exactly when it is not close to what it was |
| ChangeTracking.CsrDrift | packages/simulation-core/src/movici_simulation_core/core/arrays.py:120-139 | so that under closeness a row can get far without a flag: it does when it moves by the absolute tolerance at a time |
| TrackedArrays.TrackedArray.constructor | packages/simulation-core/src/movici_simulation_core/core/arrays.py:29-47 | a new array is freshly reset |
| TrackedArrays.TrackedArray.Grown | packages/simulation-core/src/movici_simulation_core/core/attribute.py:331-339 | growing copies the cells into an undefined array and keeps the snapshot of the old one, undefined where there was none |
| TrackedArrays.TrackedArray.StartTracking | packages/simulation-core/src/movici_simulation_core/core/arrays.py:57-60 | the first access takes the snapshot, every access drops the cached flags |
| TrackedArrays.TrackedArray.Get | packages/simulation-core/src/movici_simulation_core/core/arrays.py:49-51 | reading starts tracking and changes nothing else |
| TrackedArrays.TrackedArray.Set | packages/simulation-core/src/movici_simulation_core/core/arrays.py:53-55 | writing starts tracking and writes exactly the targeted cells |
| TrackedArrays.TrackedArray.QueryChanged | packages/simulation-core/src/movici_simulation_core/core/arrays.py:62-77 | the flags are the cached ones or a fresh comparison, which is then cached |
| TrackedArrays.TrackedArray.Reset | packages/simulation-core/src/movici_simulation_core/core/arrays.py:79-81 | a reset forgets snapshot and cache |
| TrackedArrays.UpdateAllRows | packages/simulation-core/src/movici_simulation_core/core/arrays.py:273-274 | updating all rows through the general path stores the matrix and adds the flags of exactly the rows that differ |
| TrackedArrays.PathsAgreeExactly | packages/simulation-core/src/movici_simulation_core/core/arrays.py:260-290 | the in-place path and the general path give the same rows and flags exactly when both comparisons agree on every row that is not flagged yet |
| TrackedArrays.PathsAgreeOnIntegers | packages/simulation-core/src/movici_simulation_core/core/arrays.py:260-290 | for integers the two paths agree, whatever integers were there before, exactly when the tolerance is below one at every entry of the matrix |
| TrackedArrays.InPlaceMissesInteger | packages/simulation-core/src/movici_simulation_core/core/arrays.py:276-290 | with the default tolerance it is not at a million: the in-place path takes it for a million and one |
| TrackedArrays.TrackedCsrArray.constructor | packages/simulation-core/src/movici_simulation_core/core/arrays.py:103-110 | a new CSR array has no flags |
| TrackedArrays.TrackedCsrArray.Grown | packages/simulation-core/src/movici_simulation_core/core/attribute.py:453-486 | growing appends undefined rows and keeps rows and flags |
| TrackedArrays.TrackedCsrArray.Reset | packages/simulation-core/src/movici_simulation_core/core/arrays.py:188-189 | a reset clears all flags |
| TrackedArrays.TrackedCsrArray.Update | packages/simulation-core/src/movici_simulation_core/core/arrays.py:120-139 | the rows are overwritten and the flags accumulated |
| TrackedArrays.TrackedCsrArray.Slice | packages/simulation-core/src/movici_simulation_core/core/arrays.py:144-151 | a slice has the rows at the indices and no flags |
| TrackedArrays.TrackedCsrArray.UpdateFromMatrix | packages/simulation-core/src/movici_simulation_core/core/arrays.py:260-274 | the matrix's rows are stored and the flags accumulated, by closeness if these are floats or all rows had their length already, and exactly otherwise; a wrong number of rows raises, and so does a matrix without columns |
| TrackedArrays.TrackedCsrArray.UpdateInPlace | packages/simulation-core/src/movici_simulation_core/core/arrays.py:276-290 | equal shapes are updated in place, with the flags of the rows that are not close |
| TrackedArrays.TrackedCsrArray.AsMatrix | packages/simulation-core/src/movici_simulation_core/core/arrays.py:246-258 | rows of equal length form the matrix, other arrays raise |
| TrackedArrays.MatrixToCsr | packages/simulation-core/src/movici_simulation_core/core/arrays.py:296-300 | a matrix becomes a CSR array with its rows |
| TrackedArrays.MatrixThroughCsr | packages/simulation-core/src/movici_simulation_core/core/arrays.py:246-300 | a non-empty matrix survives the way to CSR form and back |
| AttributeValues.UpdatePatches | packages/simulation-core/src/movici_simulation_core/core/attribute.py:303-329 | for uniform and CSR attributes alike an update writes its rows except undefined ones, unless these are processed too; the rows at the last reset do not move |
| AttributeValues.FlaggedIfDifferent | packages/simulation-core/src/movici_simulation_core/core/attribute.py:197-203 | a uniform attribute is flagged exactly where it differs from its reference, the snapshot or, without one, the rows themselves |
| AttributeValues.ReferenceStays | packages/simulation-core/src/movici_simulation_core/core/attribute.py:303-329 | updates do not move the reference |
| AttributeValues.ReferenceGrows | packages/simulation-core/src/movici_simulation_core/core/attribute.py:331-339 | making room for entities keeps the reference of an attribute that is being tracked, and loses it otherwise |
| AttributeValues.UpdateFlags | packages/simulation-core/src/movici_simulation_core/core/attribute.py:412-425 | an update flags exactly the rows of a CSR attribute that it moves further than is tolerated, and keeps the other flags |
| AttributeValues.MatrixFlags | packages/simulation-core/src/movici_simulation_core/core/arrays.py:260-290 | writing a matrix flags exactly the rows that it moves further than is tolerated, by the tolerance of floats if all rows have their length already |
| Attributes.UniformAttribute.Initialize | packages/simulation-core/src/movici_simulation_core/core/attribute.py:175-178 | an attribute is initialized with undefined rows, once |
| Attributes.UniformAttribute.StripUndefined | packages/simulation-core/src/movici_simulation_core/core/attribute.py:323-329 | undefined values are replaced by the values that are there, and the array is read only then |
| Attributes.UniformAttribute.Update | packages/simulation-core/src/movici_simulation_core/core/attribute.py:303-321 | the attribute object does to its array what the attribute value says |
| Attributes.UniformAttribute.Resize | packages/simulation-core/src/movici_simulation_core/core/attribute.py:205-213 | growing keeps the rows, and the flags of an array that is being tracked; an array that is not flags every defined cell afterwards; shrinking raises |
| Attributes.UniformAttribute.Changed | packages/simulation-core/src/movici_simulation_core/core/attribute.py:196-203 | one flag per entity, without changing rows or base |
| Attributes.UniformAttribute.GenerateUpdate | packages/simulation-core/src/movici_simulation_core/core/attribute.py:357-372 | masked cells, undefined where they did not change |
| Attributes.UniformAttribute.Reset | packages/simulation-core/src/movici_simulation_core/core/attribute.py:377-378 | a reset makes the current rows the base |
| Attributes.UniformAttribute.IsInitialized | packages/simulation-core/src/movici_simulation_core/core/attribute.py:180-184 | initialized is sticky: once all cells were defined it stays so |
| Attributes.CsrAttribute.StripUndefined | packages/simulation-core/src/movici_simulation_core/core/attribute.py:427-451 | undefined rows and their indices are removed, with the counts the code allocates by |
| Attributes.CsrAttribute.Update | packages/simulation-core/src/movici_simulation_core/core/attribute.py:412-425 | the attribute object does to its CSR array what the attribute value says |
| Attributes.CsrAttribute.Resize | packages/simulation-core/src/movici_simulation_core/core/attribute.py:453-486 | growing keeps rows and flags |
| Attributes.CsrAttribute.GenerateUpdate | packages/simulation-core/src/movici_simulation_core/core/attribute.py:504-529 | masked rows, undefined where they did not change |
| Attributes.CsrAttribute.Reset | packages/simulation-core/src/movici_simulation_core/core/attribute.py:537-538 | a reset clears the flags |
| EntityTable.ReceiveView | packages/simulation-core/src/movici_simulation_core/core/state.py:359-377 | cell by cell, receiving an update gives the update's row where it has a defined one, and the old row elsewhere; unknown entities and attributes count as undefined |
| EntityTable.AllIds | packages/simulation-core/src/movici_simulation_core/core/state.py:359-362 | new ids are appended in the order in which they come, without duplicates |
| EntityTable.Positions | packages/simulation-core/src/movici_simulation_core/core/state.py:366-377 | the positions at which the rows of an update are written are those of its ids |
| EntityTable.SameViews | packages/simulation-core/src/movici_simulation_core/core/state.py:366-377 | a group is determined by its ids, its attributes and its rows |
| EntityGroups.ReceiveGroupData | packages/simulation-core/src/movici_simulation_core/core/state.py:339-386 | receiving with change tracking gives the values of receiving without it, for new ids, unknown attributes and both kinds of attribute |
| EntityGroups.SetupAfter | packages/simulation-core/src/movici_simulation_core/core/state.py:366-386 | known attributes keep their flags and comparison; one that is tracked though unknown gets the flags of the state and compares floats by the default tolerance |
| EntityGroups.AllChanged | packages/simulation-core/src/movici_simulation_core/core/state.py:410-420 | the mask has exactly the entities for which a flagged attribute changed |
| EntityGroups.GeneratedIds | packages/simulation-core/src/movici_simulation_core/core/state.py:388-402 | an update lists the changed entities, each once, in index order |
| EntityGroups.GeneratedView | packages/simulation-core/src/movici_simulation_core/core/state.py:388-402 | an update holds an entity's row where it changed and an undefined row where it did not |
| EntityGroups.GeneratedAttributes | packages/simulation-core/src/movici_simulation_core/core/state.py:388-402 | an update has exactly the attributes with one of the flags that changed for some entity |
| EntityGroups.NothingGenerated | packages/simulation-core/src/movici_simulation_core/core/state.py:388-393 | when no update is generated, no flagged attribute has changed |
| EntityGroups.GeneratedWhenChanged | packages/simulation-core/src/movici_simulation_core/core/state.py:388-402 | there is an update exactly when an attribute with one of the flags changed for some entity |
| EntityGroups.ResetFlagged | packages/simulation-core/src/movici_simulation_core/core/state.py:430-434 | resetting changes no values |
| EntityGroups.ResetOnlyFlagged | packages/simulation-core/src/movici_simulation_core/core/state.py:430-434 | an attribute with at least one of the flags is reset, and any other one is left alone |
| MergeUpdates.AllIdsAssociative | packages/simulation-core/src/movici_simulation_core/core/state.py:359-362 | ids come in the same order whether updates are merged first or received in turn |
| MergeUpdates.MergeStep | packages/simulation-core/src/movici_simulation_core/postprocessing/results.py:272-278 | merging one more update first or receiving it after is the same, for any state, overlapping or new ids and missing attributes |
| MergeUpdates.MergeIsHomomorphism | packages/simulation-core/src/movici_simulation_core/postprocessing/results.py:272-278 | receiving the merge of any updates leaves any state as receiving them in turn: same values, same id order, same attributes |
| MergeUpdates.ReceiveMerged | packages/simulation-core/src/movici_simulation_core/postprocessing/results.py:272-278 | the merge of at least one update exists and has that effect |
| UpdateStreams.UpdateStream.constructor | packages/simulation-core/src/movici_simulation_core/postprocessing/results.py:334-342 | a new stream holds the sentinel with timestamp -1 and the cursor on it |
| UpdateStreams.UpdateStream.Next | packages/simulation-core/src/movici_simulation_core/postprocessing/results.py:349-353 | the cursor moves to the next node, or stays at the end |
| UpdateStreams.UpdateStream.Prev | packages/simulation-core/src/movici_simulation_core/postprocessing/results.py:355-359 | the cursor moves to the previous node, or stays at the sentinel |
| UpdateStreams.UpdateStream.LinkAfterCurrent | packages/simulation-core/src/movici_simulation_core/postprocessing/results.py:361-372 | the pointers are spliced so that next and prev stay inverse |
| UpdateStreams.UpdateStream.InsertAfter | packages/simulation-core/src/movici_simulation_core/postprocessing/results.py:361-372 | the node is spliced exactly after the cursor, which moves onto it; the heap stays a doubly linked list with the sentinel first, acyclic, with the right length |
| UpdateStreams.UpdateStream.Iterate | packages/simulation-core/src/movici_simulation_core/postprocessing/results.py:344-347 | iteration ends and yields exactly the inserted updates, in order |
| UpdateStreams.SplicedContents | packages/simulation-core/src/movici_simulation_core/postprocessing/results.py:361-372 | the contents of a spliced list are the old contents with the update in its place |
| Timelines.UndoRestores | packages/simulation-core/src/movici_simulation_core/postprocessing/results.py:293-326 | where the reverse of an update can be computed, applying both restores every cell exactly when each new entity of the update reads an undefined last row of a shared attribute |
| Timelines.KnownIsUndone | packages/simulation-core/src/movici_simulation_core/postprocessing/results.py:293-326 | for known entities, and for uniform attributes that are all new to the group, the reverse can be computed and undoing restores everything, undefined cells and newly registered attributes included |
| Timelines.NewGroupIsSliceable | packages/simulation-core/src/movici_simulation_core/postprocessing/results.py:298-309 | for a new group the reverse of an update can be computed exactly when the update has no entities or all of its attributes are uniform |
| Timelines.NewCsrAttributeRaises | packages/simulation-core/src/movici_simulation_core/postprocessing/results.py:298-309 | it raises for CSR data of a new group, and for a CSR attribute that a known group gets together with a new entity |
| Timelines.SharedAttributeSlices | packages/simulation-core/src/movici_simulation_core/postprocessing/results.py:298-309 | an attribute that the group has can be sliced at known entities, at an unknown one if it is uniform or its last row is empty, and at none if the group is empty |
| Timelines.NewEntityIsNotUndone | packages/simulation-core/src/movici_simulation_core/postprocessing/results.py:225-239 | an update with a new entity in a known group is not undone |
| Timelines.ReverseConnects | packages/simulation-core/src/movici_simulation_core/postprocessing/results.py:293-326 | where the reverse can be computed and is right, it leads back from every state with the same values |
| Timelines.ReplayByGroup | packages/simulation-core/src/movici_simulation_core/postprocessing/results.py:210-223 | replaying all updates group by group is replaying them together |
| UpdateOrder.SortUpdates | packages/simulation-core/src/movici_simulation_core/postprocessing/results.py:171-176 | the updates are sorted, none lost and none added |
| UpdateOrder.SortedInTime | packages/simulation-core/src/movici_simulation_core/postprocessing/results.py:171-176 | an update comes before another one exactly in the order of their timestamps, and of their iterations within one timestamp |
| UpdateOrder.SortIsStable | packages/simulation-core/src/movici_simulation_core/postprocessing/results.py:171-176 | updates of the same timestamp and iteration keep their order |
| UpdateOrder.MergedTimestampsIncrease | packages/simulation-core/src/movici_simulation_core/postprocessing/results.py:196-208 | after merging at equal timestamps the timestamps strictly increase |
| UpdateOrder.MergedReplay | packages/simulation-core/src/movici_simulation_core/postprocessing/results.py:196-208 | at any time, replaying the merged updates is replaying the original ones |
| UpdateOrder.SortedReplay | packages/simulation-core/src/movici_simulation_core/postprocessing/results.py:171-208 | after replaying the sorted updates up to a time a row is the one of the latest update that defines it, by timestamp, iteration and place in the list, or the initial one if none does |
| TimeProgression.TimeProgressingState.AddInitData | packages/simulation-core/src/movici_simulation_core/postprocessing/results.py:167-169 | initial data start the timeline at -1 |
| TimeProgression.TimeProgressingState.ApplyNext | packages/simulation-core/src/movici_simulation_core/postprocessing/results.py:249-258 | the next update of the stream is applied and the cursor follows |
| TimeProgression.TimeProgressingState.Apply | packages/simulation-core/src/movici_simulation_core/postprocessing/results.py:318-319 | applying leads to the next state of the group and touches no other group |
| TimeProgression.TimeProgressingState.Revert | packages/simulation-core/src/movici_simulation_core/postprocessing/results.py:321-326 | reverting leads back; the sentinel has no reverse update and raises |
| TimeProgression.TimeProgressingState.RevertCurrent | packages/simulation-core/src/movici_simulation_core/postprocessing/results.py:259-269 | the update at the cursor is reverted and the cursor moves back |
| TimeProgression.TimeProgressingState.MoveStreamForward | packages/simulation-core/src/movici_simulation_core/postprocessing/results.py:249-258 | the forward pass stops at the last update up to the time, or one too far when there was none to apply |
| TimeProgression.TimeProgressingState.MoveStreamBackward | packages/simulation-core/src/movici_simulation_core/postprocessing/results.py:259-269 | the backward pass stops at the last update up to the time; it raises before time -1 |
| TimeProgression.TimeProgressingState.MoveUpdatesTo | packages/simulation-core/src/movici_simulation_core/postprocessing/results.py:241-247 | both passes together leave exactly the updates up to the time applied, the overshoot included |
| TimeProgression.TimeProgressingState.MoveGroupTo | packages/simulation-core/src/movici_simulation_core/postprocessing/results.py:177-180 | one group is moved, all others stay valid |
| TimeProgression.TimeProgressingState.MoveTo | packages/simulation-core/src/movici_simulation_core/postprocessing/results.py:177-180 | any move to a time of at least -1, from wherever the cursors are, leaves every entity group equal to replaying the updates up to that time on the initial data |
| TimeProgression.TimeProgressingState.EnsureStream | packages/simulation-core/src/movici_simulation_core/postprocessing/results.py:218-218 | each group has its own stream, created when it is first needed |
| TimeProgression.TimeProgressingState.AddNode | packages/simulation-core/src/movici_simulation_core/postprocessing/results.py:222-223 | the node is inserted and applied |
| TimeProgression.TimeProgressingState.CreateNode | packages/simulation-core/src/movici_simulation_core/postprocessing/results.py:225-239 | a fresh node with its reverse is inserted; the streams of other groups stay as they are |
| TimeProgression.TimeProgressingState.AppendToGroup | packages/simulation-core/src/movici_simulation_core/postprocessing/results.py:216-223 | the part of an update for one group is added to its stream and applied, or raises exactly when its reverse cannot be computed |
| TimeProgression.TimeProgressingState.AddParts | packages/simulation-core/src/movici_simulation_core/postprocessing/results.py:216-223 | all parts of an update are added; it raises exactly when the reverse of one of them cannot be computed |
| TimeProgression.TimeProgressingState.AddUpdateToTimeline | packages/simulation-core/src/movici_simulation_core/postprocessing/results.py:210-223 | an update is added exactly when its timestamp is later than all before it and the reverses of all its parts can be computed; the state then holds it too |
| TimeProgression.TimeProgressingState.AddUpdatesToTimeline | packages/simulation-core/src/movici_simulation_core/postprocessing/results.py:171-176 | the updates are added in order of time, those with one timestamp merged; it raises exactly when the first is too early or, replaying them in turn, one of them has a reverse that cannot be computed |
| ResultDatasets.ResultDataset.SliceTimestamp | packages/simulation-core/src/movici_simulation_core/postprocessing/results.py:400-404 | slicing at a time gives the initial data with all updates up to that time received in order, whatever was looked up before: every cell holds the row of the latest update that defines it, by timestamp, iteration and place in the list, or the initial one |
| ResultDatasets.Open | packages/simulation-core/src/movici_simulation_core/postprocessing/results.py:97-117 | a dataset is opened exactly when no update lies before time 0 and, replaying them in turn, the reverses of all merged updates can be computed |
| PublishSubscribe.ActsKeepBase | packages/simulation-core/src/movici_simulation_core/core/attribute.py:303-339 | whatever a publisher reads, writes, asks for and receives within a cycle, its rows at the last reset, kinds and comparisons do not move |
| PublishSubscribe.UniformFlagged | packages/simulation-core/src/movici_simulation_core/core/attribute.py:303-372 | at the end of a cycle a row of a uniform attribute is flagged exactly when it is far from the one at its beginning, or defined if the group grew before the attribute was touched |
| PublishSubscribe.FlagAfterAll | packages/simulation-core/src/movici_simulation_core/core/attribute.py:412-486 | a row of a CSR attribute is flagged exactly when it was before or some single action moved it further than is tolerated |
| PublishSubscribe.DeliveredRow | packages/simulation-core/src/movici_simulation_core/core/state.py:228-254 | a changed row arrives at the subscriber unless it is undefined; every other row is left as it was |
| PublishSubscribe.CycleRow | packages/simulation-core/src/movici_simulation_core/base_models/tracked_model.py:122-149 | one cell over a whole cycle, for every kind of attribute and comparison: the subscriber holds the publisher's row if that was flagged and defined, and what it held before otherwise |
| PublishSubscribe.UniformCycle | packages/simulation-core/src/movici_simulation_core/base_models/tracked_model.py:122-149 | for any comparison of a uniform attribute the subscriber holds the publisher's defined row exactly when it is the one of the last reset, far from it, or the group grew before the attribute was touched; it holds a close one anyhow |
| PublishSubscribe.CsrCycle | packages/simulation-core/src/movici_simulation_core/base_models/tracked_model.py:122-149 | for any comparison of a CSR attribute the subscriber holds the publisher's defined row exactly when it is the one of the last reset or some single action moved it far, and a close one exactly when it is close to that of the last reset or some single action moved it far |
| PublishSubscribe.OneMoveIsEnough | packages/simulation-core/src/movici_simulation_core/core/attribute.py:412-425 | floats in CSR form that move at most once within a cycle are flagged exactly when they end up far from where they were |
| PublishSubscribe.CloseAfterOneMove | packages/simulation-core/src/movici_simulation_core/base_models/tracked_model.py:122-149 | so after such a cycle the subscriber's row is within the tolerance at the publisher's row of that one, wherever it is defined |
| PublishSubscribe.IntegersAreFaithful | packages/simulation-core/src/movici_simulation_core/core/arrays.py:260-290 | integers that are written from a matrix leave no change unnoticed when the tolerance is below one at every entry |
| PublishSubscribe.ExactCycle | packages/simulation-core/src/movici_simulation_core/base_models/tracked_model.py:122-149 | for an exactly compared attribute of either kind the subscriber holds the publisher's row wherever that is defined, whatever the other attributes of the group are |
| PublishSubscribe.CycleKeepsAgreement | packages/simulation-core/src/movici_simulation_core/base_models/tracked_model.py:122-149 | agreement on an exactly compared attribute survives a cycle exactly when no row is undefined now that the subscriber holds a value for |
| PublishSubscribe.AgreeAfterEveryCycle | packages/simulation-core/src/movici_simulation_core/base_models/tracked_model.py:122-149 | after any number of cycles the subscriber holds the publisher's rows of an exactly compared attribute wherever they are defined, and everywhere as long as the publisher unsets none |
| PublishSubscribe.HoldsLastSent | packages/simulation-core/src/movici_simulation_core/base_models/tracked_model.py:122-149 | after any number of cycles and for any comparison the subscriber holds the publisher's row at the end of the last cycle that sent it, so that the two are close exactly when the present row is close to that one |
| PublishSubscribe.SentIfMoved | packages/simulation-core/src/movici_simulation_core/core/attribute.py:303-372 | the cycles that send a row of a uniform attribute are those that end with a defined row far from that of the cycle before, or in which the group grew before the attribute was touched |
| PublishSubscribe.SentIfJumped | packages/simulation-core/src/movici_simulation_core/core/attribute.py:412-486 | the cycles that send a row of a CSR attribute are those that end with a defined row and have an action that moved it far |
| PublishSubscribe.FloatsDriftApart | packages/simulation-core/src/movici_simulation_core/core/attribute.py:357-372 | so that a float can drift away from the subscriber: steps of the absolute tolerance are never sent, over any number of cycles |
| TrackedStates.EntityGroupState.ProcessNewIds | packages/simulation-core/src/movici_simulation_core/core/state.py:359-364 | new ids are added and every attribute gets room for them, and data if there are entities |
| TrackedStates.EntityGroupState.ApplyUpdate | packages/simulation-core/src/movici_simulation_core/core/state.py:366-377 | every attribute of the update that is known, or tracked though unknown, is written, in whatever order, and has data then |
| TrackedStates.EntityGroupState.ReceiveUpdate | packages/simulation-core/src/movici_simulation_core/core/state.py:339-364 | a group receives an update, or refuses it without ids, or refuses initial data when it has entities; initial data do not count as changes |
| TrackedStates.FilledMeans | packages/simulation-core/src/movici_simulation_core/core/state.py:352-377 | which attributes have data after an update: all of them if there are entities or the data are initial, and otherwise those that were written |
| TrackedStates.EntityGroupState.AllChangedMask | packages/simulation-core/src/movici_simulation_core/core/state.py:410-420 | or-ing the flags of the attributes gives the mask of changed entities; it raises exactly when a flagged attribute has no data |
| TrackedStates.EntityGroupState.ChangedData | packages/simulation-core/src/movici_simulation_core/core/state.py:396-401 | the data of exactly the flagged attributes with changes |
| TrackedStates.EntityGroupState.GenerateUpdate | packages/simulation-core/src/movici_simulation_core/core/state.py:388-402 | the update of a group, or none without changes; it raises exactly when a flagged attribute has no data |
| TrackedStates.EntityGroupState.ResetAttributes | packages/simulation-core/src/movici_simulation_core/core/state.py:430-434 | exactly the attributes that have one of the flags are reset, or all of them without flags |
| TrackedStates.TrackedState.RegisterEntityGroup | packages/simulation-core/src/movici_simulation_core/core/state.py:92-115 | an unknown group is registered empty |
| TrackedStates.TrackedState.ReceiveUpdate | packages/simulation-core/src/movici_simulation_core/core/state.py:237-254 | all groups of an update that are reached are received; it raises exactly when one of them cannot be |
| TrackedStates.TrackedState.GenerateUpdate | packages/simulation-core/src/movici_simulation_core/core/state.py:228-235 | the updates of all groups that have one; it raises exactly when a flagged attribute of some group has no data |
| TrackedStates.TrackedState.ResetTrackedChanges | packages/simulation-core/src/movici_simulation_core/core/state.py:205-208 | in all groups the attributes with the flag are reset and all others stay as they are; flags but SUBSCRIBE or PUBLISH raise |
| TrackedStates.AppliedIsReceived | packages/simulation-core/src/movici_simulation_core/core/state.py:339-377 | making room first and writing attribute by attribute is receiving the update |
| TrackedStates.ReceiveOneMore | packages/simulation-core/src/movici_simulation_core/core/state.py:237-254 | groups can be received one by one in any order |
| StateExchange.ReceiveStatesValues | packages/simulation-core/src/movici_simulation_core/core/state.py:237-254 | receiving into a state with change tracking gives the values of receiving into plain values |
| StateExchange.EveryGroupIsDelivered | packages/simulation-core/src/movici_simulation_core/core/state.py:228-254 | what a state generates reaches each group of a subscriber as the protocol says |
| StateExchange.InitialDataAgree | packages/simulation-core/src/movici_simulation_core/core/state.py:352-357 | states that start from the same initial data start settled and in agreement, with nothing to publish |
| StateCycles.GroupCycle | packages/simulation-core/src/movici_simulation_core/base_models/tracked_model.py:122-149 | a cycle between whole states is a cycle of the protocol in each group that they share and leaves the subscriber's other groups alone |
| StateCycles.GroupRun | packages/simulation-core/src/movici_simulation_core/core/state.py:228-254 | a run of any number of cycles between whole states is a run of the protocol in each group that they share |
| StateCycles.StatesAgreeAfterEveryCycle | packages/simulation-core/src/movici_simulation_core/core/state.py:228-254 | after any number of cycles between whole states the subscriber holds the publisher's rows of every exactly compared attribute of every group that they share, wherever these are defined, and everywhere as long as the publisher unsets none |
| StateExchange.FilterRestricts | packages/simulation-core/src/movici_simulation_core/core/state.py:210-226 | filtering raw data by the mask of a state leaves exactly the groups and attributes that the state flags, with their ids |
| StateExchange.FilterLeaves | packages/simulation-core/src/movici_simulation_core/core/state.py:210-226 | group by group and attribute by attribute: what is left is there in the data and flagged in the state, as it was |
| StateExchange.ParseOfRawGroup | packages/simulation-core/src/movici_simulation_core/core/state.py:237-254 | the part of an update for a group survives being written as a dictionary |
| StateExchange.FilteringLosesNothing | packages/simulation-core/src/movici_simulation_core/core/state.py:210-254 | receiving an update filtered by the own mask of subscriptions leaves every subscribed attribute and its index as receiving the whole update does |
| DataMask.FilterKeepsAllowed | packages/simulation-core/src/movici_simulation_core/utils/data_mask.py:34-48 | filtering by a valid mask keeps exactly what lies on paths the mask allows, ids included |
| DataMask.OverlapMeansCommonPath | packages/simulation-core/src/movici_simulation_core/utils/data_mask.py:56-74 | valid masks overlap exactly when there is a path that both list |
| DataMask.DeliveryMeansCommonAttribute | packages/simulation-core/src/movici_simulation_core/utils/data_mask.py:34-74 | some data shaped by the publisher's mask keep an attribute other than the id under the subscriber's mask exactly when both list a path that does not end in the id |
| DataMask.SpuriousOverlap | packages/simulation-core/src/movici_simulation_core/utils/data_mask.py:34-74 | masks overlap although nothing can come of it exactly when they have common paths and all of these end in the id |
| DataMask.OverlapMeansDelivery | packages/simulation-core/src/movici_simulation_core/utils/data_mask.py:56-74 | for masks that do not mention the id, overlapping and delivering are the same |
| DataMask.SharedIdOverlaps | packages/simulation-core/src/movici_simulation_core/utils/data_mask.py:56-74 | such masks exist: two that share nothing but the id |
| DataMask.FilterAgain | packages/simulation-core/src/movici_simulation_core/utils/data_mask.py:51-53 | adding the id to the lists of a mask in place does not show in later filtering |
| DataMask.ListAfterFilter | packages/simulation-core/src/movici_simulation_core/utils/data_mask.py:34-53 | filtering adds the id to exactly the lists that the data reach |
| DataMask.OverlapAgain | packages/simulation-core/src/movici_simulation_core/utils/data_mask.py:51-74 | nor in the overlap with a mask that does not list the id |
| ModelAdapter.LifecycleMeans | packages/simulation-core/src/movici_simulation_core/base_models/tracked_model.py:57-149 | over any run a model is initialized successfully at most once and not tried again after; it is updated, and a time after 0 accepted, only after that and after its required data were there |
| ModelAdapter.TrackedModelAdapter.TryInitialize | packages/simulation-core/src/movici_simulation_core/base_models/tracked_model.py:103-109 | the model is initialized when it is not yet and its data are there; it may turn out not ready |
| ModelAdapter.TrackedModelAdapter.ProcessInput | packages/simulation-core/src/movici_simulation_core/base_models/tracked_model.py:111-120 | data are received; the model calculates on them and on a major update, not on an empty one |
| ModelAdapter.TrackedModelAdapter.TryCalculate | packages/simulation-core/src/movici_simulation_core/base_models/tracked_model.py:122-149 | a model that is not initialized is initialized if its data are there, and nothing more happens if it is not initialized then; a model whose required data are there, or were, is updated, and its wish returned; in any case changes are published and attributes reset as it wants, but nothing subscribed without an update; the log gains exactly these events; without anything to calculate nothing changes and the last wish is repeated |
| ModelAdapter.InputsInTurn | packages/simulation-core/src/movici_simulation_core/base_models/tracked_model.py:73-76 | inputs are received one after the other, and only those with data |
| ModelAdapter.InitialDataInTurn | packages/simulation-core/src/movici_simulation_core/base_models/tracked_model.py:90-101 | initial data are received one after the other |
| ModelAdapter.TrackedModelAdapter.OnUpdate | packages/simulation-core/src/movici_simulation_core/base_models/tracked_model.py:68-71 | an empty cascading update changes nothing and returns the last next time; any other is received and calculated on |
| ModelAdapter.TrackedModelAdapter.OnUpdateSeries | packages/simulation-core/src/movici_simulation_core/base_models/tracked_model.py:73-76 | all updates of a series are received before the model calculates, once, unless all are empty |
| ModelAdapter.TrackedModelAdapter.OnNewTime | packages/simulation-core/src/movici_simulation_core/base_models/tracked_model.py:57-66 | a time after 0 is accepted exactly when the model is initialized and ready |
| ModelAdapter.TrackedModelAdapter.Initialize | packages/simulation-core/src/movici_simulation_core/base_models/tracked_model.py:44-55 | initial data are received in turn, then the model is initialized if it can be |
| ModelAdapter.TrackedModelAdapter.Close | packages/simulation-core/src/movici_simulation_core/base_models/tracked_model.py:78-88 | a regular end is accepted exactly when the model is initialized and ready |
| ModelAdapter.TrackedModelAdapter.Run | packages/simulation-core/src/movici_simulation_core/base_models/tracked_model.py:57-88 | every run of messages keeps the life cycle |
| ModelRuns.MessageIsCycle | packages/simulation-core/src/movici_simulation_core/base_models/tracked_model.py:122-149 | a message to a running model that has its published attributes reset, alone or with others, is one cycle of the protocol: it publishes what its inputs and writes changed and resets the published attributes; attributes that are only subscribed are reset if the model has them reset, and no others are |
| ModelRuns.SeriesIsMerged | packages/simulation-core/src/movici_simulation_core/base_models/tracked_model.py:73-76 | receiving a series of updates leaves the values of receiving their merged update |
| DataFormat.SubstituteUndefined | packages/simulation-core/src/movici_simulation_core/core/data_format.py:207-211 | every None, and every list with a None inside, is replaced by the undefined value, in the list itself |
| DataFormat.NullInside | packages/simulation-core/src/movici_simulation_core/core/data_format.py:226-231 | what counts as undefined is exactly what has a None somewhere inside, however deep |
| DataFormat.CreateArray | packages/simulation-core/src/movici_simulation_core/core/data_format.py:164-204 | a list becomes an array exactly when each element is a scalar or counts as undefined |
| DataFormat.UniformRoundTrip | packages/simulation-core/src/movici_simulation_core/core/data_format.py:146-147 | uniform data come back as they were exactly when the list holds None and defined scalars only |
| DataFormat.UniformReload | packages/simulation-core/src/movici_simulation_core/core/data_format.py:266-271 | a dumped array loads as it was |
| DataFormat.ParseCsrList | packages/simulation-core/src/movici_simulation_core/core/data_format.py:150-161 | lines are flattened into cells and row pointers with exactly their rows, a text into its characters; it fails exactly when a line is another scalar or an element fits no array |
| DataFormat.DumpTrackedCsrArray | packages/simulation-core/src/movici_simulation_core/core/data_format.py:255-263 | a row with an undefined cell is dumped as None, any other as the list of its cells |
| DataFormat.CsrRoundTrip | packages/simulation-core/src/movici_simulation_core/core/data_format.py:150-263 | nested lists come back as they were exactly when no None hides inside a line; empty lines and None lines survive |
| DataFormat.CsrReload | packages/simulation-core/src/movici_simulation_core/core/data_format.py:150-263 | dumped CSR data load with the same cells and row pointers exactly when undefined cells only stand alone |
| JsonPaths.JsonPath | packages/simulation-core/src/movici_simulation_core/validate.py:302-312 | the text of a path is the dollar sign and its steps |
| JsonPaths.ParseJsonPath | packages/simulation-core/src/movici_simulation_core/validate.py:314-332 | the parser ends, because each round takes at least one character, and does what the three patterns say |
| JsonPaths.PathRoundTrip | packages/simulation-core/src/movici_simulation_core/validate.py:302-332 | a path survives being written and parsed exactly when its keys are identifiers and its positions are not negative |
| JsonPaths.ParsedExactly | packages/simulation-core/src/movici_simulation_core/validate.py:314-332 | a text is parsed as a path exactly when it is a dollar sign and pieces that spell the steps: any character and a name that goes on as long as it can, or digits in brackets; one final line break is ignored |
| ConfigRefs.StrippedConfig | packages/data-core/src/movici_data_core/database/repository/scenario.py:285-292 | name and type are removed and every reference is set to None |
| ConfigRefs.PopulatedConfig | packages/data-core/src/movici_data_core/domain_model.py:309-314 | every reference sets its value |
| ConfigRefs.StripAndPopulate | packages/data-core/src/movici_data_core/domain_model.py:309-314 | stripping and populating gives the configuration back, but for its name and type, exactly when the references hold the values at their paths |
| ConfigRefs.RowsRoundTrip | packages/simulation-core/src/movici_simulation_core/validate.py:272-287 | references come back from their path texts exactly when all paths can be written as text |
| ConfigRefs.StoreAndLoad | packages/data-core/src/movici_data_core/database/repository/scenario.py:285-292 | a configuration with references to strings is loaded from the database as it was stored, but for its name and type |
| ConfigRefs.SetThenLookup | packages/simulation-core/src/movici_simulation_core/validate.py:295-300 | after an assignment the value is at its path and all paths apart from it are unchanged |
| ConfigRefs.ChildIsThere | packages/simulation-core/src/movici_simulation_core/validate.py:295-300 | a step leads to a key that is there or to a position, of which a negative one counts from the end |
| ConfigRefs.SetSucceeds | packages/simulation-core/src/movici_simulation_core/validate.py:295-300 | an assignment succeeds exactly when the path leads to an object, or to a list that has the position, and then the value is at the path |
| ConfigRefs.SetsCommute | packages/simulation-core/src/movici_simulation_core/validate.py:295-300 | assignments at paths that part somewhere commute |
| Aggregation.CalculateWeights | packages/simulation-core/src/movici_simulation_core/models/area_aggregation/model.py:175-184 | each source weighs one over the number of times it occurs in the mapping |
| Aggregation.WeightsAddUp | packages/simulation-core/src/movici_simulation_core/models/area_aggregation/model.py:175-184 | all occurrences of a source together weigh one |
| Aggregation.AttributeAggregator.Initialize | packages/simulation-core/src/movici_simulation_core/models/area_aggregation/aggregators.py:97-108 | the first calculation starts from a previous source of zero and, for an integral, from a target of zero |
| Aggregation.AttributeAggregator.Calculate | packages/simulation-core/src/movici_simulation_core/models/area_aggregation/aggregators.py:110-132 | every area gets the aggregate of its finite sources; the present source is kept for the next time; without a mapping it raises |
| Aggregation.SpecialIsLeftOut | packages/simulation-core/src/movici_simulation_core/models/area_aggregation/aggregators.py:116-121 | a source of an area is counted exactly when it is a number and does not compare to the special value as the same |
| Aggregation.SpecialCountsAsUndefined | packages/simulation-core/src/movici_simulation_core/models/area_aggregation/aggregators.py:116-131 | the areas get the same values when all special values of the source are undefined instead |
| Aggregation.SumConserves | packages/simulation-core/src/movici_simulation_core/models/area_aggregation/aggregators.py:45-47 | the sums of all areas add up to the total of the sources that are numbers, not special and in some area |
| Aggregation.ConservedWithoutRepeats | packages/simulation-core/src/movici_simulation_core/models/area_aggregation/model.py:175-184 | this holds for all sources exactly when no area lists a source twice |
| Aggregation.IntegralConserves | packages/simulation-core/src/movici_simulation_core/models/area_aggregation/aggregators.py:50-53 | the integrals of all areas grow together by the time step over the scale times the previous total |
| Aggregation.IntegralOverRun | packages/simulation-core/src/movici_simulation_core/models/area_aggregation/aggregators.py:110-132 | over any run with finite sources the integrals of all areas add up to the integral of the total |
| Aggregation.AreaSkipsStep | packages/simulation-core/src/movici_simulation_core/models/area_aggregation/aggregators.py:118-131 | an area takes no step at all when the previous value of one of its finite sources is undefined |
| Aggregation.IntegralGrowth | packages/simulation-core/src/movici_simulation_core/models/area_aggregation/aggregators.py:110-132 | whatever is undefined, the integrals of all areas grow together by the time step over the scale times the previous total that the areas which take a step have a share in |
| Aggregation.SpecialTotalIsIntegrated | packages/simulation-core/src/movici_simulation_core/models/area_aggregation/aggregators.py:110-132 | whatever the special value and its comparison, the integral of an area is the one that leaves out previous special values exactly when no time passed or the weighted total of these is zero |
| Aggregation.SpecialIsIntegrated | packages/simulation-core/src/movici_simulation_core/models/area_aggregation/aggregators.py:110-132 | when what counts as special has one sign, that is exactly when no time passed, the special value is zero, or no source of the area is finite now and was special before |
| Aggregation.SpecialValueIsIntegrated | packages/simulation-core/src/movici_simulation_core/models/area_aggregation/aggregators.py:118-132 | it does occur that a special value is integrated: when its source is finite one step later |
| PointGenerators.PointGenerator.AddPoints | packages/transport-assignment/src/movici_transport_assignment_model/integrations/point_generator.py:26-31 | all given points are taken |
| PointGenerators.PointGenerator.GenerateAndAdd | packages/transport-assignment/src/movici_transport_assignment_model/integrations/point_generator.py:33-42 | the search ends for every finite set of points and finds the first free point on the diagonal; an array of the caller is moved there |
| PointGenerators.PointGenerator.GenerateFrom | packages/transport-assignment/src/movici_transport_assignment_model/integrations/point_generator.py:33-42 | a list is copied first and stays as it was |
| PointGenerators.PointGenerator.GenerateAll | packages/transport-assignment/src/movici_transport_assignment_model/integrations/point_generator.py:33-42 | over any run all generated points are distinct from each other and from all earlier ones, and each lies a whole number of increments from its reference |
| PointGenerators.ZeroIncrementStays | packages/transport-assignment/src/movici_transport_assignment_model/integrations/point_generator.py:38-40 | with an increment of zero a taken point is never left |
| PointGenerators.ShiftIsUnique | packages/transport-assignment/src/movici_transport_assignment_model/integrations/point_generator.py:38-40 | the number of increments is determined by the point |
| EnumConversions.EnumConversion.ConvertEnums | packages/simulation-core/src/movici_simulation_core/preprocessing/dataset_creator.py:441-460 | codes are checked against the list as it is, strings get a position and are added if new, lists are converted in order, other types raise |
| EnumConversions.EnumConversion.ConvertItems | packages/simulation-core/src/movici_simulation_core/preprocessing/dataset_creator.py:444-445 | the items of a list are converted one after the other, with one table |
| EnumConversions.EnumConversion.Call | packages/simulation-core/src/movici_simulation_core/preprocessing/dataset_creator.py:415-420 | all attributes are converted; the first error ends it |
| EnumConversions.ConversionSucceeds | packages/simulation-core/src/movici_simulation_core/preprocessing/dataset_creator.py:415-485 | a conversion succeeds exactly when every leaf, in their order, is a string or an integer below the length that the list of its enum has by then, and each list has gained its new strings then, each once and in order |
| EnumConversions.EnsureKeepsPositions | packages/simulation-core/src/movici_simulation_core/preprocessing/dataset_creator.py:468-479 | a string gets a position that holds it, and the list only grows at its end |
| EnumConversions.DecodableAtTheEnd | packages/simulation-core/src/movici_simulation_core/preprocessing/dataset_creator.py:415-485 | at the end the list of each enum has the original string at every stored code, for leaves of arbitrarily nested lists; codes are inside the list unless they are negative |
| EnumConversions.DecodableLists | packages/simulation-core/src/movici_simulation_core/preprocessing/dataset_creator.py:463-466 | the strings of an initial list are decoded to themselves, by every list that grows from it, exactly when none occurs twice |
| InpText.WordsOfRow | packages/urban-drainage/src/movici_urban_drainage_model/inp_writer.py:81-84 | a row has the words of its cells, whatever they are |
| InpText.UpperHasNoSmallLetters | packages/urban-drainage/src/movici_urban_drainage_model/swmm_source.py:89-91 | upper case replaces every small ASCII letter by its capital and changes nothing else |
| InpText.RowLineRoundTrip | packages/urban-drainage/src/movici_urban_drainage_model/swmm_source.py:81-118 | a line is read back as a row of its cells exactly when there are any, each is free of blanks and semicolons, and they do not stand in brackets |
| InpText.LinesOfTerminated | packages/urban-drainage/src/movici_urban_drainage_model/inp_writer.py:105-105 | lines that are joined by line breaks are split into the same lines |
| InpFiles.InpBuilder.Add | packages/urban-drainage/src/movici_urban_drainage_model/inp_writer.py:81-84 | a row is appended to its section, which is created when it is new |
| InpFiles.InpBuilder.Render | packages/urban-drainage/src/movici_urban_drainage_model/inp_writer.py:89-105 | sections are rendered in the conventional order, others after them in the order in which they were added |
| InpFiles.Parse | packages/urban-drainage/src/movici_urban_drainage_model/swmm_source.py:81-118 | lines are read one by one, with the section that they belong to |
| InpFiles.PointsOfRow | packages/urban-drainage/src/movici_urban_drainage_model/swmm_source.py:114-116 | every two tokens of a row of a curve are one of its points, and it is refused exactly when one of them is no number |
| InpFiles.RowsStay | packages/urban-drainage/src/movici_urban_drainage_model/swmm_source.py:81-118 | nothing that was read is lost, however often a file returns to a section |
| InpFiles.ParseOfRendered | packages/urban-drainage/src/movici_urban_drainage_model/inp_writer.py:89-105 | parsing rendered text gives what the sections hold, token row by token row |
| InpRoundTrip.SectionsRoundTrip | packages/urban-drainage/src/movici_urban_drainage_model/swmm_source.py:81-118 | a rendered file parses exactly when all its numbers can be read, and every ordinary section then has the token rows that were added to it |
| InpRoundTrip.CurveRoundTrip | packages/urban-drainage/src/movici_urban_drainage_model/simulation_wrapper.py:914-922 | a curve is read back with its kind and all its points, under its name |
| InpRoundTrip.CurvesOfRendered | packages/urban-drainage/src/movici_urban_drainage_model/swmm_source.py:108-116 | the curves of a parsed file are those that its rows add up to |
| InpRoundTrip.GeometryOfRendered | packages/urban-drainage/src/movici_urban_drainage_model/swmm_source.py:93-107 | a parsed file has the last point under a name for coordinates and symbols, all points in their order for vertices and polygons, and the last row for cross sections |
| InpRecords.OutfallRoundTrip | packages/urban-drainage/src/movici_urban_drainage_model/simulation_wrapper.py:305-341 | the columns of an outfall are read back, the gate in its place for each type |
| InpRecords.StorageRoundTrip | packages/urban-drainage/src/movici_urban_drainage_model/simulation_wrapper.py:352-437 | the columns of a storage are read back for every shape; the shape is the one it has, and without one TABULAR with a curve and FUNCTIONAL without |
| InpRecords.StorageIsAccepted | packages/urban-drainage/src/movici_urban_drainage_model/simulation_wrapper.py:371-437 | a storage is accepted exactly when its shape is known and it has what the shape needs: a curve, a coefficient or constant that is not zero, or parameters, with a positive height for a parabolic one |
| InpRecords.ElementIsAccepted | packages/urban-drainage/src/movici_urban_drainage_model/simulation_wrapper.py:305-647 | an outfall is accepted with a known type, a pump with a curve if it has the type of that, and an outlet with a tabular rating if it has a curve |
| InpRecords.CurvesToWrite | packages/urban-drainage/src/movici_urban_drainage_model/simulation_wrapper.py:395-647 | which curve is written for an element, and with which kind |
| InpRecords.OutfallColumns | packages/urban-drainage/src/movici_urban_drainage_model/swmm_source.py:166-181 | the stage and the gate of an outfall are read from the columns that its type puts them in, whoever wrote the row |
| InpRecords.MissingParameters | packages/urban-drainage/src/movici_urban_drainage_model/swmm_source.py:184-212 | numbers of a geometric storage that are missing count as zero |
| InpRecords.MissingColumns | packages/urban-drainage/src/movici_urban_drainage_model/swmm_source.py:32-56 | columns that a row does not have are None, and a pump without the column of its curve is an ideal one |
| InpRecords.PumpRoundTrip | packages/urban-drainage/src/movici_urban_drainage_model/simulation_wrapper.py:496-530 | the columns of a pump are read back, its curve and curve type included |
| InpRecords.PumpTypeSurvives | packages/urban-drainage/src/movici_urban_drainage_model/swmm_source.py:233-252 | the type that is read for a pump is the one it had exactly when it has a curve or is ideal |
| InpRecords.OutletRoundTrip | packages/urban-drainage/src/movici_urban_drainage_model/simulation_wrapper.py:620-647 | the columns of an outlet are read back, with its rating curve or its coefficients |
| InpExport.SimulationWrapper.AddCurve | packages/urban-drainage/src/movici_urban_drainage_model/simulation_wrapper.py:914-922 | a curve gets the next number, its first row has its kind, all rows have a point |
| InpExport.SimulationWrapper.AddElement | packages/urban-drainage/src/movici_urban_drainage_model/simulation_wrapper.py:302-647 | an element is written to its section, with its curve, or refused |
| InpExport.SimulationWrapper.BuildInp | packages/urban-drainage/src/movici_urban_drainage_model/simulation_wrapper.py:1082-1116 | all elements, among options and other rows, and then all curves are written and rendered; the first element that is refused ends it |
| InpExport.CurvesAreRead | packages/urban-drainage/src/movici_urban_drainage_model/simulation_wrapper.py:914-922 | all curves are read back under distinct names |
| InpExport.OrdinaryRowsAreReadable | packages/urban-drainage/src/movici_urban_drainage_model/swmm_source.py:81-118 | in a section of neither points, cross sections nor curves every printable row can be read again, whatever its cells are |
| InpExport.ExportThenImport | packages/urban-drainage/src/movici_urban_drainage_model/simulation_wrapper.py:1082-1116 | a file that was written from any elements and any readable rows of other kinds parses, and the records read from it are those expected of the elements, section by section and in their order; other ordinary sections have their rows |

## Left out

- Orchestrator, model services, sockets and processes: nothing about the global schedule can be read off the modelled files.
- Files, databases, JSON Schema validation and the geometry query: a mapping of sources to areas is a parameter.
- Numpy types: value ranges, text widths and their growth, conversions between types and views are not modelled; `astype` is the identity.
- Floating point: closeness is over the real numbers, without rounding, infinities or underflow; a search for a free point could stall on floats that are too large for the increment.
- Attributes of more than one dimension: a cell is one value.
- Attributes without data: `TrackedStates` knows which attributes were filled and refuses to generate updates of others; elsewhere an attribute that was never filled has no rows, so that initializing twice with no entities does not raise here, and the protocol speaks of publishers that have their data.
- Duplicate ids within one update, and undefined cells inside longer CSR rows: preconditions; `CsrKernels.AllocationExact` says exactly when the latter fit the buffers.
- Mixing uniform and CSR data in one attribute, where the source raises in the middle of an update: a precondition.
- The general section with enums and special values of a state, and entity group declarations.
- New entities in known groups within the timeline, where the reverse can be computed but is wrong, and adding updates after moving back: excluded by preconditions of the timeline, with `Timelines.UndoRestores` saying exactly what goes wrong with the former.
- Comparisons that are not reflexive, and negative tolerances: attributes create their arrays with NaN equal to NaN, and `ChangeTracking.UntouchedFlags` says what is different otherwise.
- TrackedArrays.TrackedCsrArray.UpdateFromMatrix: for a matrix without rows and without columns the reduction over its empty axis is taken to give no flags, as it has no rows; whether it raises is left to numpy.
- TimeProgression.TimeProgressingState.MoveTo: groups are compared by their rows, entity by entity; an attribute that was registered by an update stays registered, undefined, after moving back.
- TimeProgression.TimeProgressingState.AddUpdateToTimeline: when a reverse cannot be computed, which groups of the update have been added before is left open.
- TrackedStates.TrackedState.ReceiveUpdate: when a group cannot be received the groups before it have been; which ones depends on the order and is left open.
- States and timelines hold attribute values; that the objects of `Attributes` do the same to their arrays is proved per attribute, without sharing between states. The cache that is filled when an update is generated is left out of `TrackedStates`.
- The other slicing strategies over the timeline, by attribute and by entity.
- ModelAdapter.TrackedModelAdapter.Run: a model that raises anything but NotReady ends the run and is not modelled; the model itself is a parameter.
- Models that do not have their published attributes reset: the protocol resets them in every cycle.
- DataFormat.CreateArray: the element type of the array, which decides whether a text can be stored beside numbers, is not modelled.
- Configurations are values, not shared dictionaries; converting configurations between versions is left out.
- Minimum, maximum and average of areas would add only easy members.
- EnumConversions.EnumConversion.Call: tables are values in a map, not objects, and the loaders that run before the conversion are left out.
- The aliasing of two names for one array is modelled for generated points only.
- Numbers in `.inp` files: printing and reading is a parameter, and a number takes part only if it survives both.
- Rows of other kinds of drainage elements, options, and the live simulation engine.
- In `.inp` text a carriage return and line feed count as two line breaks, which only adds an empty line; letters beyond ASCII are not folded to upper case.
