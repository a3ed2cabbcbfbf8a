# Verified models of translation tables, flash update and small state machines

This project models parts of the Trusted Firmware test framework for RZ/G in
Dafny and proves what they are for.  `dafny verify dfyconfig.toml` checks all of
it.

## What is modelled

**Translation tables** (`lib/xlat_tables_v2`).  A context has a sorted list of
memory regions and a tree of translation tables with 512 entries.  The list
stands for a translation: every address is mapped by the first listed region
that contains it (`Denotation`).  The tables are compiled from it by a recursive
mapper and changed by additions, removals and attribute changes.  The invariant
of a context (`Context.Good`) says that the linked tables are a tree, that the
tree describes exactly what the list denotes, that free tables are empty, that
the counts of the tables fit the list, and that break-before-make has held for
every descriptor write so far.  Every operation of `XlatContext.XlatCtx` keeps
it, or has the exact condition under which it does not; the walk of the tables
is proved to compute what the list denotes.  Both build variants of the table
pool are modelled: region counts per table, and a bump index.

- `Geometry`, `Tables`, `Walk`: levels and entries, trees of tables as values,
  the walk.
- `Mapping`, `Counts`, `TableState`, `MapLoop`, `UnmapState`, `UnmapLoop`: the
  action chosen for an entry, and the invariants of the two recursions.
- `TableMemory`: the tables in place, with the recursive mapper and unmapper.
- `Regions`, `RegionList`, `MemoryCopy`: the checks, the list as a value, and the
  array that holds it.
- `Denotation`, `Accounting`, `Context`, `XlatContext`: what the list denotes,
  the counts, and the operations on a whole context.
- `TableNeeds`, `TableShortage`: the tables a region needs beyond those linked,
  and where the mapper stops if the pool is too small.  `PoolOrder`: what keeps
  the pool of tables in order, and what does not.
- `RemovalRuns`, `ContextRuns`, `ShortageRuns`: runs of removals, and runs of a
  context from its construction on.
- `Descriptor`, `AttributeChange`, `ContextAttributes`: the bit layout of
  descriptors and the change of attributes; `VaAllocation`: addresses chosen for
  regions.
- `BreakBeforeMake`: the trace of descriptor writes and TLB invalidations
  (section D4.8.2 of the ARMv8-A ARM, issue k).
- `Folding` keeps invariants folded in proofs that only hand them on; `Words` are
  machine words as integers.

**SPI flash and firmware update** (`drivers/renesas`, `plat/renesas/rzg`).
Erasing sets a sector to ones, programming only clears bits.  `FlashContents`
says what any write leaves in the flash, byte by byte; `SpiFlash` and `FlashFile`
are the driver, `FipLayout`, `FirmwareUpdate` and `UpdateImages` the update on top
of it.

**State machines.**  `PstateId` is the power state odometer, `TopologyTree`,
`TopologyLimits` and `Topology` the power domain tree, `Formatting` and
`Snprintf` the formatter, `Spinlock` the lock over an exclusive monitor and the
printing of messages under it.

## What was found

- A dynamic addition that runs out of tables restores the list and the
  translation of every address, but the counts may stay too high.  On a base
  table of level 0 it may free a table that still links another one:
  `TableShortage.Orphaning` says exactly when, and `ShortageRuns.RunOut` is such
  a run.  If dynamic regions use that table, the pool stays in order until the
  last of them is removed: `TableShortage.Burdening` says exactly when,
  `RemovalRuns.SteadyRun` what comes of it, and `ShortageRuns.BurdenTold` is such
  a run.  Linked again at level 3, the old table descriptor passes for a page.
- The table walk takes addresses modulo the span of the base level, so an
  attribute change past the end of the space changes the pages it wraps around
  to and invalidates the wrong addresses.
- On an empty list the address allocator starts at 1, so it works only for
  regions that are a whole number of blocks.
- A flash write erases the sector after its range.  A write that spans several
  blocks and ends inside one loses what was behind it in that block.
- The comment on the formatter lists fewer conversions than the code has; a
  signed conversion keeps the lower 32 bits of its argument, whatever its length
  modifiers, and prints a minus sign in front of the padding.
- The status of a firmware update is that of erasing the header alone.
- With three levels or more the topology never records the first CPU of node 0,
  and a domain is present only if its first CPU is, where the comment speaks of any CPU.

## Model

| member | source | states |
|---|---|---|
| `Geometry.BaseLevelIs` | include/lib/xlat_tables/aarch64/xlat_tables_aarch64.h:88-94 | The initial lookup level is the deepest one at which a single table spans the address space. |
| `Geometry.LaminarRun` | include/lib/xlat_tables/xlat_tables_defs.h:98-110 | A run of entries of one level and an entry of the same or a deeper level are nested or disjoint; the mapper and the unmapper rest on it. |
| `Geometry.IndexOfEntry` | lib/xlat_tables_v2/xlat_tables_core.c:266-271 | Dividing the distance from the first entry by the block size counts entries. |
| `Tables.OneLink` | lib/xlat_tables_v2/xlat_tables_core.c:604-605 | In a tree of linked tables every subtable is linked by exactly one entry. |
| `Tables.Ancestor` | lib/xlat_tables_v2/xlat_tables_core.c:619-626 | A table that meets the range of an entry above it is reached through that entry. |
| `Tables.Exclusive` | lib/xlat_tables_v2/xlat_tables_core.c:433-446 | Two entries that are no tables and whose ranges meet are one and the same entry. |
| `Tables.WriteKeepsTree` | lib/xlat_tables_v2/xlat_tables_core.c:589-593 | Writing a leaf or clearing one keeps the linked tables a tree. |
| `Tables.WriteAgrees` | lib/xlat_tables_v2/xlat_tables_core.c:589-593 | Writing an entry that describes the new translation makes the whole tree describe it, when the two translations differ in the range of the entry only. |
| `Tables.LinkKeepsTree` | lib/xlat_tables_v2/xlat_tables_core.c:595-605 | Linking a free table into an invalid entry keeps the linked tables a tree. |
| `Tables.LinkAgrees` | lib/xlat_tables_v2/xlat_tables_core.c:595-605 | It does not change the translation described. |
| `Tables.UnlinkKeepsTree` | lib/xlat_tables_v2/xlat_tables_core.c:389-396 | Clearing a table entry and dropping every table below it leaves a tree. |
| `Tables.UnlinkAgrees` | lib/xlat_tables_v2/xlat_tables_core.c:389-396 | If none of the addresses was mapped any more, the translation described stays the same. |
| `Walk.WalkAgrees` | lib/xlat_tables_v2/xlat_tables_utils.c:261-323 | The walk below a table finds a leaf exactly for the mapped addresses, and the leaf is the one that describes the address. |
| `Walk.Alias` | lib/xlat_tables_v2/xlat_tables_utils.c:281-286 | The walk does not tell apart addresses that differ by a multiple of the span of the base level. |
| `Walk.FindAgrees` | lib/xlat_tables_v2/xlat_tables_utils.c:261-323 | For any address the walk finds a leaf exactly if the address modulo the span is mapped; a short base table leaves the rest unmapped. |
| `TableMemory.Memory.FindEntry` | lib/xlat_tables_v2/xlat_tables_utils.c:261-323 | The loop over the levels computes that walk; its assertions on descriptor types hold. |
| `Context.Lookup` | lib/xlat_tables_v2/xlat_tables_utils.c:261-323 | After any run of successful operations: the walk finds a leaf exactly if some listed region contains the address (modulo the span). Its output address is the base PA of the first such region plus the distance of the address from the base VA of that region, and its attributes are those of that region as long as none were changed. |
| `Mapping.MapActionSafe` | lib/xlat_tables_v2/xlat_tables_core.c:420-545 | No assertion of the action choice fires for an entry that meets a region which is disjoint from or around every mapped one; a leaf is written exactly where a block or page can describe a covered invalid entry, and every action finds the descriptor it expects. |
| `Mapping.UnmapActionSafe` | lib/xlat_tables_v2/xlat_tables_core.c:279-334 | No assertion of the unmapping choice fires for an entry that meets the region; leaves are cleared only when covered. |
| `Mapping.LeafInside` | lib/xlat_tables_v2/xlat_tables_core.c:448-451 | A leaf that meets a region lies inside it, so it is never partly covered. |
| `Mapping.WriteAdvances` | lib/xlat_tables_v2/xlat_tables_core.c:589-593 | Writing a leaf extends the mapped part of the region to the end of the entry. |
| `Counts.StartEntry` | lib/xlat_tables_v2/xlat_tables_core.c:246-271 | The first entry visited is the one that holds the start of the region, or the first of the table. |
| `MapLoop.LoopNext` | lib/xlat_tables_v2/xlat_tables_core.c:641-649 | A turn of the loop that does not stop leaves everything up to the next entry mapped; leaving the loop at the end of the region or of the table reports the last byte. |
| `MapLoop.LoopStop` | lib/xlat_tables_v2/xlat_tables_core.c:615-617 | A turn that stops hands on what the table below reported: the last byte of the region, or the page-aligned address where a table was missing. |
| `MapLoop.BelowDone` | lib/xlat_tables_v2/xlat_tables_core.c:631-633 | Comparing with the last byte of the entry never confuses a region that ends inside the entry or a failure with an entry handled to its end. |
| `TableMemory.Memory.GetEmpty` | lib/xlat_tables_v2/xlat_tables_core.c:57-64 | Returns the first table that counts no region, or the next unused one in the other build variant, or none. |
| `TableMemory.Memory.MapEntry` | lib/xlat_tables_v2/xlat_tables_core.c:579-639 | One turn of the loop keeps the tree, the counts, the translation up to the entry, and break-before-make. It fails only at an entry that is invalid, that the region meets and that no leaf can describe, with all tables in use; tables it links are needed by the region. |
| `TableMemory.Memory.MapRegion` | lib/xlat_tables_v2/xlat_tables_core.c:553-650 | Maps a region below a table, every address to the base PA plus its distance from the base VA: the result is its last byte in the range of the table exactly if all of it there is mapped; otherwise it is the page-aligned address of an entry that needs a table, below which exactly the region is mapped, all tables are in use, and the counts say which tables were entered. Only tables the region needs are linked. |
| `TableMemory.Memory.UnmapRegion` | lib/xlat_tables_v2/xlat_tables_core.c:340-412 | Unmaps a region below a table: exactly its addresses are gone, tables left with count 0 are dropped, all other counts stay, and every cleared entry is invalidated in the TLBs. |
| `UnmapState.NothingBelow` | lib/xlat_tables_v2/xlat_tables_core.c:389-396 | If the counts are nested, a table whose count reaches 0 has no other linked table below it. |
| `UnmapState.EmptyRow` | lib/xlat_tables_v2/xlat_tables_core.c:389-396 | Then such a table has only invalid entries. |
| `UnmapState.DropReady` | lib/xlat_tables_v2/xlat_tables_core.c:389-396 | Dropping a table keeps the tree and the translation, and with nested counts the pool in order; in any case entries that link a table counting too much stay. |
| `BreakBeforeMake.Break` | lib/xlat_tables_v2/xlat_tables_core.c:372-375 | Clearing an entry and invalidating its address leaves no invalidation outstanding. |
| `BreakBeforeMake.Make` | lib/xlat_tables_v2/xlat_tables_core.c:589-605 | Filling an invalid entry needs no invalidation. |
| `Accounting.GrownAccounted` | lib/xlat_tables_v2/xlat_tables_core.c:67-73 | A successful mapping keeps every count at or above the number of listed regions that meet the table, and exact counts exact. |
| `Accounting.DrainedAccounted` | lib/xlat_tables_v2/xlat_tables_core.c:76-82 | So does a removal. |
| `Accounting.FailedEarly` | lib/xlat_tables_v2/xlat_tables_core.c:1002-1003 | The counts still fit the list after a failure that had mapped nothing, when the code returns without unmapping. |
| `Accounting.RollbackCounts` | lib/xlat_tables_v2/xlat_tables_core.c:1009-1017 | After a failed mapping that has to be taken back, a table counts one region more than the rollback will take off exactly if it starts at the address where the mapping stopped. |
| `Accounting.RollbackNested` | lib/xlat_tables_v2/xlat_tables_core.c:1009-1017 | The counts the rollback finds are nested, that is, it drops no table with one below it that stays counted, exactly if the mapping left no orphan: a table that starts where it stopped, below a new table that starts in front of it. |
| `PoolOrder.ReadyIfNested` | lib/xlat_tables_v2/xlat_tables_core.c:340-412 | Unmapping any region leaves the pool in order exactly if the counts were nested; otherwise, and only then, a free table still links a table that counts a region and is linked nowhere. |
| `PoolOrder.DirectPair` | lib/xlat_tables_v2/xlat_tables_core.c:389-396 | If counts are not nested, some table that will be dropped directly links one that counts too much. |
| `PoolOrder.StaleReused` | lib/xlat_tables_v2/xlat_tables_core.c:443-452 | Linked again at level 3, such a free table makes the mapper take its old table descriptor for a page that is mapped already and leave it, so that the tables are no tree. |
| `PoolOrder.AddedSeats` | lib/xlat_tables_v2/xlat_tables_core.c:985-1040 | A region that has just been added can be removed again without such damage, whatever the counts were. |
| `PoolOrder.GrownBacked` | lib/xlat_tables_v2/xlat_tables_core.c:67-73 | Call counts harmless if no table counts too much below one that does not and that dynamic regions alone keep: after a successful addition they are harmless exactly if they were before. |
| `PoolOrder.BackedNests` | lib/xlat_tables_v2/xlat_tables_core.c:76-82 | With harmless counts, the removal of any dynamic region finds nested counts. |
| `PoolOrder.LooseStays` | lib/xlat_tables_v2/xlat_tables_core.c:76-82 | A removal that leaves the pool in order does not make counts harmless. |
| `TableNeeds.OnlyNeeded` | lib/xlat_tables_v2/xlat_tables_core.c:595-605 | Every table linked while a region was being mapped, successfully or not, is one the region needs: the region meets it, so do the tables above it, and no leaf of a listed region or of the region itself describes its range. |
| `TableNeeds.AllNeeded` | lib/xlat_tables_v2/xlat_tables_core.c:595-605 | A mapping that succeeds has linked exactly the tables the region needs beyond those linked before, so they fit the pool. |
| `TableNeeds.TooFew` | lib/xlat_tables_v2/xlat_tables_core.c:598-602 | If the mapper gets stuck with all tables in use, the region needs more tables than the pool has: mapping fails exactly if the tables do not suffice. |
| `TableShortage.StopsAtLacking` | lib/xlat_tables_v2/xlat_tables_core.c:598-602 | The address where the mapper stops, told from the state before: the needed tables are linked in the order of their addresses, upper ones first, and it stops at the first one for which the pool has no room. |
| `TableShortage.OrphansExactly` | lib/xlat_tables_v2/xlat_tables_core.c:1009-1017 | A failed addition that mapped something leaves an orphan exactly if, in the state before, the base level is 0, the first lacking table is a level 3 table for the first entry of a level 2 table that is not the first of its level 1 table, some of the region lies in front of it, and that level 1 table was not linked. |
| `TableShortage.OrphaningUncounted` | lib/xlat_tables_v2/xlat_tables_core.c:1009-1017 | That the level 1 table was not linked means that it counted nothing: no listed region uses it, and it did not count too much. |
| `TableShortage.NoneBefore` | lib/xlat_tables_v2/xlat_tables_core.c:1002-1003 | The early return, without unmapping, does not happen under that condition, nor under the next one. |
| `TableShortage.BurdensExactly` | lib/xlat_tables_v2/xlat_tables_core.c:1009-1017 | If the counts were harmless and the rollback left the pool in order, they still are exactly unless the first lacking table is like that and the level 1 table around it neither counted too much before nor is used by a static region. |
| `TableShortage.OrphaningBurdens` | lib/xlat_tables_v2/xlat_tables_core.c:1009-1017 | A level 1 table that was not linked before is such a table: no listed region uses it. |
| `Regions.CheckMeaning` | lib/xlat_tables_v2/xlat_tables_core.c:661-694 | The checks on a single region, in wrapping 64-bit arithmetic, accept exactly the non-empty page-aligned regions within the limits whose granularity is a block size. |
| `Regions.RefusedMeaning` | lib/xlat_tables_v2/xlat_tables_core.c:696-751 | The comparison with a listed region refuses exactly the pairs that are neither disjoint in both address spaces nor, for static regions, strictly nested at one offset. |
| `Regions.InsertKeeps` | lib/xlat_tables_v2/xlat_tables_core.c:803-811 | Inserting an accepted region at the place found keeps the list strictly sorted by end and size, and any two of its regions compatible. |
| `Regions.DeleteKeeps` | lib/xlat_tables_v2/xlat_tables_core.c:1112 | So does removing one. |
| `Regions.DeleteInsert` | lib/xlat_tables_v2/xlat_tables_core.c:993-996 | Removing the region just inserted gives the list back. |
| `Regions.HighestInsert` | lib/xlat_tables_v2/xlat_tables_core.c:842-845 | Raising the maxima keeps them the true maxima of the list. |
| `MemoryCopy.MemMove` | lib/libc/memmove.c:9-31 | For every overlap the result is the simultaneous copy; the single unsigned comparison picks a safe direction. |
| `RegionList.RegionArray.AddRegionCheck` | lib/xlat_tables_v2/xlat_tables_core.c:661-754 | Each result code is returned exactly under its condition. |
| `RegionList.RegionArray.FindPlace` | lib/xlat_tables_v2/xlat_tables_core.c:803-811 | The two loops find the number of regions that sort before the new one. |
| `RegionList.RegionArray.InsertAt` | lib/xlat_tables_v2/xlat_tables_core.c:828-840 | Moving the tail and storing the region is the insertion; the end marker survives. |
| `RegionList.RegionArray.AddStatic` | lib/xlat_tables_v2/xlat_tables_core.c:756-846 | A static region joins the list exactly if there is room and it is compatible with all others; otherwise nothing changes. |
| `RegionList.RegionArray.Begin` | lib/xlat_tables_v2/xlat_tables_core.c:934-979 | The checks and the insertion of a dynamic region, with each result code under its exact condition. |
| `RegionList.RegionArray.Abort` | lib/xlat_tables_v2/xlat_tables_core.c:993-996 | Taking the region off again restores the list. |
| `RegionList.RegionArray.FindRegion` | lib/xlat_tables_v2/xlat_tables_core.c:1079-1087 | Finds the region of the given base and size, or tells that there is none. |
| `RegionList.RegionArray.RemoveAt` | lib/xlat_tables_v2/xlat_tables_core.c:1093-1133 | The list loses exactly that region, and the maxima are the true ones again. |
| `Denotation.FirstIsFirst` | lib/xlat_tables_v2/xlat_tables_core.c:553-650 | The first region that contains an address is the listed one of least index that does. |
| `Denotation.FirstIsInnermost` | lib/xlat_tables_v2/xlat_tables_core.c:780-801 | In the list order it is inside every other one that contains the address. |
| `Denotation.OneToOne` | lib/xlat_tables_v2/xlat_tables_core.c:696-751 | The checks make the translation one-to-one: no two addresses of listed regions go to the same output address. |
| `Denotation.MapsNext` | lib/xlat_tables_v2/xlat_tables_core.c:1201-1217 | Mapping one more region without overwriting extends what the list denotes by that region. |
| `Denotation.PrefixApart` | lib/xlat_tables_v2/xlat_tables_core.c:780-801 | In the list order a region is disjoint from or around every earlier one. |
| `Denotation.DynamicAlone` | lib/xlat_tables_v2/xlat_tables_core.c:720-724 | A dynamic region overlaps no other one. |
| `Denotation.MapsAlone` | lib/xlat_tables_v2/xlat_tables_core.c:986-988 | Mapping a region that overlaps no other gives what the longer list denotes. |
| `Denotation.UnmapsAlone` | lib/xlat_tables_v2/xlat_tables_core.c:1101-1103 | Unmapping it gives what the shorter list denotes. |
| `Context.PoolInOrder` | lib/xlat_tables_v2/xlat_tables_core.c:41-88 | Every linked table is linked once and counts the listed regions that meet it; every other table counts nothing, is empty and is linked nowhere. |
| `Context.InitNext` | lib/xlat_tables_v2/xlat_tables_core.c:1201-1217 | Mapping the next listed region succeeds exactly if the tables of the list up to it fit the pool; it then links exactly those, with exact counts. |
| `Context.AddDone` | lib/xlat_tables_v2/xlat_tables_core.c:985-1040 | A successful dynamic addition keeps tables, counts and list in agreement, exact counts exact. |
| `Context.UndoDone` | lib/xlat_tables_v2/xlat_tables_core.c:1002-1023 | After a failed addition the translation of every address is as before, and no invalidation is outstanding. The whole invariant holds exactly if the state before does not tell of an orphan, and if it does a free table is not empty. Harmless counts stay harmless exactly if the state before does not tell otherwise. |
| `Context.RemoveDone` | lib/xlat_tables_v2/xlat_tables_core.c:1099-1112 | A removal keeps tables and list in agreement and exact counts exact; the pool stays in order exactly if no table counts too much below one that the region was the last to use, and otherwise a free table is not empty. |
| `XlatContext.XlatCtx.Init` | lib/xlat_tables_v2/xlat_tables_core.c:1170-1225 | Succeeds exactly if the tables the list needs are no more than the pool has; then the tables describe exactly the list, exactly the needed ones are linked, with exact counts and the attributes of the regions. |
| `XlatContext.XlatCtx.AddStatic` | lib/xlat_tables_v2/xlat_tables_core.c:756-846 | A static region joins the list exactly if the checks accept it. |
| `XlatContext.XlatCtx.AddDynamic` | lib/xlat_tables_v2/xlat_tables_core.c:934-1040 | Each result code under its exact condition: success exactly with room in the list, a compatible region and enough tables; -ENOMEM exactly with a full list, or a compatible region that needs more tables than there are; -EPERM exactly with room and an incompatible region. Success adds exactly the region to list and translation: every address of it goes to its output address with the permissions asked for, and no other address changes. Every error leaves the list, its maxima and the translation as they were, and the tables untouched but for running out of them. The whole invariant is kept exactly unless the state before tells of an orphan, and a pool that no removal puts out of order stays so exactly unless the state before tells otherwise. |
| `XlatContext.SamePermissions` | lib/xlat_tables_v2/xlat_tables_core.c:947 | Marking a region as dynamic changes none of its permissions. |
| `XlatContext.XlatCtx.RemoveDynamic` | lib/xlat_tables_v2/xlat_tables_core.c:1068-1136 | Each result code under its exact condition; success removes exactly the region from the list and exactly its addresses from the translation, an error changes nothing. The whole invariant is kept exactly unless the removal drops a table above one that counts too much, which harmless counts exclude. |
| `XlatContext.XlatCtx.GetMemAttributes` | lib/xlat_tables_v2/xlat_tables_utils.c:326-425 | Succeeds exactly for addresses of listed regions (modulo the span), with the attributes in force there. |
| `VaAllocation.GrainIsLargest` | lib/xlat_tables_v2/xlat_tables_core.c:898-905 | The alignment chosen is the largest block size from the base level to level 2 that divides base PA and size, or none. |
| `VaAllocation.GrainIs` | lib/xlat_tables_v2/xlat_tables_core.c:888-906 | In figures: the alignment is 512 GiB, 1 GiB or 2 MiB, the first from the base level down that divides both output address and size, or none. |
| `VaAllocation.RoundUp` | include/lib/utils_def.h:86-90 | The least multiple of the boundary that is not below the value. |
| `VaAllocation.AllocatedApart` | lib/xlat_tables_v2/xlat_tables_core.c:1042-1057 | A region at the allocated address can be refused for its PAs only: the VA tests never reject it. |
| `VaAllocation.FirstAllocation` | lib/xlat_tables_v2/xlat_tables_core.c:908-920 | On an empty list the address is page-aligned exactly if some block size divides base PA and size; otherwise it is 1, which is refused. |
| `VaAllocation.NextAllocation` | lib/xlat_tables_v2/xlat_tables_core.c:1042-1057 | On a non-empty list the address is always page-aligned. |
| `XlatContext.XlatCtx.AllocVaAlign` | lib/xlat_tables_v2/xlat_tables_core.c:853-906 | The loop over the levels computes that alignment. |
| `XlatContext.XlatCtx.AddStaticAllocVa` | lib/xlat_tables_v2/xlat_tables_core.c:908-920 | The address is the least one above all listed addresses that is a multiple of the alignment; the region is added there exactly if there is room, the address is acceptable and its PAs are free. |
| `XlatContext.XlatCtx.AddDynamicAllocVa` | lib/xlat_tables_v2/xlat_tables_core.c:1042-1057 | The same for a dynamic region at the allocated address, again the least suitable one above every listed one: success exactly with room, an acceptable address, free PAs and enough tables; the invariants as for any dynamic region. |
| `ContextRuns.AddAndRemove` | lib/xlat_tables_v2/xlat_tables_core.c:934-1136 | Removing a region that was just added restores the list and the translation of every address, and the invariant holds. |
| `ContextRuns.FullRun` | include/lib/xlat_tables/xlat_tables_v2.h:160-175 | A context from its definition on: a static region, initialisation exactly if its tables fit the pool, and a dynamic region that comes and goes. |
| `ContextRuns.PastEnd` | lib/xlat_tables_v2/xlat_tables_utils.c:463-572 | A context with one page accepts a request one span past it; the page is changed, and break-before-make is not followed. |
| `RemovalRuns.SteadyRun` | lib/xlat_tables_v2/xlat_tables_core.c:1068-1136 | With harmless counts the pool stays in order through any run of removals of dynamic regions. A run that ends with no dynamic region left, or where the pool is out of order, ends in order exactly if the counts were harmless at its start, and else with a stale table. |
| `RemovalRuns.StaticsSteady` | lib/xlat_tables_v2/xlat_tables_core.c:1090-1091 | With static regions only, counts of a pool in order are harmless. |
| `ShortageRuns.NeedsPageTables` | lib/xlat_tables_v2/xlat_tables_core.c:433-500 | A region of 1 GiB and a page at 1 GiB needs three tables on a 48-bit space, or those of them that are not linked for the first page: a block describes its first GiB. |
| `ShortageRuns.RunOut` | lib/xlat_tables_v2/xlat_tables_core.c:985-1023 | With a pool of two tables, adding that region to an initialised context fails and leaves a free table that still links another one, although list and translation are as before. |
| `ShortageRuns.Burden` | lib/xlat_tables_v2/xlat_tables_core.c:985-1023 | With a pool of four and the first page mapped the addition fails as well; the invariant holds, as the page uses the level 1 table, but the counts are not harmless any more. |
| `ShortageRuns.BurdenTold` | lib/xlat_tables_v2/xlat_tables_core.c:1068-1136 | Removing the page then leaves a free table that still links another one. |
| `Descriptor.AddressReadsBack` | lib/xlat_tables_v2/xlat_tables_core.c:105-213 | No attribute field of a descriptor meets its address field: the address reads back exactly. |
| `Descriptor.AttributesReadBack` | lib/xlat_tables_v2/xlat_tables_utils.c:369-414 | Decoding an encoded descriptor gives the attributes in force: execute-never for device and writable memory, user access in EL1&0 only. |
| `Descriptor.UpperBits` | lib/xlat_tables_v2/xlat_tables_core.c:161-210 | Bit 54, and in EL1&0 bit 53, is set exactly for device memory, writable memory and what is to be execute-never; bit 50 exactly for executable read-only memory under branch target identification; bit 52 and those from 55 on stay clear. |
| `Descriptor.LowerBits` | lib/xlat_tables_v2/xlat_tables_core.c:129-210 | Bits 4 to 2 are the index of the memory type; bit 5 is set exactly for NS, bit 6 exactly for user access and always outside of EL1&0, bit 7 exactly for read-only memory. |
| `Descriptor.BitsRead` | lib/xlat_tables_v2/xlat_tables_utils.c:380-414 | What is read of any descriptor, bit by bit. |
| `Descriptor.AddressField` | include/lib/xlat_tables/xlat_tables_defs.h:70 | The address field is bits 47 to 12. |
| `AttributeChange.LeafType` | lib/xlat_tables_v2/xlat_tables_core.c:119 | The type of a leaf that the mapper looks at is that of the low bits of its 64-bit form. |
| `Descriptor.TypeAndShareability` | lib/xlat_tables_v2/xlat_tables_core.c:105-213 | Type bits of the level, access flag set, inner shareability exactly for normal cacheable memory. |
| `Descriptor.Reencode` | lib/xlat_tables_v2/xlat_tables_utils.c:369-414 | Encoding what was decoded gives the same descriptor. |
| `Descriptor.SameMeaning` | lib/xlat_tables_v2/xlat_tables_core.c:105-213 | Equal descriptors have equal addresses and enforce the same. |
| `Descriptor.ChangeReadsBack` | lib/xlat_tables_v2/xlat_tables_utils.c:538-544 | After a change a page reads back exactly the requested RW and XN (and USER in EL1&0), with the memory type and NS it had. |
| `AttributeChange.RewroteNext` | lib/xlat_tables_v2/xlat_tables_utils.c:521-567 | Changing one more page extends the changed part by that page, also when it was changed before under another address. |
| `AttributeChange.RewriteOrder` | lib/xlat_tables_v2/xlat_tables_utils.c:551-562 | Break-before-make holds for a rewrite exactly if the address invalidated is the one the entry describes. |
| `AttributeChange.PagesInSpan` | lib/xlat_tables_v2/xlat_tables_utils.c:473-516 | Within the span the pages of a request are one range of addresses. |
| `ContextAttributes.ChangeEnds` | lib/xlat_tables_v2/xlat_tables_utils.c:521-572 | After all pages the tables, list and counts agree, and break-before-make held exactly if the request was within the span. |
| `ContextAttributes.PageReadsBack` | lib/xlat_tables_v2/xlat_tables_utils.c:538-562 | After an accepted request each of its pages reads back at its output address with the requested permissions, user access in EL1&0 only, and the memory type and NS bit it had; that device memory stays execute-never follows from the checks. |
| `ContextAttributes.PastSpan` | lib/xlat_tables_v2/xlat_tables_utils.c:463-513 | A request that is accepted is accepted one span further as well, where it changes the same pages. |
| `ContextAttributes.OthersKeep` | lib/xlat_tables_v2/xlat_tables_utils.c:521-572 | Every address outside the range translates as before. |
| `XlatContext.XlatCtx.CheckPages` | lib/xlat_tables_v2/xlat_tables_utils.c:473-516 | The first loop accepts exactly if every page is mapped by a page descriptor and no device page would become executable. |
| `XlatContext.XlatCtx.ChangeMemAttributes` | lib/xlat_tables_v2/xlat_tables_utils.c:428-573 | All or nothing: an error, under its exact condition, changes nothing; success changes exactly the pages requested, and no count. |
| `SpiFlash.Device.EraseSectors` | drivers/renesas/spi/spi.c:48-75 | Erases the sectors from that of the first address to that of the address past the last, hence one too many for a whole number of sectors. |
| `SpiFlash.Device.WritePages` | drivers/renesas/spi/spi.c:94-137 | Programs an erased range page by page; the padding of the last page changes nothing. |
| `SpiFlash.Device.WriteBuff` | drivers/renesas/spi/spi.c:19-46 | The range holds the data, the other erased sectors are erased, the rest is as before. |
| `FlashContents.Compose` | drivers/renesas/io/io_spi.c:209-251 | Writing a range up to a sector boundary and then more is writing the whole range. |
| `FlashContents.PatchWritten` | drivers/renesas/io/io_spi_hw.c:70-84 | Reading a sector, replacing bytes and writing it back is writing the bytes. |
| `FlashContents.DataWritten` | drivers/renesas/io/io_spi.c:188-259 | The range holds the data, except where erasing wraps around onto it. |
| `FlashContents.OutsideKept` | drivers/renesas/io/io_spi.c:188-259 | Nothing changes outside the sectors of the range and the one after them (and the first one, when erasing wraps around). |
| `FlashContents.FootprintErased` | drivers/renesas/spi/spi.c:48-75 | Those sectors are exactly the ones that the device erases for the write. |
| `FlashContents.HeadKept` | drivers/renesas/io/io_spi_hw.c:70-84 | Bytes in front of the range in its first sector are kept. |
| `FlashContents.TailKept` | drivers/renesas/io/io_spi_hw.c:70-84 | Bytes behind the range in its last sector are kept exactly if the write stays in one sector or they were erased already. |
| `FlashContents.NextErased` | drivers/renesas/spi/spi.c:63-70 | The sector after the range ends up erased. |
| `FlashContents.Survives` | drivers/renesas/io/io_spi.c:188-259 | After any writes in order, a byte of one of them survives if it is in the footprint of no later one and the erasing of its own write did not wrap around onto it. |
| `FlashFile.File.Open` | drivers/renesas/io/io_spi.c:84-113 | One file at a time. |
| `FlashFile.File.Seek` | drivers/renesas/io/io_spi.c:116-133 | Seeking from the start accepts exactly the offsets inside the flash. |
| `FlashFile.File.Read` | drivers/renesas/io/io_spi.c:166-185 | Reads from the memory map and advances the cursor. |
| `FlashFile.File.BlockWrite` | drivers/renesas/io/io_spi_hw.c:14-41 | The exact contents after a block of any number of sectors, also when it fails at the end of the flash. |
| `FlashFile.File.PartialWrite` | drivers/renesas/io/io_spi_hw.c:45-88 | The exact contents after a read-modify-write of part of a block. |
| `FlashFile.File.Write` | drivers/renesas/io/io_spi.c:188-259 | The exact contents after a write of any length at any position; past the end it writes what fits and fails. The cursor stays. |
| `FipLayout.LeBounds` | include/plat/renesas/rzg/rzg_firmware_image_package.h:72-84 | Range of a little-endian field. |
| `FipLayout.LeReadsBack` | include/plat/renesas/rzg/rzg_firmware_image_package.h:72-84 | Reading a little-endian number gives the number that was encoded. |
| `FipLayout.EntryReadsBack` | include/plat/renesas/rzg/rzg_firmware_image_package.h:78-84 | Reading a stored table of contents entry gives the entry. |
| `FipLayout.HeaderReadsBack` | include/plat/renesas/rzg/rzg_firmware_image_package.h:66-77 | A header is taken for a package exactly for the four names and a serial number that is not 0; it marks the last package exactly if bit 47 of its flags is set. |
| `FirmwareUpdate.TocReadsBack` | plat/renesas/rzg/fwu_nvm_accessors.c:90-112 | The entries found in a package are those stored in it in front of the null entry. |
| `FirmwareUpdate.PackageLands` | plat/renesas/rzg/fwu_nvm_accessors.c:78-115 | For a package built from entries, every image that no later write disturbs is where its entry says. |
| `FirmwareUpdate.ImageLands` | plat/renesas/rzg/fwu_nvm_accessors.c:78-115 | If the writes succeed, an image is at its place in the end unless its bytes are in the footprint of a later image or erased by its own write wrapping around. |
| `FirmwareUpdate.VisitsIncrease` | plat/renesas/rzg/fwu_nvm_accessors.c:159-177 | Packages are looked for at increasing offsets, all but the last inside the flash: the loop ends. |
| `FirmwareUpdate.NextVisit` | plat/renesas/rzg/fwu_nvm_accessors.c:175 | Each offset is the one before it plus the size of the package found there, in the flash as the earlier packages left it. |
| `FirmwareUpdate.NoPackageLeft` | plat/renesas/rzg/fwu_nvm_accessors.c:117-143 | After the header is erased no package is found at the address. |
| `FirmwareUpdate.FailureMasked` | plat/renesas/rzg/fwu_nvm_accessors.c:163-182 | There is a package on which the loop fails and the update reports success. |
| `FirmwareUpdate.UpdateReplays` | plat/renesas/rzg/fwu_nvm_accessors.c:145-187 | Whatever the outcome of the loop, the flash after an update is what the writes of all its images, package after package, and of the first header leave in order. |
| `UpdateImages.UpdateLands` | plat/renesas/rzg/fwu_nvm_accessors.c:145-187 | After a whole update, failed or not, a byte of an image written is at its place if no later image of any package has it in its footprint, nor the erasing of the header, which takes the sectors of the header and the one behind them. It is the byte that the package had in the flash when it was loaded, if the image lies in the package. |
| `UpdateImages.UpdateOrigin` | plat/renesas/rzg/fwu_nvm_accessors.c:78-115 | Every write of an update is the image of a non-null entry of a package visited, at the place the entry names, with the bytes of the package at the offset it names. |
| `UpdateImages.TurnOutcome` | plat/renesas/rzg/fwu_nvm_accessors.c:145-187 | A turn ends well without a package, fails for a package of size 0 or with an image that does not fit the flash, and otherwise goes on behind the package exactly unless that is marked as the last one; what it loads is the package, byte by byte. |
| `UpdateImages.WritesFit` | plat/renesas/rzg/fwu_nvm_accessors.c:78-115 | Writing the images of a package succeeds exactly if all of them lie in the flash. |
| `UpdateImages.SizeStored` | plat/renesas/rzg/fwu_nvm_accessors.c:48-60 | The size of a package is the number stored in its null entry, taken as a 32-bit signed one, |
| `UpdateImages.SizeUnset` | plat/renesas/rzg/fwu_nvm_accessors.c:48-60 | and what the variable held before if no null entry is found. |
| `FirmwareUpdate.Updater.LoadFip` | plat/renesas/rzg/fwu_nvm_accessors.c:22-76 | Each outcome under its condition; a package of n bytes is copied to the start of RAM byte by byte, and the rest of RAM stays. |
| `FirmwareUpdate.Updater.WriteFip` | plat/renesas/rzg/fwu_nvm_accessors.c:78-115 | Writes the images of the entries in order, up to a failure. |
| `FirmwareUpdate.Updater.EraseFip` | plat/renesas/rzg/fwu_nvm_accessors.c:117-143 | Overwrites the header; fails exactly if it does not fit. |
| `FirmwareUpdate.Updater.UpdateFip` | plat/renesas/rzg/fwu_nvm_accessors.c:145-187 | Runs the packages from the address on and erases the first header; the flash is as those writes leave it. The status reported is that of the erasing alone, unless the loop did not return: a loop that fails is reported as a success exactly if the header can be erased. |
| `PstateId.ValueOfVector` | plat/common/plat_state_id.c:53-96 | Every number up to n0 + n0*n1 + ... is the value of a well-formed index vector, |
| `PstateId.VectorOfValue` | plat/common/plat_state_id.c:53-96 | and of only one. |
| `PstateId.NextCounts` | plat/common/plat_state_id.c:77-95 | Each call raises the value by 1, and after the highest value starts again at 0. |
| `PstateId.RunVisitsAll` | plat/common/plat_state_id.c:53-96 | The run from the all-INIT vector goes through the vectors of all values in order and returns to all-INIT. |
| `PstateId.EachVisitedOnce` | plat/common/plat_state_id.c:53-96 | So it visits each well-formed vector exactly once. |
| `PstateId.SetNextStateIdIdx` | plat/common/plat_state_id.c:53-96 | The carry loop in place computes that step and touches no other level. |
| `PstateId.SuffixMeans` | plat/common/plat_state_id.c:53-76 | The assertion on the vector asks that no index follows a level without one, |
| `PstateId.WellFormedSuffix` | plat/common/plat_state_id.c:53-76 | which holds of every well-formed vector. |
| `PstateId.SetDeepestPstateIdx` | plat/common/plat_state_id.c:98-112 | Sets the vector of the highest value. |
| `PstateId.SetNextLocalStateIdIdx` | plat/common/plat_state_id.c:161-172 | Cycles through INIT and the states of one level. |
| `PstateId.FieldsApart` | plat/common/plat_state_id.c:143 | State identifiers of vectors with different states differ. |
| `PstateId.FieldAt` | plat/common/plat_state_id.c:143 | The four bits of a level in the state identifier are the identifier of its state, the lowest level in the lowest bits. |
| `PstateId.GetPstateVars` | plat/common/plat_state_id.c:115-159 | The request is valid exactly if no level is deeper than one below it; the suspend type is the largest one; the level is the highest with an index. |
| `TopologyTree.ParentMonotone` | plat/common/plat_topology.c:252-258 | Parents are in the order of their children, and unique. |
| `TopologyTree.ParentDepth` | plat/common/plat_topology.c:252-258 | The parent of a node is one level up: levels are contiguous. |
| `TopologyTree.UpMonotone` | plat/common/plat_topology.c:159-170 | So are ancestors at every level. |
| `TopologyTree.CpusConsecutive` | plat/common/plat_topology.c:174-181 | The CPUs beneath a node are consecutive: as many as it counts, from the first one on. |
| `Topology.Tree.Populate` | plat/common/plat_topology.c:218-288 | Every node gets its level and its breadth-first parent, every CPU its MPIDR, and every level its first node. |
| `Topology.Tree.GetParents` | plat/common/plat_topology.c:159-170 | The ancestors of a CPU, lowest first. |
| `Topology.Tree.UpdateLimits` | plat/common/plat_topology.c:184-209 | Every domain counts the CPUs beneath it and records the first of them and its presence, except node 0 above the lowest domain level. |
| `Topology.Tree.Init` | plat/common/plat_topology.c:291-299 | Both together. |
| `TopologyLimits.NodeZeroFirst` | plat/common/plat_topology.c:187 | If node 0 is above any CPU it is above the first one, so its marker never differs. |
| `Topology.DomainLimits` | plat/common/plat_topology.c:184-209 | The CPUs from the recorded first one on, as many as counted, are exactly those beneath the domain; for node 0 above the lowest domain level the first one is not recorded and it stays absent. |
| `Topology.Tree.NextCpu` | plat/common/plat_topology.c:301-319 | The first present CPU after the given one. |
| `Topology.Tree.NextCpuInDomain` | plat/common/plat_topology.c:125-153 | The first present CPU of the domain after the given one. |
| `Topology.Tree.CpusInDomain` | include/plat/common/plat_topology.h:151-156 | On the tree that is set up, the iterator visits exactly the present CPUs beneath a domain whose first CPU is recorded, in order. |
| `Formatting.DigitsDenote` | lib/libc/snprintf.c:47-55 | The digits printed denote the number, |
| `Formatting.NoLeadingZero` | lib/libc/snprintf.c:47-55 | without a leading zero. |
| `Formatting.TwentyDigits` | lib/libc/snprintf.c:42-43 | 20 places hold every 64-bit number in radix 10 to 16. |
| `Formatting.ConvertLength` | lib/libc/snprintf.c:38-89 | An unsigned number takes the larger of its digits and its width; a signed one too, and a negative one its sign on top of that; a width does not apply to a string. |
| `Formatting.ConvertDenotes` | lib/libc/snprintf.c:148-200 | The text of %d and %i stands for the argument exactly if that fits 32 bits, whatever the number of l; that of %u and %x exactly if it fits 32 bits, or 64 with an l. Padding does not change the number. |
| `Formatting.LongDenotes` | lib/libc/snprintf.c:165-168 | With an l, %u and %x denote every 64-bit argument. |
| `Formatting.ConvertAligned` | lib/libc/snprintf.c:57-88 | The padding is in front of the digits for a positive width and behind them for a negative one, and a minus sign in front of both. |
| `Formatting.InTurn` | lib/libc/snprintf.c:165-185 | Conversions take the arguments in turn. |
| `Formatting.SmallLetters` | lib/libc/snprintf.c:47-55 | Hexadecimal digits above 9 are small letters. |
| `Formatting.WidthReadsBack` | lib/libc/snprintf.c:137-140 | A width printed in decimal is read back by the parser. |
| `Formatting.SpecifierForms` | lib/libc/snprintf.c:123-210 | A width pads with spaces on the left, after a minus on the right, after a zero with zeros; without one there is no padding. |
| `Formatting.LiteralCopied` | lib/libc/snprintf.c:211-217 | Text without a percent sign is copied. |
| `Snprintf.Collect` | lib/libc/snprintf.c:47-55 | The digit loop stays within the 20 places. |
| `Snprintf.Output.UnsignedNumPrint` | lib/libc/snprintf.c:38-89 | Prints the digits with the padding on the side asked for. |
| `Snprintf.Output.StringPrint` | lib/libc/snprintf.c:24-36 | Prints the string. |
| `Snprintf.ParseSpecifier` | lib/libc/snprintf.c:123-210 | The loop over flags, widths and length modifiers. |
| `Snprintf.Vsnprintf` | lib/libc/snprintf.c:94-224 | For every buffer size the result counts the same text; the buffer holds as much of it as fits, then a terminator, and nothing behind it changes. An unsupported specifier gives -1 and no terminator. |
| `Spinlock.StepKeeps` | lib/locks/aarch64/spinlock.S:18-33 | The invariant is kept by every step of every core. |
| `Spinlock.MutualExclusion` | lib/locks/aarch64/spinlock.S:18-33 | In every interleaving of any number of cores at most one is between the return of spin_lock and spin_unlock. |
| `Spinlock.MessagesWhole` | lib/utils/mp_printf.c:14-24 | The console shows whole messages, then the beginning of the message of the core that holds the lock. |
| `Spinlock.FreeLockIsTaken` | lib/locks/aarch64/spinlock.S:18-27 | A core that finds the lock free and is left alone gets it, in four steps. |
| `Spinlock.HolderReleases` | lib/locks/aarch64/spinlock.S:30-33 | A holder can print the rest of its message and release the lock; the message is then on record. |
| `Spinlock.CanHold` | lib/locks/aarch64/spinlock.S:18-33 | No deadlock: from every state of every run there are steps after which any given core holds the lock, wherever it and the others are. |
| `Spinlock.ComesToLoad` | lib/locks/aarch64/spinlock.S:20-23 | A core that calls spin_lock loads the lock word after one wait, whatever the others do. |

## Left out

- Walk.WalkFrom: a table descriptor holds the index of the table in the pool instead of its address.
- XlatContext.XlatCtx.Init: running out of tables panics in the source, and in the variant without counts an assertion stops it first; both are the result `false` here.
- XlatContext.XlatCtx.AddStatic: a refused static region stops at an assertion in the source and is a result code here.
- XlatContext.XlatCtx.AddDynamic: what later operations do to a pool that it left out of order is not stated, beyond `PoolOrder.StaleReused`.
- XlatContext.XlatCtx.AddDynamicAllocVa: the overflow test of the source is left out, since it cannot fire for addresses of at most 48 bits.
- XlatContext.XlatCtx.ChangeMemAttributes: a request that the checks accept has fewer than 2^32 pages, because the 32-bit counter of the second loop of the source never reaches more and the call would not return.
- XlatContext.XlatCtx.constructor: limits are at most 48 bits, the address space is a whole number of base level blocks, and all entries of the list are cleared; the set-up function of the source clears all but the last.
- Descriptor.XlatDesc: an undefined memory type is encoded as non-cacheable, past the assertion of the source; leaf descriptors in the tables are kept as address and attributes, and this module relates those to the 64 bits.
- Mapping.MapAction: masks of block sizes are stated as divisibility, and `(a | b) & mask == 0` as divisibility of both.
- RegionList.RegionArray.FindPlace: region ends are unbounded sums; regions whose ends wrap around are refused before.
- TableMemory.Memory.UnmapRegion: cache maintenance and barriers are left out; TLB invalidations are kept as a trace.
- SpiFlash.Device.EraseSector: register programming and status polling are left out; whether the device ignores address bits past its end is a parameter.
- SpiFlash.Device.WriteBuff: addresses are page-aligned and the end of the range fits 32 bits, as for the only caller.
- FlashFile.File.Seek: the modes END and CUR, which mix absolute and relative addresses, are left out.
- FlashFile.File.Write: the cursor is inside the flash or at its end, where seeking puts it; the block size is the 64 KiB of the platform.
- FirmwareUpdate.Updater.LoadFip: the size that is never set when no null entry is found is a parameter, what reads past the flash return is a parameter, and copying a negative number of bytes is the outcome `Crash`.
- PstateId.GetPstateVars: the fields of the state identifier are added, which equals the bitwise or for identifiers that fit their fields.
- Topology.Tree.NextCpuInDomain: asks for a domain whose first CPU is recorded; the assertion of the source fails for node 0 otherwise.
- Snprintf.Vsnprintf: a missing argument, or one of the wrong kind, reads as 0 or as empty; widths are unbounded.
- Spinlock.StepKeeps: memory is sequentially consistent for the single lock word, and waiting for an event may end at any time; that a waiting core is ever served is not stated.
- Setting up contexts at run time, MMU control, printing of tables, random choice of CPUs and the counting of present domains are not modelled.
- The pool of IO entities, string and endian helpers and the AArch32 variants are left out as easy members.
