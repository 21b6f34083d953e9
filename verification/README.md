# A model of the rust-os kernel

This project states and proves what the hard parts of the rust-os kernel promise. It covers

- the physical frame allocator and its bootstrap (`BitmapAlloc`, `AllocRuns`, `Bootstrap`);
- four-level page tables as partial maps, and the address spaces cloned from the kernel's (`PageTable`, `Mapping`,
  `FlagChanges`, `TableFlags`, `VirtualAddress`, `AddressSpaces`, `FrameCounts`, `AddressSpaceRuns`, `Level4`);
- kernel stacks with guard pages (`KernelStacks`, `KernelStackRuns`, `StackAllocator`);
- the run queue and the multi-processor scheduler (`RunQueueModel`, `Scheduler`, `SchedulerRuns`, `SchedulerProgress`,
  `SchedulerExits`, `SchedulerSleep`, `SchedulerTraces`);
- sleeping and waking through `WaitCell` and the one-shot channel (`OnceCells`, `WaitCells`, `OnceChannels`);
- split virtqueues shared with a VirtIO device (`VirtQueues`, `VirtQueueRuns`);
- ext2 directories, inodes and files (`Ext2Directory`, `Ext2Bitmap`, `Ext2Inodes`, `Ext2Files`, `Ext2Reads`, `Ext2ReadAll`,
  `Ext2Vfs`).

Code that changes objects in place is a class whose methods are proved against functions of values. Everything said over
several operations is proved about those functions. Protocols, where several processors, an interrupt or a device take
part, are step systems: a step is one action between two points at which another party can act, every interleaving of
steps is a run, and the results hold for all runs. A panic of the source is either an outcome of its own (`None`,
`Panicked`, `Panic`, `Failed`) or a precondition, as each contract says. In the scheduler `Broken` stands for a failed lookup
or assertion of its own, which is proved never to happen, and `Panicked` for a panic that its callers can bring about.

How the hardware and the rest of the kernel enter the model:

- Physical memory is a sequence of frames of 512 entries; an entry is a frame number and a set of flags.
- A bitmap word is a sequence of 64 booleans.
- A block device is a sequence of blocks. Reading copies a block and flushing puts it back.
- The VirtIO device is any device that takes available entries in order and completes what it took, once, in any order.
- The time slice and the timer are nondeterminism: the scheduler may be entered whenever the preemption count allows it.

## What turned out not to hold

Each of these is shown by a lemma, and beside it stands the condition under which the code does what is wanted. The
condition is exact where it is an if-and-only-if; for a chain beyond one lap of a virtqueue it is exact up to the new
descriptor having the same address by chance.

- `bitmap_bytes` counts 64-bit words, so the range reserved for the allocator's own bitmap is an eighth of its storage
  (`Bootstrap.StorageNotProtected`, `Bootstrap.StorageProtectedWhen`).
- `set_flags` without PRESENT leaves an address behind that a later `map_to` ors into the new one
  (`Mapping.StaleBitsShow`, `Mapping.RemapAfterHiding`). Without HUGE_PAGE on a large page, or with it on a small one, the
  page is no longer one either (`FlagChanges.SetFlagsKeepsPageWhen`, `FlagChanges.SetFlagsKeepsTablesWhen`).
- `map_to` takes an existing page of 2 MiB or 1 GiB, reports success and maps its first 4 KiB
  (`VirtualAddress.MapSizedTranslates`, `VirtualAddress.MapsWholePageWhen`).
- `free_page` divides by the size of the page and clears one bit, so giving back a 2 MiB or 1 GiB page frees none of its
  frames and may free one that belongs to somebody else (`Mapping.HugePageFreesAnother`, `Mapping.FreesItsFramesWhen`,
  `Mapping.UnmapCorrect`).
- `awaken_task` overwrites the killed state, so a killed task comes back and its `kill_current_task` panics
  (`SchedulerTraces.KilledComesBack`, `SchedulerExits.DispatchedOnlyIfAwakened`, `SchedulerExits.AwakenedIsDispatched`).
- `kill_current_task` panics at once when a guard is held (`SchedulerExits.KillPanicsWhen`).
- `awaken_task` panics on a task that has been deleted (`SchedulerTraces.AwakeningCanPanic`, `Scheduler.PanicIs`). Both
  senders run into it when a task they are about to wake returns and ends first: `send_all_consumers`
  (`WaitCells.SendCanPanic`, `WaitCells.SendPanicsOnlyWhen`, `WaitCells.DrainPanicsWhen`) and the channel's `send`
  (`OnceChannels.SendCanPanic`, `OnceChannels.SendPanicsWhen`).
- A waiter that is preempted while marked asleep, before it is on the list or after the sender has emptied the list, is
  lost. The window does not end with the waiter's check of the cell: it lasts until the waiter has marked itself awake
  again (`WaitCells.WakeupCanBeLost`, `WaitCells.LostByPreemptionOnly`).
- `process_new_entries` counts from the last index up to the used index without wrapping, so the batch in which the used
  index wraps is lost as a whole (`VirtQueueRuns.LossIsReachable`, `VirtQueueRuns.CollectsAllWhen`).
- `add_buffer` notices a table that is too full only when a chain head collides
  (`VirtQueueRuns.OverlapGoesUnnoticed`, `VirtQueueRuns.LapIsNeeded`, `VirtQueueRuns.RunsDeliver`).
- A read of a file that begins inside a block copies too little or panics unless it covers the rest of that block and
  more (`Ext2Reads.UnalignedReadIsShort`, `Ext2Reads.ReadRightWhen`).
- `read_all` reads chunks of 4096 bytes. On a volume with larger blocks every chunk after the first begins inside a block,
  so that a longer file comes back short, with zeros in place of data, or not at all (`Ext2ReadAll.HalfIsLost`,
  `Ext2ReadAll.SomeDataIsLost`, `Ext2ReadAll.ReadAllRightWhen`, `Ext2ReadAll.WriteThenReadAll`).
- A directory entry's name reads back only if its length fits in one byte (`Ext2Directory.NameReadsBackWhen`).

## Model

| member | source | states |
|---|---|---|
| BitmapAlloc.BitmapAllocator.constructor | crates/bitmap-alloc/src/alloc.rs:18-23 | A new allocator has the bits of its words and no hint, and its hint invariant holds. |
| BitmapAlloc.UpdateBit | crates/bitmap-alloc/src/alloc.rs:28-50 | Setting bit `page % 64` of word `page / 64` changes the bit of that page in the whole bitmap and no other. |
| BitmapAlloc.PageIsBit | crates/bitmap-alloc/src/alloc.rs:28-50 | Page p is the bit of value two to the p % 64 of word p / 64, taken as a number. |
| BitmapAlloc.BitmapAllocator.MarkUsed | crates/bitmap-alloc/src/alloc.rs:28-38 | Given that the page was free, exactly its bit becomes set. |
| BitmapAlloc.BitmapAllocator.MarkUnused | crates/bitmap-alloc/src/alloc.rs:40-50 | Given that the page was used, exactly its bit becomes clear. |
| BitmapAlloc.BitmapAllocator.FindNextContiguous | crates/bitmap-alloc/src/alloc.rs:73-109 | Starting from the cached hint and going word by word, the search returns what a search of the whole bitmap would: the lowest start of a free run of the length asked for, across word borders, or nothing when there is none. |
| BitmapAlloc.FirstFitIs | crates/bitmap-alloc/src/alloc.rs:73-109 | First fit is determined by two properties: the run is free, and none that starts lower is. |
| BitmapAlloc.NoRunAcross | crates/bitmap-alloc/src/alloc.rs:73-109 | No free run starts below a used page that it would cover, which is why the search may skip ahead. |
| BitmapAlloc.AllocateKeepsHint | crates/bitmap-alloc/src/alloc.rs:54-68 | After an allocation all pages below the hint are used. |
| BitmapAlloc.AllocateIs | crates/bitmap-alloc/src/alloc.rs:54-68 | An allocation of any length gives the lowest free run of that length and marks exactly it, and fails exactly when there is none. |
| BitmapAlloc.FreeKeepsHint | crates/bitmap-alloc/src/alloc.rs:113-125 | After a free all pages below the hint are used. |
| BitmapAlloc.BitmapAllocator.AllocateContiguous | crates/bitmap-alloc/src/alloc.rs:54-68 | Takes the first fit, marks its pages and moves the hint past it, or changes no bit when there is none. |
| BitmapAlloc.BitmapAllocator.FreeContiguous | crates/bitmap-alloc/src/alloc.rs:113-125 | Clears exactly the pages given back and lowers the hint to them when they lie below it. |
| AllocRuns.MarkUsedRun | crates/bitmap-alloc/src/alloc.rs:28-38 | Marking the pages of a free run one after another trips no assertion and sets exactly that run. |
| AllocRuns.MarkUnusedRun | crates/bitmap-alloc/src/alloc.rs:40-50 | Clearing the pages of a used run one after another trips no assertion and clears exactly that run. |
| AllocRuns.ObtainConserves | crates/bitmap-alloc/src/alloc.rs:54-68 | An allocation never panics and keeps the ledger: outstanding blocks are disjoint, and the used pages are the initial ones and theirs. |
| AllocRuns.FreeConserves | crates/bitmap-alloc/src/alloc.rs:113-125 | Freeing an outstanding block never panics and keeps the ledger. |
| AllocRuns.RunConserves | crates/bitmap-alloc/src/alloc.rs:54-125 | Over any sequence of allocations and frees of outstanding blocks nothing panics and pages are conserved. |
| AllocRuns.FreeingEverythingRestores | crates/bitmap-alloc/src/alloc.rs:54-125 | Whatever was done to a new allocator, freeing all outstanding blocks restores the initial bitmap. |
| Bootstrap.ShiftUpIs | crates/bitmap-alloc/src/bootstrap.rs:48-55 | Rounding up gives the least multiple of the page size that is not below the value. |
| Bootstrap.ShiftDownIs | crates/bitmap-alloc/src/bootstrap.rs:57-59 | Rounding down gives the greatest multiple that is not above it. |
| Bootstrap.FreeRegionPages | crates/bitmap-alloc/src/bootstrap.rs:25-45 | The pages visited for a free region are exactly those wholly inside it. |
| Bootstrap.UsedRegionPages | crates/bitmap-alloc/src/bootstrap.rs:25-45 | The pages visited for a used region are exactly those it shares an address with. |
| Bootstrap.RegionPages | crates/bitmap-alloc/src/bootstrap.rs:127-139 | The range of pages computed for a region is the set of pages it visits. |
| Bootstrap.MarkRegion | crates/bitmap-alloc/src/bootstrap.rs:127-139 | The loop sets exactly the bits of the pages the region visits. |
| Bootstrap.FreeRegions | crates/bitmap-alloc/src/bootstrap.rs:108-114 | With disjoint free regions, a bitmap that was all used ends up free exactly on the pages inside some free region; no page is freed twice. |
| Bootstrap.FillBitmap | crates/bitmap-alloc/src/bootstrap.rs:97-125 | A page is used exactly when it is inside no free region or touches the reserved range. |
| Bootstrap.ReservedIsFree | crates/bitmap-alloc/src/bootstrap.rs:83-123 | Every reserved page lies in the region chosen for the bitmap, so marking it used trips no assertion. |
| Bootstrap.InsideBelowTotal | crates/bitmap-alloc/src/bootstrap.rs:75-83 | Every page inside a free region has a bit in the bitmap, so no index is out of range. |
| Bootstrap.WordsAreLeast | crates/bitmap-alloc/src/bootstrap.rs:75-83 | The bitmap has as few words as give a bit to every page below the end of every region. |
| Bootstrap.FitsWhen | crates/bitmap-alloc/src/bootstrap.rs:84-96 | The bitmap fits in a region exactly when the region is free and has whole pages from one to another that hold it. |
| Bootstrap.PlaceIs | crates/bitmap-alloc/src/bootstrap.rs:84-98 | The bitmap is placed at the first whole page of the first region in which it fits. |
| Bootstrap.BootstrapAllocator | crates/bitmap-alloc/src/bootstrap.rs:65-125 | Bootstrapping succeeds exactly when some free region holds the bitmap, whose length and place are those of the three rows above, and then a page is free exactly when it lies wholly inside one free region and outside the rounded-out reserved range. |
| Bootstrap.StorageProtectedWhen | crates/bitmap-alloc/src/bootstrap.rs:83-123 | The pages that hold the bitmap itself are all marked used if and only if no free region contains one of the pages that follow the reserved bytes up to eight times their number. |
| Bootstrap.StorageNotProtected | crates/bitmap-alloc/src/bootstrap.rs:83-123 | With 4096-byte pages and one free region of 128 MiB up to 1 GiB, a page of the bitmap's own storage is free. |
| PageTable.FindAtStop | kernel/src/memory/page_table.rs:49-72 | What a walk finds is the target of the entry at which it stops. |
| PageTable.FoundIsAligned | kernel/src/memory/page_table.rs:377-417 | A page that a walk finds is present and on a frame that is a multiple of its size. |
| PageTable.EntryFrame | kernel/src/memory/page_table.rs:308-318 | Writing an entry of a table reached by one path leaves every other entry alone, as seen from any root. |
| PageTable.WalkFrame | kernel/src/memory/page_table.rs:308-318 | It changes no walk that does not go through that entry. |
| PageTable.LeafWriteFind | kernel/src/memory/page_table.rs:418-425 | Writing a leaf changes what is found at the paths through that entry, in the roots that see it, and nowhere else. |
| PageTable.LeafWriteKeeps | kernel/src/memory/page_table.rs:418-425 | It keeps the tree well formed and every walk to a table as it was. |
| PageTable.FreshKeeps | kernel/src/memory/page_table.rs:427-443 | Zeroing a free frame touches nothing that can be reached. |
| PageTable.ChildFind | kernel/src/memory/page_table.rs:427-443 | Hanging an empty table at an absent entry changes no translation. |
| PageTable.ChildKeeps | kernel/src/memory/page_table.rs:427-443 | It keeps the tree well formed: no table is shared, and absent entries are zero. |
| Mapping.OneFrame | kernel/src/memory/physical.rs:82-105 | Allocating one frame takes a free one and marks only it, and fails only when all are used. |
| Mapping.LeafWritten | kernel/src/memory/page_table.rs:94-105 | Writing the leaf maps that page, in the roots that see it, and changes nothing else. |
| Mapping.MapChild | kernel/src/memory/page_table.rs:427-443 | A table added on the way down takes one frame, is empty and changes no translation. |
| Mapping.MapFromCorrect | kernel/src/memory/page_table.rs:74-127 | `map_to` refines a partial map over all roots and paths: on success exactly the page's path gains the frame and flags, on failure (already mapped, or out of frames on the way down) every path finds what it found, and the tree and the account of frames stay sound. |
| FrameCounts.MapsWhen | kernel/src/memory/page_table.rs:74-127 | A page that is not mapped is mapped if and only if there are as many free frames as tables missing on the way and, unless an existing page is given, one more; it takes exactly that many. |
| TableFlags.MapGrants | kernel/src/memory/page_table.rs:84-87 | Each new table on the way is reached through an entry that is present, writable and open to users exactly as the page is to be, with no other flag; entries that were there stay as they were. |
| Mapping.LeafStop | kernel/src/memory/page_table.rs:129-197 | The table and level at which the walk to a mapped page stops are those of its page size. |
| Mapping.UnmapCorrect | kernel/src/memory/page_table.rs:158-197 | Of a page of the size asked for, and only of one, `unmap` removes the translations and no others. Giving it back clears the one bit `free_page` computes and panics exactly when that bit is clear; the tables stay sound exactly when it is not that of a table or of frame zero. In every other case nothing changes and the result says why. |
| Mapping.FreesItsFramesWhen | kernel/src/memory/physical.rs:111-116 | Giving back a page whose frames are in use frees those frames if and only if it is a 4 KiB page; of a larger page none is freed. |
| Mapping.HugePageFreesAnother | kernel/src/memory/physical.rs:111-116 | With every frame in use, giving back the 2 MiB page on frame 512 frees frame 1, which is then the next one handed out. |
| Mapping.SetFlagsCorrect | kernel/src/memory/page_table.rs:129-153 | With any flags, `set_flags` changes what is found in the one page and nowhere else: the page with the new flags, nothing, a panic on the next walk, or, for a large page without HUGE_PAGE, what its first frame leads to as a table. With flags that fit it replaces the flags and nothing else. It changes nothing when there is no page. |
| FlagChanges.SetFlagsKeepsPageWhen | kernel/src/memory/page_table.rs:129-153 | A page of any size is still there, on its frame and of its size, if and only if the flags have PRESENT, and HUGE_PAGE exactly when it is a large one. |
| FlagChanges.SetFlagsKeepsTablesWhen | kernel/src/memory/page_table.rs:129-153 | For a page of any size the tables stay well formed if and only if the flags fit it, or clear the entry of frame zero, or drop HUGE_PAGE from a large page whose first frame could be a table: in use, not a table already, and good with all it leads to. |
| FlagChanges.GraftNeeds | kernel/src/memory/page_table.rs:377-417 | A large page's first frame, taken for a table, leaves the tables sound only if it could be one. |
| PageTable.EntryWriteFind | kernel/src/memory/page_table.rs:308-318 | What any entry, good or not, written at the end of a walk makes every root find along every path. |
| Mapping.RemapAfterHiding | kernel/src/memory/page_table.rs:344-360 | A page hidden with `set_flags` and mapped again is mapped to the bitwise or of the old and the new frame, which is the frame asked for if and only if every bit of the old one is among its bits. |
| PageTable.OrIs | kernel/src/memory/page_table.rs:357-360 | A bit of the address written is set if and only if it is set in the old or in the new one. |
| Mapping.StaleBitsShow | kernel/src/memory/page_table.rs:344-360 | A page hidden on frame 1 and mapped again to frame 2 ends up on frame 3. |
| VirtualAddress.HalfIsIndex | kernel/src/memory/page_table.rs:559-564 | A canonical address is in the top half exactly when its level 4 index is at least 256. |
| VirtualAddress.IndicesAre | kernel/src/memory/page_table.rs:558-564 | The low 48 bits of an address are its four indices, each in its place, and its offset in the 4 KiB page. |
| VirtualAddress.TranslatedOffset | kernel/src/memory/page_table.rs:49-72 | The offset that a translation gives is that of the address in the page found, whatever its size. |
| VirtualAddress.SamePage | kernel/src/memory/page_table.rs:559-564 | Two canonical addresses agree on their leading indices exactly when they lie in the same page of the size those indices find. |
| VirtualAddress.MapToTranslates | kernel/src/memory/page_table.rs:74-127 | A successful `map_to` changes the translation of exactly the addresses of its page, in its own table and, for the top half, in all; a failed one changes none. |
| VirtualAddress.MapSizedTranslates | kernel/src/memory/page_table.rs:74-127 | Mapping a page of any size to an existing one of that size maps exactly its first 4 KiB. |
| VirtualAddress.MapsWholePageWhen | kernel/src/memory/page_table.rs:270-293 | When it reports success, the page is mapped throughout if and only if it is a 4 KiB page or all but its first 4 KiB were mapped before. |
| VirtualAddress.UnmapTranslates | kernel/src/memory/page_table.rs:158-197 | For a page of any size, given back or not, `unmap` removes the translation of exactly the addresses of its page when the page is mapped with that size, and of none otherwise. |
| VirtualAddress.SetFlagsTranslates | kernel/src/memory/page_table.rs:129-153 | `set_flags` changes only the flags, of exactly the addresses in the page that holds its address. |
| AddressSpaces.UnmapLowerHalfCorrect | kernel/src/memory/page_table.rs:202-209 | Clearing the lower half removes all lower translations and keeps all upper ones. |
| AddressSpaces.FillFromCorrect | kernel/src/memory/page_table.rs:214-235 | Filling the top half gives each of its entries a table, present and writable and nothing else, and changes no translation; it fails only when no frame is left. |
| FrameCounts.FillsWhen | kernel/src/memory/page_table.rs:214-235 | Filling succeeds if and only if there is a free frame for every absent entry. |
| AddressSpaces.CloneCorrect | kernel/src/memory/page_table.rs:38-45 | A clone of a table with an empty lower half translates every address as the original and joins the tables that share the top half; no other table changes. |
| AddressSpaces.CloneNoAlias | kernel/src/memory/page_table.rs:38-45 | With the clone among the roots, two of them still share a table only below the same top-half entry. |
| AddressSpaceRuns.CleanUpIsSound | kernel/src/memory/mapping.rs:60-71 | Clearing the lower half of the lone kernel table and filling its top half, when frames suffice, gives a sound family of one table with every top-half translation as it was. |
| AddressSpaceRuns.CleanUpPanicsWhen | kernel/src/memory/mapping.rs:60-71 | It panics if and only if there are fewer free frames than absent entries in the top half. |
| AddressSpaceRuns.MapSound | kernel/src/memory/mapping.rs:98-110 | Mapping in the kernel's top half or a clone's lower half keeps the family of tables sound. |
| AddressSpaceRuns.UnmapSound | kernel/src/memory/mapping.rs:123-141 | So does unmapping a page of any size, given back or not, as long as the bit cleared is not that of a table or of frame zero. |
| AddressSpaceRuns.SetFlagsSound | kernel/src/memory/mapping.rs:112-121 | So does changing flags. |
| AddressSpaceRuns.CloneKeepsSound | kernel/src/memory/mapping.rs:85-92 | So does cloning. |
| AddressSpaceRuns.StepSound | kernel/src/memory/mapping.rs:60-141 | Every operation keeps the family sound, and no table but the one it was called on changes any lower-half translation. |
| AddressSpaceRuns.PanicsWhen | kernel/src/memory/page_table.rs:38-45 | An operation panics if and only if it is to clone and every frame is in use. |
| AddressSpaceRuns.RunsKeepSpacesApart | kernel/src/memory/mapping.rs:60-141 | Over every run of top-half operations on the kernel's table, lower-half operations on clones and further clonings, all tables agree on every top-half address, a lower-half change shows in one table only, and the next operation panics if and only if it is to clone and every frame is in use. |
| Level4.Level4PageTable.TranslateAddress | kernel/src/memory/page_table.rs:49-72 | The walking loop computes the translation: it looks at the entries that the indices of the address name. |
| Level4.Level4PageTable.MapTo | kernel/src/memory/page_table.rs:74-127 | The loop that walks down and adds tables does what the functional `map_to` does to memory and allocator. |
| Level4.Level4PageTable.MapEntry | kernel/src/memory/page_table.rs:270-293 | The last level takes the frame given or allocates one, and writes the entry. |
| Level4.Level4PageTable.AddTable | kernel/src/memory/page_table.rs:427-443 | Adding a child table leaves the same mapping to be done one level down, or reports that no frame is left. |
| Level4.Level4PageTable.SetFlags | kernel/src/memory/page_table.rs:129-153 | The loop does what the functional `set_flags` does. |
| Level4.Level4PageTable.Unmap | kernel/src/memory/page_table.rs:158-197 | The loop does what the functional `unmap` does, freeing included. |
| Level4.Level4PageTable.UnmapLowerHalf | kernel/src/memory/page_table.rs:202-209 | The loop clears exactly entries 0 to 255. |
| Level4.Level4PageTable.FillTopHalfEntries | kernel/src/memory/page_table.rs:214-235 | The loop fills as the function does. |
| Level4.Level4PageTable.AllocateClone | kernel/src/memory/page_table.rs:38-45 | The clone is a copy of the level 4 table in a new frame. |
| Level4.PhysicalMemoryAllocator.AllocatePage | kernel/src/memory/physical.rs:82-105 | One frame, by first fit. |
| Level4.PhysicalMemoryAllocator.FreePage | kernel/src/memory/physical.rs:107-116 | The frame's number is its address divided by the page's own size, and one bit is cleared. |
| KernelStacks.GuardPages | kernel/src/sched/stack.rs:148-162 | `is_kernel_guard_page` holds exactly for the addresses in the first page of one of the 256 slots. |
| KernelStacks.SlotSpan | kernel/src/sched/stack.rs:112-136 | The pages of slot i, guard page and usable ones, are the addresses of the 64 KiB from i times 64 KiB into the region on. |
| KernelStacks.MapOneCorrect | kernel/src/memory/mapping.rs:98-110 | Mapping a free page of the region gives it a frame of its own or fails for want of one, and leaves the other pages alone. |
| KernelStacks.UnmapOneCorrect | kernel/src/memory/mapping.rs:136-141 | Unmapping a page gives back exactly its frame. |
| KernelStacks.MapPagesCorrect | kernel/src/memory/mapping.rs:98-110 | Mapping a range of free pages maps them all, or stops with every frame in use. |
| KernelStacks.UnmapPagesCorrect | kernel/src/sched/stack.rs:95-108 | Unmapping a range of mapped pages never fails. |
| KernelStacks.AllocateStackCorrect | kernel/src/sched/stack.rs:59-93 | Allocating takes the lowest free slot and maps its 15 pages, or says that every slot is taken, or stops with every frame in use; the panics on a mapped guard page and on a page already mapped are unreachable. |
| KernelStacks.AllocatesWhen | kernel/src/sched/stack.rs:59-93 | A stack is allocated if and only if a slot is free and there are 15 free frames and one for each table missing on the way to the lowest free slot; it takes exactly that many. |
| KernelStacks.FreeStackCorrect | kernel/src/sched/stack.rs:95-108 | Freeing a live stack never panics and leaves its slot wholly unmapped. |
| KernelStacks.NoStacksYet | kernel/src/sched/stack.rs:53-57 | A new allocator over an unmapped region is in order. |
| KernelStackRuns.StackRuns | kernel/src/sched/stack.rs:59-108 | Over every run of allocations and frees of stacks, in between which any page outside the stack region is mapped, unmapped, freed or given other flags, in any address space, and new ones are cloned, exactly the 15 usable pages of each live slot are mapped, each to a frame of its own that is no table, and the frames in use are those of others, the tables and these. The next operation panics if and only if it is to allocate a stack with every slot taken or fewer free frames than it takes, or to clone with every frame in use. |
| KernelStackRuns.NewTaskPanicsWhen | kernel/src/sched/task.rs:149-210 | Creating a task, which takes a stack and then a clone, panics if and only if every slot is taken or there are fewer free frames than the stack takes and one more; otherwise the stacks stay in order. |
| KernelStackRuns.BesideKeeps | kernel/src/memory/mapping.rs:85-141 | An operation on another page takes or gives back only frames that are no stack's and changes no page of the region. |
| KernelStackRuns.CloneTables | kernel/src/memory/page_table.rs:38-45 | The tables after a clone are those of before and the clone itself. |
| KernelStacks.GuardsTranslateToNothing | kernel/src/sched/stack.rs:148-162 | In every such state, in every address space, every guard page address translates to nothing. |
| KernelStacks.RegionTranslates | kernel/src/memory/mapping.rs:98-141 | Every address space translates the stack region as the kernel's does. |
| KernelStacks.StacksAreApart | kernel/src/sched/stack.rs:59-93 | Addresses in different usable pages of live stacks translate to different frames. |
| KernelStacks.AllFramesReturned | kernel/src/sched/stack.rs:95-108 | Once every stack is freed, the frames in use are those of others and the tables. |
| StackAllocator.KernelStackAllocator.Allocate | kernel/src/sched/stack.rs:59-93 | The method does what the function does to slots, tables and frames. |
| StackAllocator.KernelStackAllocator.MapAll | kernel/src/memory/mapping.rs:98-110 | The mapping loop maps the pages in order. |
| StackAllocator.KernelStackAllocator.Free | kernel/src/sched/stack.rs:95-108 | The method does what the function does. |
| RunQueueModel.Tasks.NewTask | kernel/src/sched/task.rs:32-49 | A new id was never used before. |
| RunQueueModel.Tasks.DeleteTask | kernel/src/sched/task.rs:68-73 | Exactly that id is forgotten. |
| RunQueueModel.RunQueue.RemoveKilledPendingTasks | kernel/src/sched/schedcore.rs:47-59 | The loop leaves the pending tasks that are not killed, in order, and deletes exactly the killed ones. |
| RunQueueModel.RunQueue.PopNextReadyPendingTask | kernel/src/sched/schedcore.rs:63-82 | The loop returns the first ready task and moves those passed over to the back, or leaves the queue as it was. |
| RunQueueModel.ReapedNoRepeats | kernel/src/sched/schedcore.rs:47-59 | Reaping keeps the queue free of repeats. |
| RunQueueModel.PopReadyNoRepeats | kernel/src/sched/schedcore.rs:63-82 | Popping keeps the queue free of repeats and takes out exactly the one returned. |
| RunQueueModel.PassedOver | kernel/src/sched/schedcore.rs:63-82 | A pass that returns another task brings a ready task at least one place nearer the front. |
| RunQueueModel.BoundedBypass | kernel/src/sched/schedcore.rs:47-82 | A ready task at position k is returned within the next k + 1 passes, whatever else sleeps, wakes, dies or arrives in between. |
| Scheduler.OwnKeeps | kernel/src/sched/schedcore.rs:177-199 | A step in which a processor changes only its own record, its own stack's task and the lock keeps the invariant of the whole system. |
| Scheduler.TaskSteps | kernel/src/sched/preempt.rs:35-48 | Guards, interrupt flags, going to sleep, being killed and the killed task's last call of the scheduler keep the invariant, and no assertion on the preemption count fails. |
| Scheduler.LockSteps | kernel/src/sync/spin_lock.rs:49-68 | Raising the preemption count, disabling interrupts and taking the run-queue lock break nothing. |
| Scheduler.UnlockKeeps | kernel/src/sync/spin_lock.rs:70-85 | The lock is released by a processor that holds it, whichever stack it is on by then. |
| Scheduler.RestoreKeeps | kernel/src/sync/spin_lock.rs:104-112 | Restoring interrupts breaks nothing. |
| Scheduler.SettleKeeps | kernel/src/sched/task.rs:271-278 | A first entry sets the count to zero, and a return drops the one guard it was switched away with. |
| Scheduler.AwakenStep | kernel/src/sched/schedcore.rs:360-366 | Awakening a task that exists, from a task or an interrupt handler, keeps the invariant. |
| Scheduler.CreateKeeps | kernel/src/sched/task.rs:32-49 | Creating a task, when there is a stack and frames for it, keeps the invariant; its id is new. |
| Scheduler.EnqueueKeeps | kernel/src/sched/schedcore.rs:156-165 | A task just made exists and is not queued yet, and queueing it breaks nothing. |
| Scheduler.DeleteKeeps | kernel/src/sched/schedcore.rs:47-59 | Deleting a killed task in the queue breaks nothing. |
| Scheduler.ReapKeeps | kernel/src/sched/schedcore.rs:47-59 | Every lookup of the reaping loop succeeds. |
| Scheduler.PickKeeps | kernel/src/sched/schedcore.rs:63-82 | Every lookup of the popping loop succeeds; where a pass that finds nothing goes on is stated by SchedulerSleep.PassFindsNothing. |
| Scheduler.DispatchKeeps | kernel/src/sched/schedcore.rs:236-296 | The lookups succeed, and the branch for switching to a task that is already current is unreachable. |
| Scheduler.SwitchKeeps | kernel/src/sched/schedcore.rs:177-199 | The stack pointer is saved into a task that still exists. |
| Scheduler.StepKeeps | kernel/src/sched/schedcore.rs:177-296 | In any state that satisfies the invariant, no step of any processor fails a lookup or assertion of the scheduler's own, and every step that does not panic keeps the invariant. |
| Scheduler.PanicIs | kernel/src/sched/schedcore.rs:328-366 | A step panics if and only if it awakens a task that is gone, creates one for which there is no kernel stack or frame, or is the return of a killed task's last call of the scheduler: at once, because a guard is held or the task is ready again within its time slice, or later, because it was dispatched again. |
| SchedulerRuns.RunsAreSound | kernel/src/sched/schedcore.rs:156-296 | Every state of every run, with any number of processors, satisfies the invariant, no step from it fails a lookup or assertion of the scheduler's own, and a step panics exactly under the three conditions above. |
| SchedulerRuns.StacksAreDistinct | kernel/src/sched/schedcore.rs:177-199 | Over every run, no two processors are on the same stack. |
| SchedulerRuns.DeletedOffStack | kernel/src/sched/schedcore.rs:44-59 | Over every run, a task that is deleted is on no processor's stack, current on none, and about to have registers saved into it by none. |
| SchedulerRuns.OneHolder | kernel/src/sync/spin_lock.rs:49-85 | Over every run, at most one processor is between taking and releasing the run-queue lock, with interrupts off, and every other acquisition has been released once. |
| SchedulerRuns.CountIsGuards | kernel/src/sched/preempt.rs:35-48 | Over every run, the preemption count of a processor equals the guards held on the stack it is on, and is not negative. |
| SchedulerRuns.PlacedOnce | kernel/src/sched/schedcore.rs:47-82 | Over every run, every live non-idle task is exactly one of: once in the queue, current on exactly one processor, just popped, just made. |
| SchedulerRuns.ReapLoopIs | kernel/src/sched/schedcore.rs:47-59 | Left alone, the reaping steps of a processor do what the reaping method does. |
| SchedulerRuns.PickLoopIs | kernel/src/sched/schedcore.rs:63-82 | Left alone, the picking steps do what the popping method does. |
| SchedulerProgress.QueueAfter | kernel/src/sched/schedcore.rs:47-82 | Whatever step any processor makes, a ready task in the queue stays ready, and unless it is popped it stays queued; only a look at the head moves entries, one at a time. |
| SchedulerProgress.NearerByLooks | kernel/src/sched/schedcore.rs:63-82 | Over every run, until it is popped, a ready task is one place nearer the front for every look at the queue by any processor, and every pass but possibly the last has looked. |
| SchedulerProgress.ReadyIsPopped | kernel/src/sched/schedcore.rs:63-82 | Over every run, a ready task at position k is popped within the next k + 1 passes made by any processors, whatever else is created, awakened, killed or reaped in between. |
| SchedulerProgress.PoppedIsDispatched | kernel/src/sched/schedcore.rs:236-296 | The processor that popped it is able to dispatch it until it does, and that makes it current. |
| SchedulerProgress.NeverStuck | kernel/src/sched/schedcore.rs:177-296 | Over every run, a processor in the scheduler can make its next step, or waits for the run-queue lock while the one that holds it can. |
| SchedulerExits.DeadStaysDead | kernel/src/sched/schedcore.rs:328-347 | A killed task in the queue stays so, or is gone, unless it is awakened. |
| SchedulerExits.KilledNeverDispatched | kernel/src/sched/schedcore.rs:328-347 | Over every run, a killed task that has been switched away from, and that nobody awakens, is never current again. |
| SchedulerExits.DispatchedOnlyIfAwakened | kernel/src/sched/schedcore.rs:360-366 | Over every run, if it is current again, it was awakened before it was deleted. |
| SchedulerExits.AwakenedIsDispatched | kernel/src/sched/schedcore.rs:360-366 | Over every run, a task awakened at position k of the queue, killed or not, is popped within the next k + 1 passes. |
| SchedulerExits.LeavingStep | kernel/src/sched/schedcore.rs:328-347 | A task that is killed and leaving stays so, on the stack it is on or in the queue, until it is deleted or awakened. |
| SchedulerExits.KillPanicsWhen | kernel/src/sched/schedcore.rs:328-347 | Over every run, a killed task that nobody awakens does not come back from the scheduler, and its last call of it panics at once if and only if a guard is held. |
| SchedulerExits.AwakenedNeverDeleted | kernel/src/sched/schedcore.rs:47-59 | Over every run, a killed task that is ready again is never deleted. |
| SchedulerExits.PoppedExitPanics | kernel/src/sched/schedcore.rs:328-347 | When such a task has been popped, its processor goes on to the panic at the end of `kill_current_task`. |
| SchedulerSleep.ParkedStep | kernel/src/sched/schedcore.rs:236-255 | Whatever step any processor makes, a sleeping task in a call of the scheduler, or switched away from, does not get back to its own code unless it is awakened. |
| SchedulerSleep.SleepsOn | kernel/src/sched/schedcore.rs:351-366 | Over every run it stays so until it is awakened. |
| SchedulerSleep.SleeperWaits | kernel/src/sched/schedcore.rs:351-366 | Over every run, a task that marked itself asleep and then called the scheduler is not back at its own code, nor on the way, before somebody awakens it. |
| SchedulerSleep.PassFindsNothing | kernel/src/sched/schedcore.rs:236-255 | Over every run, a pass that sees no ready task goes back to the task it was called by if that was ready when the pass began or is the idle task, and otherwise goes on to the idle task. |
| SchedulerSleep.InterruptsComeBack | kernel/src/sync/spin_lock.rs:49-112 | Over every run, a task that took the run-queue lock gets its interrupt flag back as it was, on whichever processor and whenever it comes back. |
| SchedulerTraces.KilledComesBack | kernel/src/sched/schedcore.rs:360-366 | There is a run in which a killed task waiting to be reaped is awakened, becomes current again and panics. |
| SchedulerTraces.AwakeningCanPanic | kernel/src/sched/task.rs:55-60 | There is a run after which awakening a task that was made and has ended panics. |
| WaitCells.NextKeeps | kernel/src/sync/wait_cell.rs:28-55 | Every step of the sender, of any waiter, of the scheduler and of others that does not panic keeps the invariant and the value. |
| WaitCells.ReturnsWhatWasSent | kernel/src/sync/wait_cell.rs:37-55 | In every run, every waiter that returns, whether it has ended since or not, returned the value sent and was awake. |
| WaitCells.LostByPreemptionOnly | kernel/src/sched/schedcore.rs:351-366 | A waiter becomes lost in a step if and only if that step preempts it while it is marked asleep and the sender is not going to wake it. |
| WaitCells.LostForGood | kernel/src/sync/wait_cell.rs:37-55 | Once lost it stays so until someone else wakes it. |
| WaitCells.NoLostWakeup | kernel/src/sync/wait_cell.rs:28-55 | In every run in which no waiter is cut off like that, with any number of waiters, none is lost, and once the sender is done none is asleep off its processor. |
| WaitCells.CutOffIsFatal | kernel/src/sync/wait_cell.rs:28-55 | Conversely one that is cut off never returns, the sender's finish included, unless someone else wakes it. |
| WaitCells.WakeupCanBeLost | kernel/src/sync/wait_cell.rs:37-55 | A run that loses a wakeup. |
| WaitCells.ReturnsSoon | kernel/src/sync/wait_cell.rs:37-55 | In every run in which no waiter is cut off, once the sender is done, a waiter returns after at most six steps of its own and can make the next one until it does. |
| WaitCells.DoomedWhen | kernel/src/sync/wait_cell.rs:28-34 | The sender comes to have a wake ahead that panics when a waiter ends while on its list, and by nothing else; it then never finishes. |
| WaitCells.DrainPanicsWhen | kernel/src/sync/wait_cell.rs:28-34 | Left alone, draining the list panics if and only if a waiter on it has ended. |
| WaitCells.SendPanicsOnlyWhen | kernel/src/sync/wait_cell.rs:28-34 | Over every run, a panic of the sender lies ahead if and only if some waiter ended while listed, it can then not finish, and no other step of the sender panics. |
| WaitCells.SendCanPanic | kernel/src/sync/wait_cell.rs:28-34 | There is a run in which the sender panics. |
| WaitCells.CellIsUsed | kernel/src/sync/once_cell.rs:73-79 | The waiter's two steps, checking and reading, give what `get_clone` gives, and the sender's two writes leave what `set` leaves. |
| OnceCells.OnceCell.Set | kernel/src/sync/once_cell.rs:34-38 | Storing into a cell that is not ready makes it ready with that message. |
| OnceCells.OnceCell.GetOnce | kernel/src/sync/once_cell.rs:47-56 | Takes the message out of a ready cell and leaves the cell not ready and empty; gives nothing otherwise. |
| OnceCells.StoredOnce | kernel/src/sync/once_cell.rs:34-79 | What `set` stored, `get_clone` gives any number of times and `get_once` gives once, after which both give nothing. |
| OnceChannels.RunKeeps | kernel/src/sync/once_channel.rs:42-75 | In every run the message is in one place: unsent, in the cell or received. |
| OnceChannels.DeliversWhatWasSent | kernel/src/sync/once_channel.rs:42-75 | The receiver returns only the message sent, not before it is published and once; the assertion of `set` always holds. |
| OnceChannels.LostByPreemptionOnly | kernel/src/sync/once_channel.rs:62-75 | The receiver becomes lost if and only if it is preempted while marked asleep after the send has finished. |
| OnceChannels.NotLeftAsleep | kernel/src/sync/once_channel.rs:62-75 | In every run without that it is never left asleep after the send. |
| OnceChannels.CutOffIsFatal | kernel/src/sync/once_channel.rs:62-75 | With it, it never returns unless someone else wakes it. |
| OnceChannels.ReturnsSoon | kernel/src/sync/once_channel.rs:62-75 | In every run without that, once the send is done, the receiver returns after at most five steps of its own and can make the next one until it does. |
| OnceChannels.SendPanicsWhen | kernel/src/sync/once_channel.rs:42-47 | Over every run, the sender's wake panics, and the send then never finishes, if and only if the receiver ended before it. |
| OnceChannels.SendCanPanic | kernel/src/sync/once_channel.rs:42-47 | There is a run in which it does. |
| OnceChannels.CellIsUsed | kernel/src/sync/once_cell.rs:47-56 | The receiver's two steps, clearing the flag and taking, give what `get_once` gives, and the sender's two writes leave what `set` leaves. |
| VirtQueues.SlotOfWrapped | kernel/src/virtio/queue.rs:115-131 | Because the size is a power of two, the slot of the wrapped 16-bit counter is the slot of the unbounded count. |
| VirtQueues.SlotsDiffer | kernel/src/virtio/queue.rs:120-131 | Any `size` consecutive counts have different slots. |
| VirtQueues.AddedChain | kernel/src/virtio/queue.rs:264-301 | Adding a chain that fits writes it from the next slot on, each descriptor pointing to the next and only the last not continuing, and changes no other descriptor. |
| VirtQueues.ChainYields | kernel/src/virtio/queue.rs:338-357 | The iterator started at the head yields exactly the elements added, in order, and ends. |
| VirtQueues.ChainLasts | kernel/src/virtio/queue.rs:264-301 | The chain stays whole while it and everything added after it fit in one lap of the table. |
| VirtQueues.VirtQueueData.constructor | kernel/src/virtio/queue.rs:24-32 | A new queue holds no data and all its counters are zero. |
| VirtQueues.VirtQueueData.AddDescriptor | kernel/src/virtio/queue.rs:264-301 | The loop writes the chain as the function does, returns its head and advances the counter; it panics exactly on an empty chain or an indirect element. |
| VirtQueues.VirtQueueData.AddBuffer | kernel/src/virtio/queue.rs:42-57 | The chain is written, then the data is stored at its head, then the head is published; it panics exactly when that head still holds data or the chain is refused. |
| VirtQueues.VirtQueueData.ProcessNewEntries | kernel/src/virtio/queue.rs:59-69 | The loop reports each entry up to the used index with its chain and its data, which it takes. |
| VirtQueueRuns.HeadIsFree | kernel/src/virtio/queue.rs:42-57 | The head a chain gets holds no data, so the assertion in `add_buffer` holds. |
| VirtQueueRuns.AddKeeps | kernel/src/virtio/queue.rs:42-57 | Adding a chain within one lap of the oldest open request neither panics nor disturbs any open request or any entry the device has still to take. |
| VirtQueueRuns.TakeKeeps | kernel/src/virtio/queue.rs:463-475 | The device reads the head of the request it is up to, however often the index has wrapped. |
| VirtQueueRuns.UsedFits | kernel/src/virtio/queue.rs:541-597 | The used ring always has room for one more completion. |
| VirtQueueRuns.CompleteKeeps | kernel/src/virtio/queue.rs:541-597 | A completion overwrites no entry that was not processed. |
| VirtQueueRuns.ToldKeeps | kernel/src/virtio/queue.rs:181-193 | The next entry is reported with its own data and chain, and the other requests stay as they were. |
| VirtQueueRuns.EntryKeeps | kernel/src/virtio/queue.rs:165-179 | In the middle of a pass, whatever the device has done since it began, the next entry exists and processing it keeps the invariant. |
| VirtQueueRuns.ProcessesAll | kernel/src/virtio/queue.rs:165-179 | A pass begun before the used index wraps reports all completions there are. |
| VirtQueueRuns.PassIsProcess | kernel/src/virtio/queue.rs:165-179 | A pass that the device does not interrupt does what the method does. |
| VirtQueueRuns.PassReportsAll | kernel/src/virtio/queue.rs:165-179 | Over every run through a pass, with device steps anywhere in it, the driver has at its end been told of exactly the completions that were there when it began. |
| VirtQueueRuns.StepKeeps | kernel/src/virtio/queue.rs:42-69 | No allowed step of driver or device makes the driver panic, and each keeps the invariant. |
| VirtQueueRuns.RunsDeliver | kernel/src/virtio/queue.rs:42-69 | Over every run, with device steps between any two entries of a pass, each report is of a different completed request, in order of completion, with its own data, length and chain, and a head holds data exactly while a request at it is open. |
| VirtQueueRuns.CollectsAllWhen | kernel/src/virtio/queue.rs:165-179 | Processing reports all new completions if and only if fewer than 65536 were made since the start, which is when the used index is not below the last one processed. |
| VirtQueueRuns.CrossingLosesBatch | kernel/src/virtio/queue.rs:165-179 | Otherwise it reports none, counts them as processed and leaves their data, so that a later chain at such a head panics. |
| VirtQueueRuns.LossIsReachable | kernel/src/virtio/queue.rs:165-179 | There is a run, of any queue, that ends so. |
| VirtQueueRuns.OverlapGoesUnnoticed | kernel/src/virtio/queue.rs:42-57 | A chain that reaches around the table overwrites an open request without a panic. |
| VirtQueueRuns.LapIsNeeded | kernel/src/virtio/queue.rs:42-57 | In every reachable state, a chain that goes beyond one lap of an open request and is not refused overwrites that request's head, so that its chain can no longer be read. |
| ByteFields.WriteBytes | kernel/src/fs/ext2/directory.rs:80-88 | The copy overwrites exactly its stretch. |
| ByteFields.LittleEndian | kernel/src/fs/ext2/inode.rs:6-32 | Numbers are stored with the least significant byte first. |
| Ext2Directory.RequiredSpace | kernel/src/fs/ext2/directory.rs:176-179 | The space of a record is at least header and name, and less than four bytes more. |
| Ext2Directory.HeaderReads | kernel/src/fs/ext2/directory.rs:142-168 | The fields of a header read back from its bytes, the name's length modulo 256. |
| Ext2Directory.HeaderLayout | kernel/src/fs/ext2/directory.rs:143-150 | The header byte by byte: inode number, record length, length of the name, type. |
| Ext2Directory.CutRecord | kernel/src/fs/ext2/directory.rs:68-76 | The old record is cut to what it needs and its entry reads as before. |
| Ext2Directory.NewRecord | kernel/src/fs/ext2/directory.rs:78-88 | The new record lies between the cut one and where the old one ended, and reads as the new entry. |
| Ext2Directory.InsertedFrom | kernel/src/fs/ext2/directory.rs:49-93 | Parsing the block again gives the old entries in order with the new one right behind the one whose slack it took, and the records still tile the block. |
| Ext2Directory.InsertAdds | kernel/src/fs/ext2/directory.rs:49-93 | Insertion keeps the known locations a permutation of those of the records, all of them aligned to four bytes. |
| Ext2Directory.InsertFailsWhen | kernel/src/fs/ext2/directory.rs:57-66 | Insertion fails exactly when every record on the disk is shorter than what it needs and what the new one does. |
| Ext2Directory.KnownAfter | kernel/src/fs/ext2/directory.rs:90-93 | The known locations then give the old entries in their order with the new one right before the one whose slack it took. |
| Ext2Directory.LookupIs | kernel/src/fs/ext2/directory.rs:43-47 | Walking the known locations, in whatever order, finds exactly the entries on the disk. |
| Ext2Directory.InsertionsKeepEntries | kernel/src/fs/ext2/directory.rs:49-93 | Over any sequence of insertions the entries are the first ones, still in their order, and those accepted, none lost and none repeated. |
| Ext2Directory.NameReadsBackWhen | kernel/src/fs/ext2/directory.rs:153-161 | A name reads back if and only if it is shorter than 256 bytes. |
| Ext2Directory.DirectoryBlock.constructor | kernel/src/fs/ext2/directory.rs:21-36 | The parsing loop finds the records of a tiled block in order. |
| Ext2Directory.DirectoryBlock.FindRoom | kernel/src/fs/ext2/directory.rs:57-66 | The search returns the first known location with room. |
| Ext2Directory.DirectoryBlock.WriteEntry | kernel/src/fs/ext2/directory.rs:68-88 | The writes do to the bytes what the function does. |
| Ext2Directory.DirectoryBlock.InsertEntry | kernel/src/fs/ext2/directory.rs:49-93 | The method inserts as the function does, and the entry can be read at the location returned. |
| Ext2Bitmap.SetsOnlyThat | kernel/src/fs/ext2/block_group.rs:86-91 | Or-ing a mask into a byte sets that bit and no other. |
| Ext2Bitmap.UsedIs | kernel/src/fs/ext2/block_group.rs:72-77 | Entry i is the bit of value two to the i % 8 of byte i / 8. |
| Ext2Bitmap.ReservesOnlyThat | kernel/src/fs/ext2/block_group.rs:81-95 | Reserving an entry sets its bit and no other in the bitmap. |
| Ext2Bitmap.IsUsed | kernel/src/fs/ext2/block_group.rs:72-77 | Answers for exactly the entries the bitmap has. |
| Ext2Bitmap.Bitmap.ReserveNextFree | kernel/src/fs/ext2/block_group.rs:81-95 | Returns and sets the lowest clear bit, or nothing exactly when every bit is set. |
| Ext2Inodes.NumberOfLocation | kernel/src/fs/ext2/superblock.rs:117-135 | The number of the location of a number is that number, one more than the group times the inodes per group and the index. |
| Ext2Inodes.LocationOfNumber | kernel/src/fs/ext2/superblock.rs:117-135 | The location of the number of a group and index is them again if and only if the index is below the inodes per group. |
| Ext2Inodes.SlotAddress | kernel/src/fs/ext2/superblock.rs:141-152 | Block and offset are where so many records from the beginning of the table end. |
| Ext2Inodes.InodeIsAt | kernel/src/fs/ext2/file_system.rs:110-126 | What is read of an inode are the bytes from so many records into its group's table on. |
| Ext2Inodes.SlotInTable | kernel/src/fs/ext2/superblock.rs:141-152 | An inode's record lies in the group's table, within one block. |
| Ext2Inodes.SlotsApart | kernel/src/fs/ext2/superblock.rs:141-152 | Records of different inodes of a group do not overlap. |
| Ext2Inodes.WriteThenRead | kernel/src/fs/ext2/file_system.rs:110-178 | An inode can be written exactly when it can be read, and then reads back as written. |
| Ext2Inodes.OthersReadSame | kernel/src/fs/ext2/file_system.rs:156-178 | Every other inode of the volume reads as before. |
| Ext2Inodes.WriteUpdates | kernel/src/fs/ext2/file_system.rs:156-178 | Writing is updating the map from numbers to inodes at a key that is there. |
| Ext2Inodes.ReserveReads | kernel/src/fs/ext2/file_system.rs:266-276 | Reserving makes exactly that inode readable and changes no record. |
| Ext2Inodes.CreatedInode | kernel/src/fs/ext2/file_system.rs:266-323 | The number a new file gets was unused and passes the assertion on writing; its inode reads back and every other reads as before. |
| Ext2Inodes.CreateExtends | kernel/src/fs/ext2/file_system.rs:266-323 | Creating adds a key that was not there to the map, and keeps the padding bits set. |
| Ext2Inodes.NoFreeInodeWhen | kernel/src/fs/ext2/file_system.rs:270-275 | It fails for want of an inode exactly when all inodes of the parent's group are used. |
| Ext2Inodes.NoGroupWhen | kernel/src/fs/ext2/file_system.rs:266-276 | It finds no group exactly when the parent's number is beyond the last group. |
| Ext2Inodes.CreatesWhen | kernel/src/fs/ext2/file_system.rs:266-323 | It succeeds exactly when the parent's group is there and has an inode that is not used, and takes the first such. |
| Ext2Inodes.FileSystem.ReadInode | kernel/src/fs/ext2/file_system.rs:110-126 | The method reads what the function says. |
| Ext2Inodes.FileSystem.WriteInode | kernel/src/fs/ext2/file_system.rs:156-178 | The method writes what the function says, and panics exactly when the inode is not used. |
| Ext2Inodes.FileSystem.CreateInode | kernel/src/fs/ext2/file_system.rs:266-323 | The method reserves and writes as the function says. |
| Ext2Files.NextBlock | kernel/src/fs/ext2/superblock.rs:328-352 | The block returned is the next one of the table that is not a hole. |
| Ext2Files.FieldsRead | kernel/src/fs/ext2/inode.rs:6-44 | The fields of an inode are read from where the record stores them, in the order of the record; a regular file is one whose mode has that bit. |
| Ext2Files.WriteFills | kernel/src/fs/ext2/vfs.rs:111-133 | Each block the data reaches holds its part, padded with zeros, what is written is all of the data or as much as the file's blocks hold, and no other block of the disk changes. |
| Ext2Files.WriteStores | kernel/src/fs/ext2/vfs.rs:102-140 | After a write the data is in the file's blocks and the inode on the disk is the one with the new size. |
| Ext2Files.WriteFailsWhen | kernel/src/fs/ext2/vfs.rs:102-140 | For a file without holes in blocks of its own, a write panics exactly when it is not a regular file, the data is longer than its blocks, or its inode is not in use. |
| Ext2Files.SizeLowWritten | kernel/src/fs/ext2/vfs.rs:135-137 | Setting the size changes no other field that is read. |
| Ext2Reads.ReadAligned | kernel/src/fs/ext2/vfs.rs:75-93 | From the beginning of a block the loop copies exactly the file's bytes up to the end. |
| Ext2Reads.ReadRightWhen | kernel/src/fs/ext2/vfs.rs:59-93 | The loop copies exactly the bytes between offset and end if and only if the offset begins a block, or at least a block's length is to be read, or the offset lies in no block that is read. |
| Ext2Reads.UnalignedReadIsShort | kernel/src/fs/ext2/vfs.rs:83-85 | For any block size of at least 1024 bytes, a read of a file from its second byte to the end of its first block gives one byte fewer than asked for. |
| Ext2Reads.ReadChunk | kernel/src/fs/ext2/vfs.rs:59-100 | A read at the beginning of a block returns the bytes asked for and says whether the file ends there. |
| Ext2ReadAll.InnerChunk | kernel/src/fs/ext2/vfs.rs:75-93 | A chunk that begins inside a block gives nothing when it is the block's second and whole, and panics otherwise. |
| Ext2ReadAll.ReadAllRightWhen | kernel/src/vfs/fs.rs:62-79 | For every block size, reading in chunks gives the file if and only if the same holds of the file's bytes. |
| Ext2ReadAll.HalfIsLost | kernel/src/vfs/fs.rs:62-79 | Of a file of one block of 8192 bytes the first half is given, without an error. |
| Ext2ReadAll.SomeDataIsLost | kernel/src/vfs/fs.rs:62-79 | With blocks of more than 4096 bytes, for every length above 4096 there is data that is not given back. |
| Ext2ReadAll.WriteThenReadAll | kernel/src/fs/ext2/vfs.rs:59-140 | For a regular file without holes in at most twelve blocks of its own, on a volume of any block size, writing data that fits and then reading all of it, from the inode in memory or from the one on the disk, gives the data if and only if a block is no larger than 4096 bytes, or the data is not, or blocks have 8192 bytes, the data has zeros in every second half of a block and ends in a first half. |
| Ext2Vfs.InodeBlockIterator.Next | kernel/src/fs/ext2/superblock.rs:328-352 | The loop returns the next block that is not a hole and advances past it. |
| Ext2Vfs.FillBlock | kernel/src/fs/ext2/vfs.rs:117-125 | The loop fills the block with what is left of the data and zeros. |
| Ext2Vfs.VFSInode.WriteBlocks | kernel/src/fs/ext2/vfs.rs:111-133 | The loop over the file's blocks writes as the function does. |
| Ext2Vfs.VFSInode.Write | kernel/src/fs/ext2/vfs.rs:102-140 | The method writes blocks and inode as the function does, and panics exactly when it does. |
| Ext2Vfs.VFSInode.ReadLoop | kernel/src/fs/ext2/vfs.rs:72-93 | The loop copies into the buffer what the function returns and leaves the rest of it alone. |
| Ext2Vfs.VFSInode.Read | kernel/src/fs/ext2/vfs.rs:59-100 | The method returns what the function does, with the bytes at the front of the buffer. |
| Ext2Vfs.VFSInode.ReadAll | kernel/src/vfs/fs.rs:62-79 | The loop of chunks returns what the function does. |

## Left out

- Assembly, CR3, TLB and MSR access, descriptor tables and memory barriers: hardware effects. Switching stacks is one step.
- Boot: `start_scheduler` and its unconditional unlock. Scheduler runs begin with every processor on its idle task.
- `Mutex`: its guard wakes waiters before the inner lock is released, so a wakeup can come too early.
- Nested interrupt guards of device drivers: guards are taken and dropped by the code that owns them, in balance.
- The lifetime of `Arc`-held task records and exit codes of killed tasks.
- Time slices, timers, the flag that asks for a reschedule, and interrupt delivery beyond the points at which they may preempt.
- Level4.Level4PageTable.MapTo: the loop takes pages of 4 KiB; what `map_to` does with a size is stated of the function MapSized.
- The range checks of `KernPhysAddr` and the physical mapping offset: a frame is named by its number.
- Identity mapping, the kernel heap, ACPI, PCI, interrupts, graphics, the serial console and the shell.
- Device initialisation, feature negotiation and notification of VirtIO, and the block and random-number drivers on top of queues.
- Indirect blocks, sparse files and growing a file in ext2, which the source does not finish; reads are modelled for files in direct blocks.
- Reservation of data blocks in `create_file`, which ignores the group's offset, and the free counts in superblock and group descriptors.
- Mounting an ext2 volume: superblock fields, descriptor table sizing and the mount count. A mounted volume is one whose tables and bitmaps lie apart on the disk.
- The file types and permissions of inodes beyond being a regular file, and UTF-8 decoding of names.
- `FilePath` parsing, the traversal of a path through directories and mount points, and the FAT and sysfs file systems: what a path names, and what `.` and `..` mean, is not modelled; a lookup is of one name in one ext2 directory block.
- Ext2Directory.DirectoryBlock.InsertEntry: requires a name shorter than 256 bytes; what a longer one does to its own record is stated by NameReadsBackWhen, what it does to the bytes behind the record is not.
- Ext2Directory.DirectoryBlock.constructor: requires a block tiled by records, as the source's own documentation does; the loop does not end on a record length of zero.
- Ext2Inodes.FileSystem.CreateInode: covers the reservation and the writing of the inode; the directory entry is inserted by InsertEntry, and the two are not combined.
- Ext2ReadAll.WriteThenReadAll: asks that the file's blocks are also apart from the inode bitmaps, since the write consults the bitmap after the data is on the disk.
- VirtQueues.VirtQueueData.ProcessNewEntries: returns the reports in a sequence instead of calling a closure for each.
- VirtQueueRuns.AddKeeps: adding a chain is one step of the runs; the order of its writes, the head published last, is that of AddBuffer.
- KernelStacks.AllocateStackCorrect: nothing is said of the state after the panic for want of a frame.
- WaitCells.NoLostWakeup: the processors on which waiters run are not named; being switched away is a step of the waiter.
