# Verified model of the MachaOS kernel core

A Dafny model of the memory, filesystem, process and scheduling layers of MachaOS, a small
x86_64 kernel, with proofs of what those layers promise. `dafny verify dfyconfig.toml` checks
everything.

The model follows the kernel's own structure:

- **Physical memory** (`Pmm.dfy`): the frame bitmap, as the set of free frames.
- **Address spaces** (`PageTable.dfy`, `Paging.dfy`, `AddressSpace.dfy`, `ProcessMemory.dfy`,
  `Process.dfy`, `Views.dfy`, `Spawn.dfy`, `Reach.dfy`, `System.dfy`, `Machine.dfy`, `Runs.dfy`,
  `History.dfy`): table frames are arrays of 512 entries, pages and frames are numbered, and
  `PageTable.Walk` is the four-level translation with the rights of all levels combined (Intel SDM
  volume 3A, sections 4.5 and 4.6). Every operation is an exact update of that function. `System` is the invariant of all processes, shared objects, the
  kernel and the allocator together, `Machine` the state their operations change, `Runs` the
  operations in any order, each state with what led to it, and `History` what that means for a process.
- **Kernel heap** (`Heap.dfy`): the free list in raw memory against an exact tiling.
- **FAT32** (`Fat.dfy`, `FatVolume.dfy`, `Directory.dfy`, `LongName.dfy`, `FatFiles.dfy`,
  `Insertion.dfy`, `FatEntries.dfy`, `Lookup.dfy`, `FatOps.dfy`): chains,
  the write-back table cache, file data over sectors, the byte-level directory scan and the
  long-name encoding (Microsoft FAT32 File System Specification 1.03, sections "FAT Data Structure"
  and "FAT Long Directory Entries"). Reads and writes of a sector may fail at any point, and a
  failed write may leave anything in its sector.
- **Shared memory and descriptor passing** (`Shm.dfy`, `Sockets.dfy`, `FdPassing.dfy`): reference
  counts against descriptor tables, messages in flight and kernel receivers.
- **Scheduler** (`Scheduler.dfy`): round robin, CR3 and FS base as variables, interrupts as atomic
  steps.
- **Program loading** (`Bytes.dfy`, `Elf.dfy`, `Image.dfy`, `Loader.dfy`, `StackLayout.dfy`,
  `LinuxStack.dfy`, `Exec.dfy`): parsing, segment bytes and permissions, and the initial stack of section 3.4 of
  the System V AMD64 psABI, read back through the process's page table.
- **Scaler** (`Scaler.dfy`): the row-cached bilinear scaler against the per-pixel formula.

Objects the kernel updates in place are classes; pure logic is functions and lemmas. A ghost
parameter or field named `chains`, `live`, `role` or `hand` carries what an operation's promise is
about: the chains of the table, the frames of live shared objects, which table a frame is, the
references a call is moving.

Where the code and its comments differ, the model follows the code:

- `remove_process` keeps the running task's index only in the cases `Scheduler.RemoveKeepsCurrent`
  states; `Scheduler.RemoveMisplaces` is a table on which it does not (src/task.rs:481-487).
- `find_free_run` reports an offset without the sector's number in its cluster
  (src/fat.rs:505-517), so with several sectors per cluster the slots may be written over other
  entries. `FatEntries.SurvivesExactly` says exactly when nothing is lost, `FatEntries.LossPossible`
  gives a directory that loses an entry.
- A name whose length is a multiple of 13 has no terminator, so long-name slots left over right
  before it become part of its name (`LongName.NameRoundTrip`, `LongName.FullPartRunsOn`). Non-ASCII
  characters are truncated to 16 bits: a valid name can be shown as "." and then is not listed
  (`LongName.HighDotUnlisted`).
- Growing the stack after its reserved range was unmapped maps frames the process no longer owns
  (`Reach.GrowAfterUnmap`); `Reach.GrowExactly` says when growth is in order.
- An entry for which a directory grows stands behind any end mark left in its last sector, and then is
  never listed (`FatEntries.GrownHides`, `FatEntries.HiddenPossible`); `FatOps.EnteredIsFound` says
  exactly when an entered name is found again.
- A directory that cannot be read counts as one without the name (src/fat.rs:345-349), so writing a file
  or making a directory then enters a name that may exist already (`Lookup.FindDirEntry`).
- Allocation is bounded by the table, which may have more entries than the volume has clusters
  (src/fat.rs:298-307): `FatVolume.AllocExactly` says when a cluster lies within the volume,
  `FatVolume.ThirdBehindEnd` is a run on which one does not.
- Freeing or moving the frames of a shared object that a process still reaches, because mappings are
  not references, breaks the system's invariant: exactly then (`Machine.CloseExact`,
  `Machine.MoveExact`), and `Reach.FreedWhileMapped` and `Reach.MovedWhileMapped` are runs that do it.
- Segments are validated one by one, but loaded as one block, which can cover the reserved stack pages
  that each segment avoids (`Exec.ImageSpan`, `Exec.SpanCrosses`).
- The scaler's positions are right only while their 64-bit products fit (`Scaler.LastAtLast`); that
  matters to the 32-bit domain of the function alone, since images as wide as in `Scaler.PositionWraps`
  do not fit in the kernel's heap.

The runs of `Runs.RunAll` stop before the first operation that is not harmless: a `munmap` over the
whole stack region, the last close or the growth of a shared object some process reaches, a page of
the kernel's own map for ring 3 (as the system-call self-test maps for a moment). Everything else may
follow in any order, with any arguments and any failure.

## Model

| member | source | states |
|---|---|---|
| `Pmm.FrameBitmap.Init` | src/pmm.rs:92-128 | after boot exactly the frames wholly inside a usable region above 1 MiB, outside the kernel image and not below 64 MiB, are free, and all of them are at or below the last usable frame |
| `Pmm.UsableIs` | src/pmm.rs:96-116 | a frame is made usable if and only if some usable region starting above 1 MiB contains all of it |
| `Pmm.FrameBitmap.MarkReserved` | src/pmm.rs:72-86 | every frame the byte range touches leaves the free set and no other does |
| `Pmm.FrameBitmap.FrameAlloc` | src/pmm.rs:131-145 | the lowest free frame is taken; None exactly when none is free up to the last usable one |
| `Pmm.FrameBitmap.AllocContiguous` | src/pmm.rs:147-175 | first fit: the lowest run of `count` free frames is taken, None exactly when there is none or none was asked for, nothing else changes |
| `Pmm.FrameBitmap.FindRun` | src/pmm.rs:147-175 | the scan with run_start and run_len finds the lowest run, or proves there is none |
| `Pmm.FrameBitmap.FrameFree` | src/pmm.rs:177-185 | frees exactly the addressed frame; misaligned and out-of-range addresses are ignored |
| `Pmm.BitOps` | src/pmm.rs:57-67 | setting and clearing one bit of a bitmap byte leaves the seven others alone |
| `PageTable.WalkIsLeaf` | src/paging.rs:81-150 | in a well-formed tree the four-level walk, with rights combined over all levels, gives exactly the leaf entry's frame and rights |
| `PageTable.PromoteKeepsWalks` | src/paging.rs:92-130 | raising the USER bit of upper entries keeps the tree and changes no page's effective permissions |
| `PageTable.SplitKeepsWalks` | src/paging.rs:125-150 | replacing a 2 MiB entry by a table of 512 entries leaves every translation and permission as it was |
| `Paging.PageTables.Boot` | src/main.rs:105-130 | the boot tables form a well-formed tree that maps the first 4 GiB to themselves, writable, supervisor-only |
| `Paging.PageTables.PtEntry` | src/paging.rs:81-150 | finds the page's table entry, splitting on demand: the tree stays well formed, no translation changes, only frames taken from the free set become tables; the missing-directory branch cannot be reached |
| `Paging.PageTables.MapRange` | src/paging.rs:159-193 | on success each page of the range translates to phys plus offset with exactly the requested permissions over all four levels and every other page below 4 GiB, also in split 2 MiB entries, is unchanged; on failure only a prefix changed |
| `Paging.PageTables.UnmapRange` | src/paging.rs:201-226 | every page outside the range translates as before and every page inside as before or to nothing; all of them to nothing when they are split already (then no frame is taken) or a frame is left to split with; the frames taken are those the caller loses |
| `Paging.PageTables.MapPage` | src/paging.rs:232-249 | one page of the kernel's map becomes exactly the requested translation, or nothing changes; failure within bounds only when no frame is left to split with |
| `Paging.PageTables.UnmapPage` | src/paging.rs:254-268 | one page of the kernel's map translates to nothing and all others as before |
| `AddressSpace.BuildAddressSpace` | src/process.rs:833-891 | a deep copy whose every translation is the kernel's, in table frames that were free; None only when frames ran out, with every frame taken recorded |
| `AddressSpace.CopyWalk` | src/process.rs:848-891 | the copy translates every address as the kernel's map does, without user access |
| `AddressSpace.CopyTree` | src/process.rs:848-891 | the copy is a well-formed tree of its own if and only if the kernel's map has no user page |
| `ProcessMemory.MapKeeps` | src/process.rs:374-540 | mapping fresh own frames keeps the ownership invariant of a process |
| `ProcessMemory.DropKeeps` | src/process.rs:544-570 | dropping a recorded range keeps the ownership invariant |
| `Reach.TranslateIsWalk` | src/process.rs:359-363 | while list and page table agree, each byte of an answer of translate_local on a page ring 3 can reach is the byte the page walk leads to |
| `Reach.TranslateFrom` | src/process.rs:359-363 | an answer of translate_local comes from a recorded range that holds the whole request |
| `System.BootAccounted` | src/main.rs:105-130 | the state after boot, with no process and no shared object, satisfies the system invariant |
| `FatVolume.Mount` | src/fat.rs:89-140 | a volume is refused only for an invalid boot sector or a failing read; one that is mounted has the boot sector's geometry and the disk's table, and meets the volume invariant if and only if the geometry is good and the table well formed |
| `FatVolume.MountAgain` | src/fat.rs:113-140 | mounting the disk of a completely flushed volume gives a valid volume with the same table and free count |
| `FatVolume.BootIsGood` | src/fat.rs:93-113 | without wrap-around an accepted volume has the geometry all other promises need if and only if it has a table copy, no more entries than cluster numbers and all sectors below 2^32 |
| `Process.Proc.Brk` | src/process.rs:374-411 | the break moves exactly when all pages it needs beyond those already there could be mapped, writable and not executable, on frames that were free; a failed growth leaves a mapped prefix and no record; ownership is kept and only this process's tables change |
| `Process.Proc.Mmap` | src/process.rs:444-495 | maps fresh frames at the requested or next free place with the requested permissions, or fails with the translation of every other page unchanged; the mapping list keeps agreeing with the page table when the place was clear |
| `Process.Proc.MmapShared` | src/process.rs:500-540 | maps a shared object's frames at the requested or next free place, certainly where the page tables are there already; the process does not come to own them |
| `Process.Proc.Munmap` | src/process.rs:544-570 | the recorded ranges wholly inside the request, and only those, are unmapped and forgotten; exactly the frames of the private ones leave the process and become free, those of shared ones do not |
| `Process.Proc.DropRange` | src/process.rs:551-567 | one recorded range dropped: its pages are gone, its frames freed once if it is private, ownership and the agreement of list and table kept |
| `Process.FreedByIs` | src/process.rs:556-564 | a frame is given back if and only if it lies in a dropped private range |
| `Process.KeepIs` | src/process.rs:547-555 | a range stays recorded if and only if it is not wholly inside the request |
| `Process.Proc.MapStub` | src/process.rs:1020-1044 | the exit stub: one frame that was free, mapped executable and read-only above the stack and recorded |
| `Process.Proc.Mprotect` | src/process.rs:576-597 | the pages up to the first unrecorded one, and no other, get the requested permissions and keep their recorded frames; success exactly when every page is recorded; no frame is taken |
| `Process.Proc.TryGrowStack` | src/process.rs:333-355 | a fault below the mapped stack inside the reserved region maps the pages down to it onto the frames reserved for them; anything else is refused; while the region is recorded it cannot fail, takes no frame and keeps ownership and agreement |
| `Process.Proc.SetupStack` | src/process.rs:293-312 | the whole region is reserved as one run, recorded, and its top mapped |
| `Process.Proc.LoadImage` | src/process.rs:934-986 | one run of frames is mapped page by page with each page's own permissions and recorded; nothing else translates differently |
| `Process.Proc.FreeProcess` | src/process.rs:1373-1378 | returns exactly the process's frames |
| `Spawn.SpawnProcess` | src/process.rs:647-692 | the new process sees the kernel's map except that ring 3 reaches exactly its image, its stack and, natively, its exit stub; its page table shows exactly the steps that set it up; it owns only frames that were free; any failure restores the free set exactly |
| `Views.SaysMapped` | src/paging.rs:159-226 | after any sequence of map and unmap steps ring 3 has a page if and only if it was mapped USER and not unmapped since |
| `Views.LastSaysConcat` | src/paging.rs:159-226 | what two runs of steps leave is what the second leaves of what the first leaves |
| `Reach.GrowthKeeps` | src/process.rs:333-355 | mapping pages for ring 3 keeps the ownership invariant if and only if every frame mapped is backed in place |
| `Reach.RecordBacks` | src/process.rs:333-355 | it is while the stack's region is recorded, and is not once the region's frames are free |
| `Reach.GrowExactly` | src/process.rs:333-355 | so a served stack fault keeps the process's invariant if and only if, before the call, the frames reserved for all pages from the fault up to the mapped part are backed in place; one that fails half way, if and only if those of the pages it mapped are; with the page tables there it does not fail |
| `Reach.GrowAfterUnmap` | src/process.rs:333-355 | the run on which it does not: a process unmaps its stack region, then faults in it, and ring 3 reaches a frame that is free |
| `System.Isolation` | src/process.rs:374-597 | an operation of one process changes no translation of the kernel or of any other process |
| `System.ProcKeeps` | src/process.rs:374-569 | an operation of one process keeps every frame with exactly one owner, every process's ownership invariant, and every page table as its log says |
| `System.SpawnKeeps` | src/process.rs:647-692 | so does a spawn |
| `System.ReapKeeps` | src/process.rs:1367-1378 | so does reaping |
| `System.ReapAccounted` | src/process.rs:1367-1378 | reaping turns exactly the process's frames free |
| `System.ShmKeeps` | src/shm.rs:64-94 | so does creating an object, and moving one that nobody reaches to other frames |
| `System.CloseKeeps` | src/shm.rs:120-135 | so does the last close of an object that nobody reaches |
| `System.KernelKeeps` | src/paging.rs:232-268 | so does a change of the kernel's own map that shows ring 3 nothing, and it changes no process's translations |
| `System.UserPagesBacked` | src/process.rs:293-597 | a user page is backed by a frame its process owns, or by a frame of a shared object that this process mapped |
| `System.NoSharedPrivateFrame` | src/process.rs:293-597 | two processes reach a common frame only if it belongs to an object that both mapped |
| `System.ReachExact` | src/process.rs:374-597 | each page of a process translates as the last step of its log that touched it says, and ring 3 reaches it if and only if it was mapped USER and not unmapped since |
| `Machine.Machine.Act` | src/process.rs:374-597 | a memory operation as the machine performs it: it appends to the process's log exactly the steps that operation makes (for brk and mmap the pages at their place, for munmap the dropped ranges, for mprotect the pages up to the first unrecorded one, for a stack fault the pages down to it) and leaves exactly the records and bounds that go with them; placed clear of the records, it keeps them in agreement with the page table |
| `Machine.Machine.Create` | src/process.rs:647-692 | a spawn as the machine performs it: the log is exactly the image, stack and stub steps, with the records and bounds of a new process |
| `Runs.Perform` | src/process.rs:374-597 | one operation of any kind: the machine's new state follows from the old one by what that operation does, and every frame keeps one owner and every process its invariant |
| `Runs.RunAll` | src/process.rs:374-597 | any run of spawns, reaps, memory operations, shared-memory calls and kernel mappings from boot, in any order, up to the first that drops a stack record, frees or moves an object still reached, or shows ring 3 a kernel page: each state follows from the one before by what the operation does, and in each every frame has exactly one owner and every process its invariant |
| `History.StepIsolates` | src/process.rs:374-597 | in each step nothing of any other process changes, neither its records and frames nor one page of its translation, and only the kernel's own mappings change the kernel's map |
| `History.RunIsolates` | src/process.rs:374-597 | so over a whole run nothing of a process changes between its own operations |
| `History.RunTold` | src/process.rs:374-597 | after every run a process exists if and only if it was spawned and not reaped; its log is the steps of its spawn followed by those of each of its operations; the objects it counts as mapped are those it asked to map and that are not closed; and its records agree with its page table if its image and mappings were placed clear of what was recorded |
| `History.RunReach` | src/process.rs:374-597 | after every run ring 3 reaches a page of a process if and only if the steps of its spawn and operations mapped it USER and did not unmap it since, and the page shows exactly what the last of them that touched it said |
| `History.RunBacked` | src/process.rs:293-597 | after every run a user page leads to a frame the process owns, or of an object it mapped that is not closed; never to a free frame, to another process's frame or to a kernel table |
| `History.RunApart` | src/process.rs:293-597 | and two processes share a reachable frame only through an object both mapped |
| `History.UsedIs` | src/process.rs:500-540 | a process counts an object as mapped if and only if one of its operations asked to map it while it existed, and since then neither was the object closed for good nor the process spawned |
| `History.RunTranslates` | src/process.rs:359-363 | after every run in which a process's image and mappings were placed clear of what was recorded, each byte of an answer of translate_local on a page ring 3 can reach is the byte the page walk leads to |
| `Machine.CloseExact` | src/shm.rs:120-135 | the last close of an object keeps the machine's invariant if and only if no process reaches its frames |
| `Machine.MoveExact` | src/shm.rs:64-94 | growing an object onto other frames keeps it if and only if no process reaches the old ones |
| `Reach.FreedWhileMapped` | src/shm.rs:120-135 | the run on which the last close does not: a process maps an object, its last reference is closed, and ring 3 reaches frames that are free, so that the process's invariant fails whatever is counted as live |
| `Reach.MovedWhileMapped` | src/shm.rs:64-94 | and the run on which growing does not: the object moves, and ring 3 still reaches the frames it had, which are free |
| `Heap.FreeListAllocator.constructor` | src/allocator.rs:36-45 | the heap starts as one free block that tiles the whole range |
| `Heap.FreeListAllocator.Alloc` | src/allocator.rs:47-75 | first fit in address order with splitting: the payload is 16-aligned and of at least the rounded size; null if and only if no free block fits; the tiling and the free list stay right |
| `Heap.FreeListAllocator.Dealloc` | src/allocator.rs:77-109 | the block becomes free and is merged with both free neighbours; the tiling and the free list stay right |
| `Heap.TakeTiles` | src/allocator.rs:53-73 | allocation keeps an exact tiling by header and payload with no two free neighbours |
| `Heap.ReleaseTiles` | src/allocator.rs:83-108 | so does release with two-sided merging |
| `Heap.PayloadsDisjoint` | src/allocator.rs:47-75 | payloads of different blocks never overlap |
| `Heap.FreeListIncreasing` | src/allocator.rs:83-93 | the free list is exactly the free blocks in strictly increasing address order |
| `Heap.RunTiles` | src/allocator.rs:47-109 | the invariant holds after every sequence of calls |
| `Heap.RunRestores` | src/allocator.rs:47-109 | freeing all live blocks, in any order, restores the single initial block |
| `Fat.AllocForms` | src/fat.rs:298-307 | taking a free entry as a chain of one keeps the table a set of disjoint acyclic chains plus free entries |
| `Fat.JoinForms` | src/fat.rs:397-400 | so does linking the end of one chain to the head of another |
| `Fat.DropHeadForms` | src/fat.rs:309-322 | so does freeing the first cluster of a chain |
| `Fat.TableRoundTrip` | src/fat.rs:123-125 | a flushed table sector reads back as the cached entries |
| `Fat.BytesRoundTrip` | src/fat.rs:330-332 | writing what was read gives the same bytes |
| `Fat.GetPut` | src/fat.rs:242-252 | content laid out over distinct sectors is what is read from them |
| `FatVolume.LbasApart` | src/fat.rs:143-145 | chains without a common cluster have no common sector |
| `FatVolume.LbasBehind` | src/fat.rs:143-145 | every data sector lies behind the table: no data or directory write lands in it |
| `FatVolume.Remount` | src/fat.rs:113-126 | mounting after a complete flush finds the same table |
| `FatVolume.Volume.Open` | src/fat.rs:126-140 | nothing is dirty and the free count is right; the volume is valid exactly when the geometry is good and the table well formed |
| `FatVolume.Volume.ScanFreeClusters` | src/fat.rs:281-289 | counts the free entries |
| `FatVolume.Volume.SetCluster` | src/fat.rs:293-296 | changes one entry and marks its sector dirty |
| `FatVolume.Volume.AllocCluster` | src/fat.rs:298-307 | takes the lowest free cluster of the table; out of space exactly when none is free; the volume stays valid either way |
| `FatVolume.AllocExactly` | src/fat.rs:298-307 | the cluster taken lies within the volume's sector count if and only if some free cluster does |
| `FatVolume.TableCovers` | src/fat.rs:96-126 | every entry of the table stands for a cluster within the sector count if and only if the table was not rounded up beyond the clusters there are |
| `FatVolume.ThirdBehindEnd` | src/fat.rs:298-307 | a run on which it was: on an empty volume of two clusters the third allocation succeeds, with a cluster behind the end |
| `FatVolume.Volume.FreeChain` | src/fat.rs:309-322 | frees exactly the chain; stopped by the loop guard it leaves the rest as a chain and the volume valid |
| `FatVolume.Volume.FlushFat` | src/fat.rs:324-339 | success leaves disk and cache equal; failure leaves the unwritten sectors dirty; the data area is untouched |
| `FatVolume.Volume.ReadFileData` | src/fat.rs:228-259 | returns the bytes of the chain's sectors in order; Corrupt if and only if the size exceeds what the first CHAIN_GUARD + 1 clusters hold |
| `FatVolume.Volume.AllocMany` | src/fat.rs:392-396 | takes distinct free clusters; when space runs out those taken stay allocated and the volume stays valid |
| `FatVolume.Volume.LinkAll` | src/fat.rs:397-400 | makes one chain of them, in order |
| `FatVolume.Volume.WriteData` | src/fat.rs:403-418 | lays the content out over the clusters; no other sector changes, also on failure |
| `FatVolume.Volume.StoreContent` | src/fat.rs:389-419 | afterwards reading the new chain gives exactly the content (for every length up to the loop guard, every cluster size); every file on another chain is byte-for-byte unchanged whatever the outcome |
| `FatVolume.StoredReads` | src/fat.rs:228-259 | the read-back law behind it, including when the guard makes it fail |
| `FatVolume.Volume.ExtendDir` | src/fat.rs:535-554 | appends one zeroed cluster to the chain; each error leaves the table well formed; Corrupt exactly when the chain is longer than the guard |
| `Directory.DeleteOne` | src/fat.rs:358-367 | erasing the slot that yields an entry, with the long-name slots right before it, removes that entry from the scan and nothing else, in order |
| `Directory.EntryComesFrom` | src/fat.rs:194-213 | every reported entry comes from a slot at its reported location |
| `Directory.RunShift` | src/fat.rs:204-213 | what was found before does not influence what is found next |
| `FatFiles.ReadDir` | src/fat.rs:155-226 | the listing of the directory's bytes, over all sectors and clusters, with long-name parts carried across them; Corrupt exactly when the guard stops it before an end mark |
| `FatFiles.DeleteListing` | src/fat.rs:351-371 | for arbitrary directory bytes, deleting at a reported location leaves the old listing without that one entry |
| `FatFiles.DeleteEntryAt` | src/fat.rs:351-371 | the same as an operation: also keeps the volume valid and every other sector |
| `FatFiles.EraseRun` | src/fat.rs:358-367 | marks the slot and the long-name slots before it in the same sector, up to the first other slot |
| `FatEntries.RunInSector` | src/fat.rs:510-519 | the first run of free slots in a sector, None if and only if there is none |
| `FatEntries.FindFreeRun` | src/fat.rs:500-532 | the first run in the directory's order; None if and only if no sector of the whole chain has one (or a read fails or the guard stops the search); the place reported leaves out the sector's number |
| `Insertion.NewListing` | src/fat.rs:628-633 | the listing with a name's slots between two parts of a directory: what the first part lists, the entry, what the second lists alone, nothing behind an end mark in the first |
| `Insertion.OldListing` | src/fat.rs:155-226 | what was listed when free slots stood there |
| `Insertion.SurvivesIff` | src/fat.rs:628-633 | for arbitrary slots overwritten, every entry listed before is still listed if and only if an end mark stands before them, or none of them yields an entry and no long name begun in them belongs to the next entry |
| `Insertion.TailKept` | src/fat.rs:190-197 | pending long-name parts lose an entry if and only if they give the next one another name |
| `FatEntries.InsertedListing` | src/fat.rs:558-634 | slots put over a free run of a first sector: nothing is lost, and the entry is listed unless an end mark stands before it; where the run reaches the end mark what lies behind it is listed too |
| `FatEntries.SurvivesExactly` | src/fat.rs:558-634 | the same condition for slots put anywhere, as find_free_run may make the code do |
| `FatEntries.WriteDirEntries` | src/fat.rs:558-634 | success puts exactly the name's slots at the slot found, in the first sector of the cluster found, or in the first slots of a new zeroed cluster when no sector of the chain has a run; other chains keep their sectors and the volume stays valid whatever the outcome |
| `FatEntries.PutListing` | src/fat.rs:558-634 | when the run was found in a first sector (as it always is with one sector a cluster) every old entry is still listed and the new one inserted; the three cases are told apart |
| `FatEntries.EntryLost` | src/fat.rs:505-517 | with two, the first full and the second free, the entry in the slot written first is gone |
| `FatEntries.LossPossible` | src/fat.rs:505-517 | and there is such a disk for every such volume and every name |
| `FatEntries.GrownHides` | src/fat.rs:558-634 | a directory that grows although its scan meets an end mark lists exactly what it listed: the new entry stands behind the mark |
| `FatEntries.HiddenPossible` | src/fat.rs:617-634 | there is such a directory, of fifteen entries, for every volume with one sector a cluster and every name |
| `Lookup.FirstMatchIs` | src/fat.rs:345-349 | an entry is found if and only if one matches the name but for the case of ASCII letters, and no entry before the found one does |
| `Lookup.FindDirEntry` | src/fat.rs:345-349 | the first match of the directory's listing; a directory whose listing is corrupt or cannot be read counts as one without the name |
| `Lookup.ComponentsJoin` | src/fat.rs:261-263 | the components of a path are those before any of its slashes followed by those behind it |
| `Lookup.ResolveParent` | src/fat.rs:261-278 | in a directory tree the components before the last lead to the directory returned, and the name is the last; refused exactly when there is none or it is too long; NotFound only where a component leads to no directory |
| `FatOps.WriteFile` | src/fat.rs:373-423 | the name is looked up in the parent as listed; an invalid name and a directory of that name are refused and change nothing, exactly then; success leaves the table on disk, the entry's slots at their place and the content readable in the new chain, with nothing else of the directory changed but the found entry removed; whatever the outcome every other file keeps its chain and data |
| `FatOps.EntriesKept` | src/fat.rs:373-496 | after writing a file, making a directory or renaming, with the run found in a first sector, every entry but the one removed is still listed and the new one inserted |
| `FatOps.EnteredIsFound` | src/fat.rs:345-349 | an ASCII name entered so, where no entry left matches it, is looked up to exactly the new entry if and only if no end mark stands before its place (for lengths that are a multiple of 13, with no long-name slots left over before it) |
| `FatOps.RemoveEntry` | src/fat.rs:457-475 | the name is looked up in the parent as listed, NotFound exactly when it is not found; a directory is removed only when its own chain lists nothing, and a refusal changes nothing; success removes exactly the found entry and frees exactly its chain, with the table on disk |
| `FatOps.MakeDir` | src/fat.rs:425-455 | an invalid name, and one the lookup finds, are refused and change nothing, exactly then; success leaves the table on disk and a new cluster that lists nothing, whatever its other sectors hold, with entries for itself and its parent; it is entered as a directory |
| `FatOps.Rename` | src/fat.rs:481-496 | both names are looked up as listed; equal names, an invalid new name, a missing entry and a taken name change nothing, each reported exactly then; success removes the found entry and enters the new name with the same chain, size and kind, with the table on disk; no file data moves |
| `FatOps.DotScan` | src/fat.rs:436-450 | a new directory's two entries are not listed and the scan ends behind them |
| `LongName.PartRoundTrip` | src/fat.rs:707-722 | the thirteen characters of a long-name slot read back |
| `LongName.SlotsLook` | src/fat.rs:566-615 | at most 11 slots, none starting with 0x00 or 0xE5: a run always fits one sector |
| `LongName.NameRoundTrip` | src/fat.rs:566-615 | scanning the slots written for a valid name adds exactly one entry with the file's fields; its name is the written one up to the first unit 0x0000 or 0xFFFF with non-ASCII shown as '?', followed by pending parts exactly when the length is a multiple of 13 |
| `LongName.AsciiRoundTrip` | src/fat.rs:751-762 | every valid ASCII name reads back as written, also at multiples of 13 characters |
| `LongName.ShownAsIs` | src/fat.rs:751-762 | a name is shown as itself if and only if it is ASCII |
| `LongName.ShownWithPending` | src/fat.rs:190-197 | pending parts leave the shown name as it is if and only if it was cut short or they show nothing |
| `LongName.HighDotUnlisted` | src/fat.rs:566-572 | the valid name with the one character U+1002E is written as a dot, and not listed |
| `LongName.FullPartRunsOn` | src/fat.rs:571-589 | a name of 13 characters behind one left-over long-name slot is listed with that slot's characters behind it |
| `LongName.BuildEntries` | src/fat.rs:571-615 | builds exactly those slots |
| `LongName.LfnEntryBytes` | src/fat.rs:707-722 | places the characters, attribute, ordinal and checksum |
| `LongName.AssembleLfn` | src/fat.rs:751-762 | the characters of all parts up to the first end mark |
| `Shm.ShmTable.Create` | src/shm.rs:43-54 | a new object with one reference and no frames in the first free slot |
| `Shm.ShmTable.Truncate` | src/shm.rs:64-94 | size changes; growing beyond the frames takes a new run of free ones and returns the old, otherwise they stay; no frame is lost, no other object changes, failure changes nothing |
| `Shm.ShmTable.Dup` | src/shm.rs:113-117 | one more reference |
| `Shm.ShmTable.Close` | src/shm.rs:120-135 | one less; the frames are freed exactly when the last one goes |
| `Shm.DroppedCount` | src/shm.rs:120-135 | dropping a list of references subtracts each as often as it occurs |
| `Shm.TakeDrop` | src/socket.rs:174-184 | dropping what was just taken leaves the table as it was, for any list of ids |
| `Sockets.SocketTable.Connect` | src/socket.rs:127-146 | the whole endpoint table afterwards: a server end in the first free slot, queued on the listener if that is open, the client connected to it if that is open too, and no other endpoint, inbox or queued reference changed; success exactly then, and the ends name each other |
| `Sockets.SocketTable.Send` | src/socket.rs:171-188 | bytes and references go behind what the peer has queued; without a peer nothing changes, whatever the ids are |
| `Sockets.SocketTable.Recv` | src/socket.rs:195-206 | takes bytes in order and every queued reference |
| `Sockets.SocketTable.Close` | src/socket.rs:230-241 | drops the references queued in the endpoint and forgets its listeners |
| `Sockets.InFlightUpdate` | src/socket.rs:185-204 | the references in flight after one endpoint changes |
| `FdPassing.ReferencedIsLive` | src/shm.rs:32-36 | an object is live if and only if an open descriptor, a queued message or a kernel receiver refers to it, and then none of its frames is free |
| `FdPassing.NothingLeft` | src/shm.rs:119-135 | when nothing refers to any object no frame backs one |
| `FdPassing.SendBalance` | src/socket.rs:171-188 | sending keeps every count equal to the number of references |
| `FdPassing.DropAllBalance` | src/linux_abi.rs:959-967 | so does dropping received references |
| `FdPassing.Kernel.MemfdCreate` | src/linux_abi.rs:726-729 | a new object with exactly the new descriptor's reference |
| `FdPassing.Kernel.Sendmsg` | src/linux_abi.rs:834-892 | the bytes and one reference for each named shared-memory descriptor go to the peer; the sender keeps its own; errors change nothing |
| `FdPassing.Kernel.Recvmsg` | src/linux_abi.rs:897-971 | the waiting bytes come in order, as many descriptors as the control buffer holds are opened, in order, and exactly the other references dropped; every other descriptor and every other table is as it was; counts stay exact; errors change nothing |
| `FdPassing.Kernel.Read` | src/linux_abi.rs:374-387 | gives the waiting bytes in order, drains the endpoint and drops its queued references |
| `FdPassing.Kernel.CloseFd` | src/process.rs:274-285 | closes exactly an open non-reserved descriptor and drops what it held |
| `FdPassing.Kernel.Exit` | src/process.rs:128-140 | all descriptors of the process are dropped, no other table changes |
| `FdPassing.Kernel.AllocFd` | src/process.rs:257-266 | the lowest free descriptor from 3 on |
| `FdPassing.RunAll` | src/linux_abi.rs:726-971 | over every run from boot each object's count equals its references and every frame is free or backs a referenced object |
| `Scheduler.ChooseIs` | src/task.rs:272-280 | the search finds the nearest runnable task, None only when all others have exited |
| `Scheduler.Fair` | src/task.rs:261-306 | with the table fixed a runnable task is resumed within as many quantum switches as it is places away, at most count - 1, under any interleaving |
| `Scheduler.ExitedNeverRuns` | src/task.rs:272-280 | an exited process is never current again, while tasks are added and safely reaped |
| `Scheduler.RunKeeps` | src/task.rs:282-299 | under any interleaving CR3 is the current task's and the FS base the value its process last set |
| `Scheduler.RemoveKeepsCurrent` | src/task.rs:472-489 | after a removal the stored index denotes the running task if and only if that task stood before the removed one or was last |
| `Scheduler.RemoveMisplaces` | src/task.rs:481-487 | an input on which it does not |
| `Scheduler.Scheduler.SchedulerTick` | src/task.rs:261-306 | the switch as specified: registers saved, next task's loaded |
| `Scheduler.Scheduler.PushTask` | src/task.rs:219-253 | the new task is last and nothing else changes |
| `Scheduler.Scheduler.MarkCurrentExited` | src/task.rs:460-467 | only the current process is marked |
| `Scheduler.Scheduler.RemoveProcess` | src/task.rs:472-489 | swap_remove and the index adjustment as coded; the running task is refused |
| `Scheduler.Scheduler.SetFsBase` | src/linux_abi.rs:978-989 | register and record are both set |
| `Elf.Parse` | src/elf.rs:95-186 | accepts exactly the files with a good header, good program headers and something to load; returns exactly the loadable segments in order, each with its bytes inside the file and filesz at most memsz |
| `Elf.LoadsOk` | src/elf.rs:131-173 | every returned segment has its file bytes and fits its memory |
| `Elf.CheckHeader` | src/elf.rs:96-129 | the header checks, both ways |
| `Image.SegmentBytes` | src/process.rs:969-979 | for non-overlapping segments each byte is its file byte below filesz and zero up to memsz, even where segments share a page |
| `Image.PageFlags` | src/process.rs:951-963 | writable or executable if and only if some such segment touches the page |
| `Image.SpanHolds` | src/process.rs:923-932 | the loaded block is whole pages and holds every segment |
| `Loader.LoadSegments` | src/process.rs:917-987 | the process reads every segment byte through its page table as the file says, every page has the permissions of the segments touching it, no other page changes and only free frames are written |
| `StackLayout.StackReadsBack` | src/process.rs:1108-1242 | reading words from rsp as the psABI prescribes gives argc, argv pointers, NULL, envp pointers, NULL and an AT_NULL-terminated auxv; the pointers find exactly the strings, above the table; rsp is 16-aligned and everything stays in the reserved region |
| `StackLayout.StackAux` | src/process.rs:1147-1226 | AT_PHDR, AT_RANDOM and AT_EXECFN point at a byte-exact copy of the program headers (unless a segment has them), the random bytes and the program's name |
| `StackLayout.BuildLayout` | src/process.rs:1108-1248 | builds that stack; fails exactly when it does not fit |
| `StackLayout.WordsReadBack` | src/process.rs:1228-1241 | the table's words read back |
| `LinuxStack.SetupLinuxStack` | src/process.rs:1099-1273 | the process reads the layout at its stack pointer through its page table; only stack pages and free frames change |
| `LinuxStack.TableShows` | src/process.rs:1147-1153 | in the in-segment case AT_PHDR shows the file's program header table byte for byte |
| `LinuxStack.LoadProgram` | src/process.rs:695-793 | after loading and stack setup the stack and, for segments that do not overlap, the segments and the program headers all read as promised |
| `Exec.ApplyBias` | src/process.rs:632-645 | a position-independent program's entry and segments are moved by the load base, in 64 bits; others stay |
| `Exec.ValidateSegments` | src/process.rs:799-830 | accepts exactly the segments clear of the low 2 MiB, the kernel heap with its margin, everything from 4 GiB on and the reserved stack pages |
| `Exec.Exec` | src/process.rs:695-793 | from the bytes of a file to its stack pointer: refused as an ELF file exactly when parse refuses it, for its segments exactly when one is not valid; on success the process reads the segments that file describes, moved by the load base, with its stack and header table |
| `Exec.ImageSpan` | src/process.rs:917-932 | the block loaded for valid segments lies above the low 2 MiB and within 4 GiB, and stays clear of the stack pages if and only if all segments lie on the same side |
| `Exec.SpanCrosses` | src/process.rs:799-830 | two valid segments whose block covers the stack, with the heap at 64 to 104 MiB |
| `Scaler.ScalePixels` | src/gfx.rs:493-565 | with fresh or caller's row caches, whatever they held, every pixel is the uncached bilinear formula's, also where its 64-bit products wrap; zero sizes change nothing |
| `Scaler.InSource` | src/gfx.rs:541-551 | every source coordinate read is in range while the 64-bit products fit |
| `Scaler.LastAtLast` | src/gfx.rs:507-508 | over all 32-bit sizes the last pixel is read at the last source pixel if and only if the products fit |
| `Scaler.PositionWraps` | src/gfx.rs:507-508 | 2^24 + 1 pixels on both sides are the first equal sizes for which they do not: the last pixel is read at the first |
| `Scaler.LerpChannel` | src/gfx.rs:510-519 | the clamp never acts |
| `Scaler.ChannelBounds` | src/gfx.rs:510-564 | each channel lies between the least and greatest of its four source pixels |
| `Scaler.Identity` | src/gfx.rs:507-564 | equal sizes leave every 0x00RRGGBB pixel as it is, while the products fit |

## Left out

- Bytes inside the frames of mmap, brk and shared memory (zero fill, file content, copy on growth in
  `shm::truncate`), and the code and return address of the exit stub: only the image and the initial
  Linux stack have modelled bytes.
- Table frames and data bytes are kept apart (`words` and `Ram`), although both are physical memory;
  that data writes hit only data frames is a property of the frames, not of the bytes.
- Entry bits the walk does not use (accessed, dirty, caching) and physical addresses of 2^52 and more;
  TLB invalidation.
- The second image of a program with PT_INTERP: `Exec` reports such a file as needing an interpreter,
  and the machine's spawns load one image.
- In `Machine` a process is taken out of the table for an operation and put back; descriptors, sockets
  and scheduling are separate models, so object references there are plain calls.
- MAP_FIXED over an existing mapping and heap regrowth after a shrink add overlapping records, so the
  agreement of list and table is not claimed for a process from then on (ownership is).
- The heap's `allocated` counter, which does not count what its name says when a block is not split.
- The file operations start from the directory that `Lookup.ResolveParent` finds; listed files and
  directories are taken to have a chain of their own, and the directories to form a tree.
- Timestamps and random bytes are parameters; UTF-8 validity in `Elf.Parse` is a parameter; names made
  by `from_utf8_lossy` are kept as bytes, also when they are compared.
- Operations on FAT volumes whose sector numbers wrap around, that have no table copy, or whose table has
  bad-cluster marks or cross-linked chains: `FatVolume.Mount` says they are not valid, and nothing more
  is claimed for them.
- Symmetric pairing of sockets after an endpoint slot is closed and reused.
- Elf.CheckHeader: does not say which error is returned when several checks fail, only that some error is.
- LinuxStack.LoadProgram: promises segment bytes only for segments that do not overlap, which parsing does
  not exclude; the bytes of overlapping ones are the last one's.
- Scaler.ScalePixels: requires that a destination is not one pixel wide or high, where the code divides by
  zero.
- Assembly, port I/O, interrupts, devices, the window manager and the other system calls.
