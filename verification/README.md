# Verified model of the IF2230 operating system: file system driver and kernel core

This project models two parts of a small 32-bit teaching operating system and proves what they keep over whole runs.

**The FAT-style file system driver** (`src/fat32.c`) caches the allocation table of a disk in memory, writes it
through to cluster 1, allocates cluster chains first-fit, and keeps each directory as a table of 64 entries in one
cluster. The model is a class `Driver` whose table and disk are arrays updated in place, each operation proved
against a description of its outcome on values:

* `Fat32Layout.Inv` is the structural invariant that the code relies on and never states: reserved clusters and the
  boot signature intact, the cached table equal to cluster 1, every live slot from index 2 on heading an acyclic,
  end-marked chain that no other slot shares, files holding exactly their count of clusters, directories forming a
  tree rooted at cluster 2.
* `Fat32Layout.TreeOf` is the file tree a healthy volume stands for: per directory, a map from name and extension to
  file contents or subdirectory.
* `Fat32Runs` has runs of `write`, `delete`, `read`, `read_directory` and mounting in any order, where each operation
  may be cut off after any number of its cluster writes and the disk mounted again. Every run refines a plain file
  tree with a count of empty clusters, answers as that tree and count call for, shows either the old or the new tree
  after a power cut, and leaks exactly the clusters in hand.
* `Fat32Laws`, `Inserter` and `ShellPath` relate operations: undo, leaks over runs, insertion as replace-or-add, and
  the shell's path of a directory leading back to it.

**The process, paging and scheduling core** (`src/process.c`, `src/paging.c`, `src/scheduler.c`) has three allocators
(process slots, page directories, 4 MiB frames) and a round-robin scheduler. `Paging`, `Process` and `Scheduler` give
each operation as a function on values, `KernelMachine` is the class that updates the tables in place and is proved to
compute those functions, and `ProcessLaws` and `KernelRuns` hold the laws: agreement of the allocators, isolation of
frames, two frames for each process, no starvation, and every process resumed with its own context. `AddressSpaces`
reads the page directories as the processor does in user mode and proves memory protection over every run.

Where the code does not meet the property one would expect, one lemma gives the exact condition under which it does
and another an input on which it does not:

* the eight-bit cluster count: `Fat32Types.ClusterCountExact`, `Fat32Types.LongFileWraps`;
* deleting the all-zero key, on any directory that is not full: `Fat32Codes.ZeroKeyStrays`;
* the path of a directory: `ShellPath.PathRoundTrip`, `ShellPath.ExtensionLost`;
* mapping a page: `Paging.AllocateOrphans`, `KernelExamples.MappedTwice`;
* two frames for each process: `ProcessLaws.CreateBalanced`, `KernelExamples.SixteenProcesses`,
  `KernelExamples.StackPageShared`;
* creating and destroying a process: `ProcessLaws.CreateThenDestroy`, `KernelExamples.StackPageLost`;
* destroying any slot: `ProcessLaws.DestroyExact`, `KernelExamples.UnusedSlotDestroyed`;
* the image of a process: `AddressSpaces.RunImage`, `KernelExamples.LargeImageFaults`;
* one process marked RUNNING: `Scheduler.CreateRunsOne`, `KernelRuns.FailedLoadRuns`;
* each process its own context: `KernelRuns.TimerFaithful`, `KernelExamples.SlotReused`.

The code and its comments disagree in places; the model follows the code. `read` is documented to return 2 for a short
buffer and 3 for a missing file (`src/header/filesystem/fat32.h:226`) and returns -1 and 2. `delete` also returns 2 for
an invalid parent. `read_directory` is documented to want a buffer of a whole table and checks for 32 bytes before it
copies a cluster. `paging_allocate_check` is documented to take bytes (`src/header/memory/paging.h:125`) and is handed
a number of pages, so it never refuses. `paging_allocate_user_page_frame` reports success when it has mapped nothing.

`dafny verify dfyconfig.toml` checks the whole project.

## Model

| member | source | states |
|---|---|---|
| `Numbers.Binary32Nearest` | src/fat32.c:141-144 | the conversion of a size to binary32 gives the nearest number of 24 bits, and of two equally near ones the even one |
| `Fat32Types.ClusterCountExact` | src/fat32.c:141-144 | the eight-bit count computed through binary32 is the true number of clusters if and only if the size is at most 255 clusters |
| `Fat32Types.LongFileWraps` | src/fat32.c:262-262 | a file of 257 clusters is taken for one cluster |
| `Fat32Layout.ChainsDisjoint` | src/fat32.c:294-307 | on a healthy volume a cluster occurs once in one chain: chains are acyclic and pairwise disjoint |
| `Fat32Layout.ChainUnique` | src/fat32.c:375-388 | following the table from a cluster to the end mark visits one determined chain |
| `Fat32Layout.ParentCloser` | src/fat32.c:46-66 | the parent link of every directory but the root leads to a live directory one level up |
| `Fat32Layout.EntrySizes` | src/fat32.c:310-318 | every live entry is a directory of size 0 or a file of positive size, by the stored attribute values |
| `Fat32Layout.TreeDetermined` | src/fat32.c:117-126 | the file tree is a function of the volume alone: any two readings of its ownership give the same tree |
| `Fat32Frame.Frame` | src/fat32.c:288-303 | a change that keeps every owned cluster keeps the volume healthy and the file tree the same |
| `Fat32Frame.Link` | src/fat32.c:309-326 | once a chain is in place, writing its parent entry adds exactly that file or directory and keeps the volume healthy |
| `Fat32Unlink.Unlink` | src/fat32.c:368-373 | zeroing the entry of a file or an empty directory removes exactly that from the tree and keeps the volume healthy |
| `Fat32Disk.SafeMount` | src/fat32.c:117-126 | writes that touch nothing owned, cut off anywhere, mount to a healthy volume with the same tree |
| `Fat32Disk.ApplyConcat` | src/fat32.c:23-25 | cluster writes compose in order |
| `Fat32Write.FirstFitLeast` | src/fat32.c:128-139 | the scan returns empty clusters in increasing order; an empty cluster is left out only if the scan is full and the cluster lies behind all it returned |
| `Fat32Write.FirstFitCount` | src/fat32.c:128-139 | it returns as many clusters as asked for, or all the empty ones there are |
| `Fat32Write.FreeSlot` | src/fat32.c:243-252 | the chosen directory slot is the first unused one from index 1 on, and 0 stands for none |
| `Fat32Write.LinkFat` | src/fat32.c:295-302 | each chained cluster points to the next and the last to the end mark; every other entry is unchanged |
| `Fat32Write.FileWritesResult` | src/fat32.c:294-307 | the interleaved table and data writes leave the linked table in cluster 1 and the data in the chained clusters |
| `Fat32Write.Prepare` | src/fat32.c:276-308 | before the parent entry is written the chain or child table is complete, and nothing owned was touched |
| `Fat32Write.WriteEffect` | src/fat32.c:234-329 | a successful write leaves a healthy volume whose tree has exactly the new entry added, and whose table has exactly the taken clusters linked |
| `Fat32Write.WriteTables` | src/fat32.c:288-307 | after any number of cluster writes of a write, the table on disk links exactly the clusters reached by then |
| `Fat32Write.WriteCrash` | src/fat32.c:288-326 | cut off after any proper prefix of its cluster writes, write mounts to the old tree and leaks exactly the clusters linked by then |
| `Fat32Write.WriteConserves` | src/fat32.c:262-307 | at every stage of a write the number of empty clusters has fallen by exactly the clusters linked, in the end by the chain length |
| `Fat32Delete.ClearFat` | src/fat32.c:375-388 | the walk empties exactly the visited entries |
| `Fat32Delete.DeletePrefix` | src/fat32.c:373-390 | from its first cluster write on, delete mounts to a healthy volume with exactly the key gone |
| `Fat32Delete.DeleteTables` | src/fat32.c:375-390 | the table on disk is the old one until the last write of delete |
| `Fat32Delete.DeleteEffect` | src/fat32.c:331-397 | a successful delete removes exactly the key from the tree and empties exactly its chain in the table |
| `Fat32Delete.DeleteLeaks` | src/fat32.c:373-390 | a cut-off delete leaks exactly its own chain, a finished one nothing |
| `Fat32Delete.DeleteZeroes` | src/fat32.c:381-384 | a finished delete has overwritten every freed cluster with zeros |
| `Fat32Delete.DeleteConserves` | src/fat32.c:375-390 | a successful delete raises the number of empty clusters by exactly the chain length |
| `Fat32Codes.FullDirectory` | src/fat32.c:258-259 | a directory has no free slot if and only if it holds 62 entries |
| `Fat32Codes.TakenIsFound` | src/fat32.c:246-256 | a slot carries the key if and only if it names an entry or a header slot, or is the zero key while a slot is unused |
| `Fat32Codes.WriteCodeMeaning` | src/fat32.c:235-274 | the code of write is the one the tree and the number of empty clusters call for, 0 if and only if the key is free and there is room |
| `Fat32Codes.DeleteCodeMeaning` | src/fat32.c:332-366 | the code of delete is the one the tree calls for, 0 if and only if the key names a file or an empty directory |
| `Fat32Codes.ReadCodeMeaning` | src/fat32.c:186-228 | the code of read is the one the tree and the buffer size call for |
| `Fat32Codes.ReadDirMeaning` | src/fat32.c:151-184 | when read_directory reports missing, a file, or a directory, and which cluster it then copies |
| `Fat32Codes.ZeroKeyStrays` | src/fat32.c:338-388 | the zero key is safe to delete if and only if the directory is full; otherwise it finds an unused slot, whose cluster 0 leads the walk out of the table |
| `Fat32Runs.FormatHealthy` | src/fat32.c:75-115 | formatting any disk gives a healthy volume with an empty root, exactly the clusters 3 to 511 empty, and none leaked |
| `Fat32Runs.FormatRoot` | src/fat32.c:91-114 | the root directory of a formatted disk, field by field, and every cluster from 3 on untouched |
| `Fat32Runs.FreshDiskAccepts` | src/fat32.c:75-274 | a formatted disk takes a file or folder into its root if and only if its key is neither the root's own name nor zero |
| `Fat32Runs.StepAtomic` | src/fat32.c:288-326 | crash atomicity: wherever an operation is cut off, what is mounted is healthy and shows exactly the old or exactly the new tree |
| `Fat32Runs.GoesMeaning` | src/fat32.c:235-366 | an operation goes through if and only if its code, read off the tree, is 0 |
| `Fat32Runs.StepSimulates` | src/fat32.c:234-397 | each step, cut off or not, is the step of the plain tree and the count of empty clusters: which tree, and how many clusters were taken or handed back by then |
| `Fat32Runs.DriverAnswers` | src/fat32.c:151-397 | every answer, of write, delete, read and read_directory, is the one the tree and the count call for: code, clusters copied, directory found |
| `Fat32Runs.WriteCodes` | src/fat32.c:235-274 | for each code of write, exactly when it is returned |
| `Fat32Runs.DeleteCodes` | src/fat32.c:332-396 | for each code of delete, exactly when it is returned |
| `Fat32Runs.ReadCodes` | src/fat32.c:186-228 | for each code of read, exactly when it is returned |
| `Fat32Runs.ReadDirectoryCodes` | src/fat32.c:151-184 | for each code of read_directory, exactly when it is returned |
| `Fat32Runs.RunHealthy` | src/fat32.c:75-397 | every state of every run from a healthy volume satisfies the structural invariant |
| `Fat32Runs.RunSimulates` | src/fat32.c:151-397 | every run of all four operations and mounting, power cuts included, is a run of the plain tree with a count of empty clusters, and gives its answers |
| `Fat32Runs.RunFromFormat` | src/fat32.c:69-126 | in every run from a formatted disk the cached table equals cluster 1, signature and reserved entries survive, and mounting again gives the same volume |
| `Fat32Runs.FileSurvives` | src/fat32.c:234-397 | an entry keeps its contents through any events but the deletion of its own key |
| `Fat32Runs.ReadBack` | src/fat32.c:209-223 | a file of the tree reads back whole and in order into any buffer with room, and is refused by any other |
| `Fat32Runs.RoundTrip` | src/fat32.c:294-326 | a written file, after any run that does not delete it, reads back as the clusters written, all of the file if and only if it has at most 255 clusters |
| `Fat32Laws.StepLeaks` | src/fat32.c:288-390 | a finished operation leaks nothing, a cut-off one exactly the clusters of its own chain that are marked and unowned by then |
| `Fat32Laws.RunLeaks` | src/fat32.c:234-397 | over any run the leaks are exactly those at its start and what its power cuts left behind |
| `Fat32Laws.RunWithoutCuts` | src/fat32.c:234-397 | a run without power cuts leaks nothing |
| `Fat32Laws.FormatLeaksNothing` | src/fat32.c:75-397 | from a formatted disk on, without power cuts, every cluster from 3 on is empty or owned by an entry |
| `Fat32Laws.WrittenEntry` | src/fat32.c:309-326 | the stored entry, field by field, and every other entry of the parent unchanged |
| `Fat32Laws.WriteOrder` | src/fat32.c:288-326 | the order of the cluster writes of write: child table then table, or table then data for each cluster, and last the parent |
| `Fat32Laws.DeleteOrder` | src/fat32.c:373-390 | the order of the cluster writes of delete: parent, the chain from its head on, table |
| `Fat32Laws.Undo` | src/fat32.c:372-390 | delete right after a successful write of the key succeeds and restores the table, the parent directory and every cluster but the taken ones, which are left zero |
| `Fat32Laws.Upsert` | src/user-program/external-inserter.c:71-73 | delete then a successful write gives the old tree with exactly that key replaced |
| `Fat32Laws.UpsertGoes` | src/user-program/external-inserter.c:71-73 | the insertion succeeds if and only if the parent exists, the key is no header name and no occupied directory, and there is room once the old entry is gone |
| `Fat32Driver.CopyName` | src/fat32.c:35-41 | the stored name is the requested one up to its first NUL, zero-padded |
| `Fat32Driver.Driver.WriteCluster` | src/fat32.c:23-25 | exactly one cluster changes, and the write is logged |
| `Fat32Driver.Driver.CountEmptyFatSlots` | src/fat32.c:128-139 | the buffer holds the first-fit scan of the cached table |
| `Fat32Driver.Driver.InitDirectoryTable` | src/fat32.c:31-67 | the header entries name the directory and its parent, all other entries are zero |
| `Fat32Driver.Driver.ScanForWrite` | src/fat32.c:243-256 | whether any of the 64 slots carries the key, and the slot to use |
| `Fat32Driver.Driver.StoreFolder` | src/fat32.c:277-292 | child table, then marked allocation table, on disk in this order |
| `Fat32Driver.Driver.StoreFile` | src/fat32.c:294-307 | memory, disk and log after all rounds of the file branch |
| `Fat32Driver.Driver.PlanWrite` | src/fat32.c:235-274 | the code, slot and clusters that write decides on |
| `Fat32Driver.Driver.CarryOutWrite` | src/fat32.c:276-326 | all writes of the trace reach the disk in order |
| `Fat32Driver.Driver.Write` | src/fat32.c:234-329 | the code the tree calls for; on failure nothing changes and nothing is written; on success the trace, a healthy volume, the tree with the new entry |
| `Fat32Driver.Driver.IsEmptyTable` | src/fat32.c:351-362 | whether no slot from index 2 on is in use |
| `Fat32Driver.Driver.FreeChain` | src/fat32.c:375-388 | the walk ends at the end mark having emptied and zeroed exactly the chain |
| `Fat32Driver.Driver.PlanDelete` | src/fat32.c:332-366 | the code and slot that delete decides on |
| `Fat32Driver.Driver.CarryOutDelete` | src/fat32.c:368-390 | parent entry, zeroed clusters and table reach the disk in this order |
| `Fat32Driver.Driver.Delete` | src/fat32.c:331-397 | the code the tree calls for; on failure nothing changes; on success the trace, a healthy volume, the tree without the key |
| `Fat32Driver.Driver.CopyChain` | src/fat32.c:214-222 | the copying walk ends, and stores the blocks of the chain in order and nothing beyond |
| `Fat32Driver.Driver.Read` | src/fat32.c:186-228 | the code the tree calls for, the file's clusters in the buffer, at most buffer_size / 2048 of them, the rest of the buffer untouched |
| `Fat32Driver.Driver.ReadDirectory` | src/fat32.c:151-184 | the code the tree calls for, and the cluster of the directory found in the buffer |
| `Fat32Driver.Driver.CreateFat32` | src/fat32.c:75-115 | the formatted volume, whatever was on disk, by writes to clusters 0, 1, 2 and 2 in this order |
| `Fat32Driver.Driver.Initialize` | src/fat32.c:117-126 | a signed disk is mounted unchanged, any other is formatted |
| `ImageDisk.CopyBytes` | src/user-program/external-inserter.c:15-19 | copies the next bytes and changes nothing else |
| `ImageDisk.ReadBlocks` | src/user-program/external-inserter.c:13-21 | byte k of the buffer is byte 512 * address + k of the image, and the rest of the buffer is untouched |
| `ImageDisk.WriteBlocks` | src/user-program/external-inserter.c:23-31 | byte 512 * address + k of the image is byte k of the buffer, and every other byte is untouched |
| `ImageDisk.WriteCluster` | src/fat32.c:23-25 | exactly the named cluster of the image is replaced |
| `ImageDisk.ReadCluster` | src/fat32.c:27-29 | the buffer starts with the named cluster |
| `ImageDisk.WriteThenRead` | src/fat32.c:19-29 | what is read from a cluster is what was last written there, so the image is an array of clusters |
| `Inserter.DeleteIsStep` | src/fat32.c:331-397 | a finished delete of the driver is a step of the run model |
| `Inserter.WriteIsStep` | src/fat32.c:234-329 | a finished write of the driver is a step of the run model |
| `Inserter.Insert` | src/user-program/external-inserter.c:71-73 | when the insertion succeeds, the tree with the key replaced; otherwise the tree after delete alone |
| `ShellPath.StringN.AppendString` | src/user-program/utils.h:68-74 | the characters up to the first NUL are appended |
| `ShellPath.CreatePath` | src/user-program/shell/user-shell.c:96-126 | the walk along parent links ends at the root and builds the path of the directory |
| `ShellPath.PathStarts` | src/user-program/shell/user-shell.c:97-102 | the path of the root is `./`, and every path starts so and ends in a slash |
| `ShellPath.PathLeadsBack` | src/user-program/shell/user-shell.c:96-126 | a path of plain names, walked by read_directory from the root, arrives at the directory |
| `ShellPath.PathRoundTrip` | src/user-program/shell/user-shell.c:96-126 | it does so if and only if every directory on the way has no extension and a zero-padded name without slash |
| `ShellPath.OddFolderLost` | src/user-program/shell/user-shell.c:96-126 | a folder created anywhere under another kind of key is not led back to |
| `ShellPath.ExtensionLost` | src/user-program/shell/user-shell.c:96-126 | the input: a formatted disk takes a folder whose key has an extension, in cluster 3, and its path leads elsewhere |
| `Paging.PageIndexIs` | src/paging.c:36-36 | the index of an address is that of its 4 MiB page, bits 31:22 |
| `Paging.Exhausted` | src/paging.c:68-91 | the search finds no frame if and only if the free count is 1, since frame 0 is never handed out |
| `Paging.AllocateIsolated` | src/paging.c:57-92 | allocation keeps frames isolated and maps an unmarked frame if and only if one other than 0 is left, reporting success either way |
| `Paging.AllocateOrphans` | src/paging.c:57-92 | it orphans a frame if and only if it maps over an entry that named one |
| `Paging.ReleaseIsolated` | src/paging.c:94-118 | freeing keeps frames isolated; on an address without frame it returns false and changes nothing |
| `Paging.ReplaceBlank` | src/paging.c:131-188 | taking or giving back a directory that names no frame changes no mapping and keeps frames isolated |
| `ProcessLaws.CreateHasRoom` | src/process.c:110-125 | after the checks of creation the slot search never yields -1 and directory creation never NULL |
| `ProcessLaws.CreateKeeps` | src/process.c:89-184 | creation, whatever its code, keeps slots, directories, counts, records and frames in agreement |
| `ProcessLaws.NewBlock` | src/process.c:150-180 | the control block of a new process, field by field: number, name, state, entry point, flags, directory and every register |
| `ProcessLaws.DestroyKeeps` | src/process.c:32-54 | destroying a live process keeps that agreement |
| `ProcessLaws.DestroyClears` | src/process.c:48-51 | the block of a destroyed slot is all zero, and every other block is unchanged |
| `ProcessLaws.DestroyExact` | src/process.c:32-54 | process_destroy, which does not look whether the slot is used, keeps it if and only if it is |
| `ProcessLaws.MarkedFrames` | src/paging.c:24-28 | in a balanced kernel the marked frames number 1 plus twice the live processes |
| `ProcessLaws.CheckNeverRefuses` | src/process.c:103-107 | the memory check refuses nothing; only more than eight pages are refused |
| `ProcessLaws.CreateBalanced` | src/process.c:136-138 | creation keeps two frames for each process if and only if at most 14 were live and the load page is not the stack page |
| `ProcessLaws.SixteenthGetsNone` | src/paging.c:68-91 | the sixteenth process gets no frame: its directory maps nothing but the kernel and no frame is marked |
| `ProcessLaws.ChecksMeaning` | src/process.c:91-107 | the checks of a creation pass if and only if the address is below the kernel, at most eight pages are needed and fewer than 16 processes are live |
| `ProcessLaws.LoadableMeaning` | src/process.c:98-107 | in bytes: below the kernel, and at most seven pages and two bytes, or so large that adding a page wraps around |
| `ProcessLaws.CreateCode` | src/process.c:89-184 | the code of a creation, for every 32-bit size |
| `ProcessLaws.DestroyBalanced` | src/process.c:32-54 | destruction gives back exactly two frames |
| `ProcessLaws.CreateThenDestroy` | src/process.c:32-184 | creating then destroying restores slots, counters and other processes, and the whole memory if and only if the load page is not the stack page or frames had run out |
| `ProcessLaws.CreateOrphans` | src/process.c:136-138 | creation orphans a frame if and only if it loads into the stack page with frames to spare |
| `ProcessLaws.DestroyOrphans` | src/process.c:32-54 | destruction orphans no frame |
| `ProcessLaws.PageReturned` | src/process.c:56-87 | asking for a page and giving it back restores the control block, the frame map and all mappings |
| `ProcessLaws.PageAsked` | src/process.c:56-72 | which record takes the address, or that nothing happens at eight pages or with no record free |
| `ProcessLaws.BootOk` | src/kernel.c:43-64 | the booted kernel satisfies the invariant with one marked frame |
| `ProcessLaws.BootMapped` | src/paging.c:7-28 | the page directory the kernel boots with, entry by entry, and the one marked frame |
| `Scheduler.Search` | src/scheduler.c:46-56 | the search loop ends at the nearest used slot in cyclic order |
| `Scheduler.TickKeeps` | src/scheduler.c:20-61 | a timer interrupt keeps the kernel's invariant and every process's directory and records, and loads the chosen process's directory |
| `Scheduler.TickSaves` | src/scheduler.c:20-37 | the interrupted registers, instruction pointer and flags are stored in the current block, its directory is kept, and no other block changes |
| `Scheduler.TickPicks` | src/scheduler.c:39-56 | the slot switched to: the next used one after the current, else the first used one; with none running the search starts after slot 0 |
| `Scheduler.TickRunsOne` | src/scheduler.c:20-61 | after a switch the current slot, and no other used slot, is RUNNING |
| `Scheduler.CreateRunsOne` | src/process.c:140-176 | creation leaves a second RUNNING slot if and only if loading fails on a slot left RUNNING |
| `KernelRuns.StepKeeps` | src/process.c:32-184 | every event keeps the invariant, and only the timer changes the current process |
| `KernelRuns.RunKeeps` | src/process.c:32-184 | every run from boot keeps the allocators in agreement and the frames isolated |
| `KernelRuns.StepBalanced` | src/process.c:136-138 | an event leaves each process its two frames if and only if it is no creation beyond 15 live processes or into the stack page |
| `KernelRuns.RunBalanced` | src/process.c:32-138 | in every run without such a creation each process owns two frames, 1 + 2 × live are marked, and every marked one is named |
| `KernelRuns.TickCloser` | src/scheduler.c:46-56 | a switch picks a live process or brings the search strictly closer to it |
| `KernelRuns.NoStarvation` | src/scheduler.c:39-56 | a process that stays live is switched to once there have been more interrupts than slots to pass |
| `KernelRuns.WithinSixteen` | src/scheduler.c:39-56 | so within 16 interrupts, whatever is created or destroyed meanwhile |
| `KernelRuns.TimerFaithful` | src/scheduler.c:20-37 | an interrupt leaves every process what it is owed if and only if the interrupted slot was not destroyed and reused, or the overwritten context is no different |
| `KernelRuns.RunFaithful` | src/scheduler.c:20-61 | in every run without such reuse every slot holds what it is owed: a live process its last saved context or its first one, and one whose load failed what its slot was left with |
| `KernelRuns.RunResumes` | src/scheduler.c:58-60 | and each switch hands over exactly that context under that process's page directory |
| `KernelRuns.ResumedAsInterrupted` | src/scheduler.c:20-61 | a process interrupted at one step and switched to at a later one is resumed with the registers, instruction pointer and flags of that interrupt, under its own directory |
| `KernelRuns.ResumedAsCreated` | src/process.c:150-176 | one not interrupted since its creation is started with its first context, under its own directory |
| `KernelRuns.RunNumbered` | src/process.c:170-173 | in every run without a failed load each live process has the number of its slot |
| `KernelRuns.RunRunsOne` | src/scheduler.c:20-61 | in every run without a failed load only the current process is marked RUNNING |
| `KernelRuns.FailedLoadRuns` | src/process.c:140-145 | a failed load after boot leaves a RUNNING slot that never ran |
| `KernelRuns.ShellPasses` | src/kernel.c:76-88 | the checks on the shell the kernel loads at start pass |
| `KernelRuns.FirstProcessRuns` | src/kernel.c:87-93 | the first process created after boot is the one switched to, with every register as the source sets it and its own page directory, in which entry point and stack have a frame unless they share a page |
| `AddressSpaces.AllocateSpace` | src/paging.c:73-86 | mapping a page below the kernel keeps the kernel's entry and, if a frame other than 0 is left, gives the page a present, writable, 4 MiB user entry, bit by bit |
| `AddressSpaces.StepSpaces` | src/process.c:32-184 | every event keeps the shape of every live process's page directory, whatever the uninitialised flags held |
| `AddressSpaces.ReachIs` | src/header/memory/paging.h:41-76 | user mode reaches, and can store to, exactly the frame an entry names, a marked frame other than 0, and nothing in the kernel's half |
| `AddressSpaces.Protection` | src/paging.c:57-118 | two user-mode accesses reach the same frame only in the same page of the same process |
| `AddressSpaces.RunProtection` | src/process.c:32-184 | in every run from boot no process reaches another's frame or frame 0, and each has the kernel mapped at 0xC0000000, present, writable, 4 MiB and closed to user mode |
| `AddressSpaces.RunReaches` | src/process.c:136-138 | in every run of at most 15 live processes each one can write its load page and its stack page |
| `AddressSpaces.ImageReach` | src/process.c:136-138 | a process with its two frames reaches its whole image if and only if the image ends in its first page, or starts right below the stack page and ends there |
| `AddressSpaces.RunImage` | src/process.c:103-138 | so in every run of at most 15 live processes, for the address and size a live process was created with |
| `KernelExamples.SlotReused` | src/interrupt.c:534-546 | input to `TimerFaithful`: terminate and create before the next tick, and the new process starts at the address of the old one |
| `KernelExamples.SpawnMany` | src/process.c:89-184 | every number of live processes up to 15 is reached from boot, each with its two frames |
| `KernelExamples.SixteenProcesses` | src/process.c:89-184 | input to `CreateBalanced`: sixteen creations after boot all succeed and the last process has no frame |
| `KernelExamples.StackPageShared` | src/process.c:136-138 | input to `CreateBalanced` and `CreateOrphans`: an executable at 0xBFC00000, created after boot |
| `KernelExamples.StackPageLost` | src/process.c:32-184 | input to `CreateThenDestroy`: the same executable, whose destruction does not restore the memory |
| `KernelExamples.MappedTwice` | src/kernel.c:63-64 | input to `AllocateOrphans`: the kernel's first page mapped once more |
| `KernelExamples.UnusedSlotDestroyed` | src/process.c:32-54 | input to `DestroyExact`: slot 0 right after boot, which takes the count of processes to 2^32 - 1 |
| `KernelExamples.SevenPagesLoadable` | src/process.c:103-107 | an executable of seven pages passes the checks |
| `KernelExamples.EightPagesRefused` | src/process.c:103-107 | one of eight pages is refused with code 3, even right after boot |
| `KernelExamples.FirstSpace` | src/process.c:89-184 | a loadable executable, created after boot, has its address space in order |
| `KernelExamples.LargeImageFaults` | src/process.c:136-138 | input to `RunImage`: of an image of more than one page at address 0 the second page faults |
| `KernelMachine.Machine.constructor` | src/kernel.c:63-64 | the static tables and the first mapping are the booted kernel |
| `KernelMachine.Machine.UpdatePageDirectoryEntry` | src/paging.c:30-40 | exactly one entry changes |
| `KernelMachine.Machine.AllocateUserPageFrame` | src/paging.c:57-92 | computes `Paging.Allocate` in place |
| `KernelMachine.Machine.FreeUserPageFrame` | src/paging.c:94-118 | computes `Paging.Release` in place |
| `KernelMachine.Machine.CreateNewPageDirectory` | src/paging.c:131-170 | takes the first unused directory, with only the kernel's entry, or yields null |
| `KernelMachine.Machine.FreePageDirectory` | src/paging.c:172-188 | clears exactly a directory from the list |
| `KernelMachine.Machine.InactiveIndex` | src/process.c:14-21 | the first unused slot, or -1 |
| `KernelMachine.Machine.ProcessAllocatePageFrame` | src/process.c:56-72 | computes `Process.AllocatePage` in place |
| `KernelMachine.Machine.ProcessDeallocatePageFrame` | src/process.c:74-87 | computes `Process.DeallocatePage` in place |
| `KernelMachine.Machine.CheckCreation` | src/process.c:90-107 | the code of the checks of a creation |
| `KernelMachine.Machine.CreateUserProcess` | src/process.c:89-184 | computes `Process.Create` in place and keeps the invariant |
| `KernelMachine.Machine.DestroyProcess` | src/process.c:32-54 | computes `Process.Destroy` in place, keeping the invariant if and only if the slot was used |
| `KernelMachine.Machine.SaveContext` | src/scheduler.c:20-37 | saves all but the page directory into the current block and marks it READY |
| `KernelMachine.Machine.SearchNext` | src/scheduler.c:46-56 | the endless loop ends, at the nearest used slot |
| `KernelMachine.Machine.SwitchToNextProcess` | src/scheduler.c:39-61 | marks the chosen slot RUNNING, loads its directory and hands over its context |
| `KernelMachine.Machine.TimerInterrupt` | src/interrupt.c:110-126 | save, then switch |

## Left out

- Byte layout of clusters, packed structs and bit-fields: a cluster is a boot block, a table, a directory or data, so reading a cluster as another kind is outside the model; the two 16-bit halves of a cluster number are one field and the unused time fields are omitted.
- Arrays of clusters and byte images: `ImageDisk` shows that a byte image behaves as an array of clusters; the driver class works on the array of typed clusters and is not connected to the bytes.
- Caller buffers are whole clusters, so that the last cluster of a file is read from within the buffer.
- The boot block is either signed or not; its other bytes are left out.
- Power cuts during `create_fat32`, which writes the signature first; cluster writes are atomic.
- Fat32Driver.Driver.Write: the parent, if its table entry is the end mark, must be a live directory, which the code does not check; a positive size whose eight-bit cluster count is 0 is excluded, since the code then reads an empty array.
- Fat32Driver.Driver.Delete: the parent as for Write, and, in a directory that is not full, a key that is not all zero: the code does not test whether a slot is in use, and for that key follows the table entry of cluster 0 out of the table (`Fat32Codes.ZeroKeyStrays`).
- Fat32Driver.Driver.Read: the parent and key as for Delete, except that the all-zero key may name a header slot.
- Fat32Driver.Driver.Initialize: a signed disk whose table or tree is damaged is not loaded; the code reads any table.
- Fat32Driver.Driver.ReadDirectory: the parent must be a live directory, since the code does not check it at all; the caller's buffer holds a cluster although the code asks for 32 bytes.
- ShellPath.CreatePath: paths of more than 256 characters, which overrun the shell's buffer.
- Inserter.Insert: the parent and key as for Write and Delete; reading and writing the image file and parsing the arguments; the insertion starts from a mounted volume.
- ProcessLaws.DestroyKeeps: only for slots in use; `ProcessLaws.DestroyExact` says what happens otherwise.
- KernelMachine.Machine.CreateUserProcess: loading the file into the new address space is the parameter `readOk`.
- KernelMachine.Machine.FreeUserPageFrame: the uninitialised flags it stores are the parameter `junk`; the entry's frame must be below 32, which holds of every reachable kernel.
- KernelMachine.Machine.SwitchToNextProcess: some slot must be in use, since the loop does not end otherwise; the jump itself is the returned context.
- AddressSpaces.ReachIs: the accessed and dirty bits that the processor itself sets in an entry (Intel SDM volume 3A, chapter 4, Figure 4-4), the other bits beside flags and bits 31:22 of the address, which stay zero, and stale TLB entries.
- 32-bit wrap-around of counters, except where the code relies on it or destroys an unused slot.
- ATA, port, PIC, PIT and CMOS access, segment, interrupt and task tables, TLB flushes, and the assembly around them.
- Framebuffer, keyboard, clock, shell commands and their parsing.
- Shell `cp`, `mv`, `find` and `kill`, and the kernel-side find: they edit raw clusters beside the driver or only combine its calls.
