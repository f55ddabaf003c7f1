# A verified model of the kernel's stateful core

The kernel is a 32-bit x86 teaching system. This project models its six stateful components in Dafny and proves what
holds of them in every state that can be reached: the FAT32 driver, the shell's path walking, the kernel heap, the
physical page allocator, the page tables with the program loader on top of them, and the scheduler.

Each component comes in two layers. One describes the state as a value (a file allocation table and clusters, a list
of blocks, a ring of tasks, a set of free pages, a map of virtual pages) and proves the laws of the operations on it.
The other is the code itself, loop by loop, over the data it changes in place (sectors and a one-sector cache, words
of the heap slab, linked task nodes, a bitmap, table pages in memory); each of its methods is proved to do to the
value what the first layer says.

| files | component |
|---|---|
| Bytes, FatChains, FatTree, FatDirectory, FatNames, FatVolume | the FAT32 volume: chains, ownership of clusters, slots, names, the operations |
| FatSafety, FatRuns, FatTheorems, FatContents, FatRoundTrip, FatLaws, FatExamples | the volume invariant over all runs, round trip and framing, what each operation does for its caller, concrete failures |
| FatDisk, FatLayout, FatDriver | sectors, mirrored tables, the format byte by byte, and the driver |
| ShellPaths, ShellLaws, DisplayedPath, ShellRuns, ShellExamples | the two path walkers, the commands, the displayed path and where it leads, also over whole sessions |
| HeapBlocks, HeapTheorems, HeapStats, KernelHeap | the block list, its laws, its statistics, and the allocator over memory words |
| Scheduler, SchedulerRuns, SchedulerSlices, TaskRing | the scheduler as a state machine, its runs, time slices, and the linked ring |
| PhysicalPages | the page bitmap and the memory map |
| PageTables, Processor, AddressSpace | two-level tables as a map, the walk a processor makes, and the code |
| ElfImage, ElfRuns, ElfOverlap, ElfRoom, ElfStart, ElfFile, ImageRuns, ElfLoader | segments, images, the bytes of the file, segments that share pages, the memory a load needs, the first load, many programs at once, and the loader |

## What is assumed

- Disk operations do not fail, and the volume is mounted. The geometry is the one the driver needs: at least one
  table copy, a table large enough for all clusters plus two, sector numbers below 2^28, 1 to 128 sectors a cluster.
  Under these the guards for an empty volume and for a hint below 2 in cluster allocation never fire and are omitted.
- A sound volume has links that are in range or end marks, and nothing live after an end mark. Soundness is not
  assumed of a run: it is proved for formatted volumes and kept by every operation exactly under the stated condition.
- Heap calls, file system calls and task creation are atomic: the code takes no lock there. The interrupt points of
  the scheduler are those between two stretches with interrupts off, including the one between the two halves of exit.
- The scheduler sees the heap as the set of live allocations; what the heap answers is a parameter. Task ids wrap at
  2^32, so the model identifies tasks by an unbounded serial number of which the id is the remainder.
- Free pages may lie anywhere in memory, page 0 excepted, which pmm_init reserves. The code writes to a page it has
  been handed through the page's physical address used as a virtual one, which leads to that page below 4 MB
  (src/mem/paging.c:66-69). Above, the model follows the write through the page tables: it may reach the right page,
  because the loader maps a page before it fills it; another page in use (`Astray`), after which the load goes on; or
  nothing (`Faulted`), which halts the kernel. Only a table that is installed without having been zeroed, because its
  address led elsewhere (`Wild`), is not followed further.
- The first table is part of the kernel image, which lies in the reserved first megabyte. Segments to be loaded lie at
  or above 4 MB, and their place in the file does not wrap around 2^32. The loader is followed for all of them; what is
  proved of images and of conservation is for segments where nothing is mapped and, but for ElfOverlap, that share no
  page.

## What turned out not to hold

Each of these has a lemma with a concrete input and a lemma that says exactly when the property holds.

- A failed overwrite has already freed the old file and leaves its slot naming free clusters (src/fs/fat32.c:438-456).
  Every operation keeps the volume sound exactly if `FatTheorems.Safe` holds, which a caller can check beforehand.
- A file with contents, or a directory, whose name starts with byte 0xE5 is written to a slot that reads as deleted,
  so its clusters are lost.
- `rmdir` by an absolute path can remove the directory the shell is in, which is then restored as the current one. This
  is the only way a file command can make the displayed path wrong.
- A file is found under the 8.3 name it was written under exactly if no live slot before it has the same dotted name.
  The driver's own slots can: after a file "A B" is created and a file "A" written, "A" is not found.
- src/mem/kheap.h:5 promises 8-byte alignment. The header has 20 bytes, so payloads are aligned to 4, and the very
  first one is not aligned to 8. Requests above 0xFFFFFFF8 are rounded to 0 and granted.
- The displayed path is not extended by a component that does not fit, but is cut back when leaving it. It also loses
  part of a component of more than 12 bytes, so that walking it may not lead to where the shell is.
- A user task created before tasking starts runs with a kernel stack pointer that nobody has set.
- A page or a table for a load may be handed out above 4 MB, where its address leads to it only if the page happens to
  be mapped there. A load is right exactly if `ElfRoom.Placed` holds: the pages and tables it asks for are no more than
  the free pages below 4 MB, of which there are 768 at start-up, or the last pages coincide with the frames they get.
  It returns 0 exactly if `ElfRoom.Carried` holds, which is less: a program of 1000 pages linked at 4 MB is loaded over
  itself without an error. Otherwise it fails, halts, or installs a table it has not zeroed.
- Loading a program whose segments share a page loses one frame for each page mapped twice.
- A usable memory region that does not start on a page boundary frees a page it only partly covers.
- A null answer of the page allocator is ambiguous if page 0 has been freed; the answer "unmapped" is ambiguous for
  the last physical byte.
- The size check on program headers is made in 32 bits and accepts a table that wraps around.

## Model

| member | source | states |
|---|---|---|
| FatChains.ChainIsAcyclic | src/fs/fat32.c:82-99 | a chain that follows links to an end mark never visits a cluster twice |
| FatChains.ChainIsUnique | src/fs/fat32.c:87-99 | the walk from a first cluster gives back exactly the chain that starts there, so a chain is determined by its first cluster |
| FatChains.FreeClearsReachable | src/fs/fat32.c:290-297 | freeing from s clears a cluster exactly if following links from s reaches it, and leaves every other entry, on every table with in-range or end links, cyclic ones included |
| FatChains.FreeChainClears | src/fs/fat32.c:290-297 | on an end-marked chain, freeing clears exactly that chain |
| FatChains.FirstFreeIsFirst | src/fs/fat32.c:272-287 | allocation takes the first free cluster in probe order from the hint, wrapping round |
| FatChains.ProbeVisitsOnce | src/fs/fat32.c:272-287 | for every hint in [2, total] the probe sequence visits each cluster of the table exactly once |
| FatChains.AllocFailsOnlyWhenFull | src/fs/fat32.c:272-287 | allocation yields a free cluster in range whenever there is one, whatever the hint, and 0 exactly on a full table |
| FatChains.LinkIsChain | src/fs/fat32.c:446-480 | linking distinct free clusters one behind the other gives an end-marked chain and changes no other entry |
| FatChains.PicksAreFree | src/fs/fat32.c:446-480 | allocations in a row take distinct clusters that were free, and fall short only by taking all of them |
| FatChains.PicksSucceedIff | src/fs/fat32.c:446-480 | n allocations in a row succeed exactly if n clusters are free |
| FatChains.FreeUndoesLink | src/fs/fat32.c:446-456 | giving back the partial chain of a failed store restores the table it was linked into |
| FatChains.ClearGivesBack | src/fs/fat32.c:290-297 | clearing a chain adds exactly its length to the number of free clusters |
| FatTree.InUseExactlyOnce | src/fs/fat32.c:380-614 | in a well-formed volume every in-use table entry lies in exactly one chain, at exactly one place |
| FatTree.AddKeepsWf | src/fs/fat32.c:380-397 | entering a file of the right length, an empty file or a fresh directory in an open slot keeps the whole tree invariant |
| FatTree.RemoveKeepsWf | src/fs/fat32.c:400-418 | taking out a file or an empty directory other than the current one keeps the whole tree invariant |
| FatTree.OthersSurvive | src/fs/fat32.c:290-297 | clearing one object's chain leaves every other object's chain as it was |
| FatTree.DottedIsDot | src/fs/fat32.c:515-552 | a dot slot of a directory is its own "." or "..", pointing at itself or at its parent |
| FatTree.NothingUnnamed | src/fs/fat32.c:496-560 | no ownership at all accounts for a non-empty chain that no slot names: such a volume is not well formed |
| FatTree.ScanFindsFirst | src/fs/fat32.c:315-342 | what a directory scan finds is the first hit, with no end mark before it |
| FatTree.ScanMissesNothing | src/fs/fat32.c:315-342 | a scan that finds nothing has met an end mark at or before every hit |
| FatTree.LookupIsComplete | src/fs/fat32.c:315-342 | since nothing live follows an end mark, a lookup that stops there misses no live slot |
| FatDirectory.ClustersForIsCeiling | src/fs/fat32.c:446-480 | a file of size bytes takes size divided by the cluster size, rounded up, many clusters |
| FatDirectory.ReadBack | src/fs/fat32.c:203-225 | the clusters written along a chain, read in order and cut to the size, are the bytes written |
| FatDirectory.WithExtentTwice | src/fs/fat32.c:438-445 | emptying a slot's extent and then setting it equals setting it |
| FatNames.ShortFormatShort | src/fs/fat32.c:66-76 | to_short_name after format_short_name after to_short_name equals to_short_name, for every space-free string |
| FatNames.NamesAgree | src/fs/fat32.c:57-76 | on canonical slot names, the case-blind comparison of dotted names and the exact comparison of slot names agree; a canonical slot name holds no NUL |
| FatNames.ShortIsCanonical | src/fs/fat32.c:232-249 | the slot form of an 8.3 name is canonical: upper case, padded, without a period or a NUL |
| FatNames.ShortIsNotDot | src/fs/fat32.c:232-249 | the slot form of a name never is "." or "..", so dot entries cannot be removed by name |
| FatNames.ShortBytes | src/fs/fat32.c:53-55 | the slot form byte by byte: up to 8 of what precedes the first period and up to 3 of what follows it, padded with spaces, letter by letter the same, but with no byte from 0x61 to 0x7A |
| FatNames.SameNameIff | src/fs/fat32.c:57-63 | the case-blind comparison accepts exactly the names that are equal byte by byte up to 0x20 between a letter and its capital |
| FatNames.CaseBlindShort | src/fs/fat32.c:232-249 | names that are the same up to case have the same slot form |
| FatNames.ToShortName | src/fs/fat32.c:232-249 | the loop that fills the 11-byte buffer computes the slot form |
| FatNames.FormatShortName | src/fs/fat32.c:66-76 | the loops write both parts of the slot name and the closing NUL; read as a string, the buffer ends at the first NUL |
| FatNames.StrEqCi | src/fs/fat32.c:57-63 | the loop compares the strings two buffers hold, each up to its first NUL, ignoring case |
| FatSafety.CwdOwned | src/fs/fat32.c:616-655 | the current directory is always a directory of the tree with its own chain, and nothing live in it follows an end mark |
| FatSafety.EnterKeepsWf | src/fs/fat32.c:380-397 | filling an open slot of the current directory with a slot that fits a chain just linked keeps the volume well formed |
| FatSafety.TakeOutKeepsWf | src/fs/fat32.c:400-418 | freeing what a slot names and marking the slot deleted keeps the volume well formed, and says what ownership is left |
| FatSafety.StoreKeepsWf | src/fs/fat32.c:446-489 | a store that succeeds in an open slot leaves a well-formed volume with one more object |
| FatSafety.StoreFailsQuietly | src/fs/fat32.c:446-456 | a store that fails for lack of clusters leaves the table exactly as it was and has written to free clusters only |
| FatRuns.CreateKeepsSound | src/fs/fat32.c:380-397 | create keeps the volume sound, whatever the name |
| FatRuns.RemoveKeepsSound | src/fs/fat32.c:400-418 | remove keeps the volume sound |
| FatRuns.OverwriteKeepsSound | src/fs/fat32.c:421-489 | a successful overwrite keeps the volume sound |
| FatRuns.NewFileKeepsSound | src/fs/fat32.c:421-489 | a successful write of a new file keeps the volume sound |
| FatRuns.MkdirKeepsSound | src/fs/fat32.c:496-560 | mkdir keeps the volume sound, unless the name reads as an erased slot |
| FatRuns.EmptyCheckIsExact | src/fs/fat32.c:563-585 | the emptiness check passes exactly the directories that name nothing |
| FatRuns.RmdirKeepsSound | src/fs/fat32.c:588-614 | rmdir keeps the volume sound and never orphans a live child |
| FatRuns.ChdirDown | src/fs/fat32.c:616-655 | entering a subdirectory goes exactly one level down, to a directory the current one names |
| FatRuns.ChdirUp | src/fs/fat32.c:616-655 | ".." goes to the parent, and stays at the root |
| FatRuns.DownThenUp | src/fs/fat32.c:616-655 | chdir(d) then chdir("..") returns to the original current directory |
| FatRuns.ChdirKeepsSound | src/fs/fat32.c:616-655 | chdir keeps the volume sound |
| FatTree.DirsStay | src/fs/fat32.c:290-456 | directories whose clusters and slots are kept are directories again, with the same chains, under every ownership that accounts for the new volume |
| FatTheorems.FailedOverwriteBreaks | src/fs/fat32.c:438-456 | an overwrite of a file with contents that fails for lack of clusters leaves a volume that no ownership accounts for, wherever the current directory is put |
| FatTheorems.ErasedFile | src/fs/fat32.c:421-489 | a new file whose name starts with byte 0xE5 keeps the volume sound exactly if it is empty, with the current directory put at any directory |
| FatTheorems.ErasedDir | src/fs/fat32.c:496-560 | a new directory whose name starts with byte 0xE5 always breaks the volume, wherever the current directory is put |
| FatTheorems.WriteSucceedsIff | src/fs/fat32.c:421-489 | a write succeeds exactly if there is a slot for the name and ceil(size / cluster size) clusters are free, the old file's own counted |
| FatTheorems.FailedWriteKeepsSound | src/fs/fat32.c:446-456 | a failed write that freed nothing leaves every table entry and every object as they were |
| FatTheorems.SoundAtIffSafe | src/fs/fat32.c:380-560 | create, remove, write and mkdir keep the volume sound exactly if safe, also when the current directory is then put back at another directory |
| FatTheorems.SoundIffSafe | src/fs/fat32.c:380-655 | each operation keeps a sound volume sound exactly if a condition on its inputs holds: an overwrite of contents has room, and no 0xE5 name gets clusters |
| FatTheorems.RunIsSoundIffSafe | src/fs/fat32.c:380-655 | a run of any operations passes through sound volumes only exactly if each is safe in its turn |
| FatContents.LookupsAgree | src/fs/fat32.c:143-191 | in a directory with canonical names, fat32_find of an 8.3 name and search_dir of its slot form select the same slot |
| FatContents.OtherFilesUntouched | src/fs/fat32.c:380-655 | no operation, failing or not, safe or not, changes the slot or the contents of any file but the one in its own slot, in any directory |
| FatLaws.RemoveLaw | src/fs/fat32.c:400-418 | remove succeeds exactly if the name is found in a slot that names no directory; it then erases that slot alone, frees exactly the clusters it leads to, and the name is found again only if another slot carries it; on failure nothing changes |
| FatLaws.RmdirLaw | src/fs/fat32.c:588-614 | rmdir succeeds exactly on a named directory in which nothing is named, "." and ".." excepted; it then leaves what removing a file leaves; on failure nothing changes |
| FatLaws.CreateLaw | src/fs/fat32.c:380-397 | create succeeds exactly if the name is not taken and a slot is free; the first free slot then holds an empty file of that name, found by it, and nothing else changes; on failure nothing does |
| FatLaws.MkdirLaw | src/fs/fat32.c:496-560 | mkdir succeeds exactly if the name is not taken and a slot and a cluster are free; it takes one cluster, which holds ".", ".." and nothing else; entering the name leads there and ".." back; on failure nothing changes |
| FatLaws.ChdirLaw | src/fs/fat32.c:616-655 | "/" leads to the root, "." nowhere, a name to the directory its slot names; any other name fails and changes nothing |
| FatLaws.WriteLaw | src/fs/fat32.c:421-489 | a write succeeds exactly if there is a slot that names no directory and the free clusters and those of the old contents suffice; it leaves exactly that many fewer free, and in that slot alone a file of that name and size; a write that fails leaves the directory as it was |
| FatLaws.CaseBlindFind | src/fs/fat32.c:173-191 | names that are the same up to case are found in the same slot, by both lookups |
| FatRoundTrip.LookupFindsWritten | src/fs/fat32.c:421-489 | after a successful write the lookup by slot name finds the slot written, and every other slot of the directory is unchanged |
| FatRoundTrip.FindsWrittenIff | src/fs/fat32.c:173-191 | after a successful write, fat32_find of the name gives the slot written exactly if that slot's own dotted name matches and no live slot before it does |
| FatRoundTrip.RoundTripIff | src/fs/fat32.c:173-225 | after a successful write of an 8.3 name, in any directory, the slot written reads back exactly the bytes, and fat32_find leads to it if and only if no live slot before it has a matching dotted name |
| FatExamples.SpacedNameHidesFile | src/fs/fat32.c:66-76 | a concrete run from a formatted volume: create "A B", write "A", after which fat32_find of "A" does not give the slot written |
| FatRoundTrip.RoundTrip | src/fs/fat32.c:184-225 | in a directory whose slot names are canonical, fat32_find then fat32_read_file yield exactly the bytes, for every buffer size |
| FatExamples.FormattedIsSound | src/fs/fat32.c:108-138 | a freshly formatted volume of any size is sound, so the invariant can be met |
| FatExamples.OverwriteLosesFile | src/fs/fat32.c:438-456 | a concrete two-step run in which a failed overwrite leaves a slot that names a free cluster |
| FatExamples.ErasedNameLosesCluster | src/fs/fat32.c:496-560 | a concrete mkdir of a name starting with 0xE5 that loses a cluster |
| FatDisk.PutLinkRaw | src/fs/fat32.c:252-269 | setting a link on disk changes that entry of that copy only, and keeps its reserved top four bits |
| FatDisk.DataWriteKeepsTable | src/fs/fat32.c:370-376 | writes to the data area never hit a table sector, in any copy |
| FatDisk.TableWriteKeepsData | src/fs/fat32.c:252-269 | writes to table sectors never change a cluster |
| FatDisk.SectorSlot | src/fs/fat32.c:315-342 | slot t of sector s of a cluster is slot 16 s + t of the cluster |
| FatDisk.SectorPutSlot | src/fs/fat32.c:370-376 | rewriting 32 bytes of a sector rewrites exactly that slot of that cluster |
| FatDisk.WriteWholeCluster | src/fs/fat32.c:475-479 | writing the sectors of a cluster replaces that cluster only, and no link |
| FatLayout.TableOnDisk | src/fs/fat32.c:87-99 | on the disk as one run of bytes, entry c of copy f is the little-endian word at 512 (start + f size) + 4 c, of which the low 28 bits are the link |
| FatLayout.ClusterOnDisk | src/fs/fat32.c:78-81 | byte b of cluster c is the byte at 512 (start + copies size + (c - 2) spc) + b |
| FatLayout.LinksMean | src/fs/fat32.c:82-99 | the values that end a chain and that mean a free cluster |
| FatLayout.SlotMeans | src/fs/fat32.h:4-18 | what each byte of a slot means: name, attributes, first cluster in two halves, size, end and deletion marks |
| FatLayout.ExtentBytes | src/fs/fat32.c:438-480 | replacing the extent of a slot rewrites bytes 20, 21 and 26 to 31, low byte first, and no other |
| FatLayout.NewSlotBytes | src/fs/fat32.c:380-397 | a new file is its name, attribute 0x20 and zeros; a new directory has attribute 0x10 |
| FatLayout.DeletedBytes | src/fs/fat32.c:400-418 | deleting a slot sets its first byte to 0xE5 and keeps the others |
| FatLayout.ChunkBytes | src/fs/fat32.c:457-480 | a cluster written holds the next bytes of the file in order, and zeros behind the last |
| FatLayout.FreePosLaw | src/fs/fat32.c:346-368 | the slot taken for something new is the first whose first byte is 0 or 0xE5, and there is one if any slot is so |
| FatDriver.Fat32.constructor | src/fs/fat32.c:108-138 | the mounted state: current directory at the root, hint at 2, nothing cached |
| FatDriver.Fat32.NextCluster | src/fs/fat32.c:87-99 | the link read through the one-sector cache equals the uncached on-disk entry; only the cache changes |
| FatDriver.Fat32.SetFatEntry | src/fs/fat32.c:252-269 | the entry is set in every copy of the table; copies that were equal stay equal, reserved bits are kept, the cache is dropped, no cluster changes |
| FatDriver.Fat32.AllocCluster | src/fs/fat32.c:272-287 | takes and end-marks the first free cluster from the hint on, or returns 0 on a full table |
| FatDriver.Fat32.FreeChain | src/fs/fat32.c:290-297 | terminates on every table with in-range or end links and leaves the table FreeFrom gives |
| FatDriver.Fat32.ScanDir | src/fs/fat32.c:315-342 | the nested loops over chain, sectors and slots find what the scan of the tree finds, with its place on disk |
| FatDriver.Fat32.SearchDir | src/fs/fat32.c:315-342 | finds the slot the lookup by slot name selects |
| FatDriver.Fat32.FindFreeDirent | src/fs/fat32.c:346-367 | finds the first free slot, and does not extend the chain |
| FatDriver.Fat32.DirIsEmpty | src/fs/fat32.c:563-585 | agrees with the emptiness check of the model |
| FatDriver.Fat32.WriteDirent | src/fs/fat32.c:370-376 | rewrites one slot of the volume and nothing else |
| FatDriver.Fat32.MarkDeleted | src/fs/fat32.c:400-418 | sets the first byte of one slot to 0xE5 and changes nothing else |
| FatDriver.Fat32.WriteCluster | src/fs/fat32.c:475-479 | replaces one cluster and nothing else |
| FatDriver.Fat32.FillCluster | src/fs/fat32.c:467-473 | the buffer holds the next bytes of the file, then zeros |
| FatDriver.Fat32.AppendCluster | src/fs/fat32.c:451-480 | one turn of the store loop: allocate, link behind the previous cluster, fill |
| FatDriver.Fat32.StoreBytes | src/fs/fat32.c:446-489 | the whole store loop, including giving back the partial chain when the volume is full |
| FatDriver.Fat32.Create | src/fs/fat32.c:380-397 | the sector-level code does what Create does to the volume |
| FatDriver.Fat32.Remove | src/fs/fat32.c:400-418 | the sector-level code does what Remove does to the volume |
| FatDriver.Fat32.WriteFile | src/fs/fat32.c:421-489 | the sector-level code does what WriteFile does to the volume, success and failure |
| FatDriver.Fat32.Mkdir | src/fs/fat32.c:496-560 | the sector-level code does what Mkdir does to the volume |
| FatDriver.Fat32.Rmdir | src/fs/fat32.c:588-614 | the sector-level code does what Rmdir does to the volume |
| FatDriver.Fat32.Chdir | src/fs/fat32.c:616-655 | the sector-level code does what Chdir does to the volume |
| FatDriver.Fat32.SetCwdCluster | src/fs/fat32.c:685-689 | puts back a saved current directory; 0 and 1 mean the root |
| FatDriver.ReadWalkIsReadFile | src/fs/fat32.c:203-225 | on an end-marked chain, following links until enough is read gives the chain's contents, cut to the size and to max |
| FatDriver.Fat32.ReadFile | src/fs/fat32.c:203-225 | on every table with in-range or end links, cyclic ones included, reads cluster after cluster until a link ends the walk or enough is read |
| FatDriver.Fat32.ListDir | src/fs/fat32.c:143-171 | visits every live slot in order, up to the end mark |
| FatDriver.Fat32.Find | src/fs/fat32.c:173-191 | the visitor that formats each name and keeps the first match, both as strings up to a NUL, finds what the scan finds |
| ShellPaths.WalkersAgree | src/shell/shell.c:297-335 | for every path with a last component, path_descend followed by chdir of that component gives the same result and current directory as fat32_chdir_path |
| ShellPaths.CommandsStayPut | src/shell/shell.c:424-445 | every file command leaves the current directory where it was, on success and on failure |
| ShellPaths.RmdirReturns | src/shell/shell.c:572-590 | after rmdir the shell is back in a live directory exactly if the path did not lead to its own, empty, directory |
| ShellPaths.CommandsSoundIff | src/shell/shell.c:340-349 | a file command, with the directory put back, keeps the volume sound exactly if its operation is safe and it does not remove the current directory |
| ShellLaws.CommandLaw | src/shell/shell.c:340-349 | each file command does what its name says in the directory its path leads to, comes back, and but for a write changes nothing if it fails: what touch makes is found and empty, what write writes reads back, what mkdir makes can be entered and left, what rm and rmdir remove was of the right kind and is not found |
| ShellLaws.ComponentsLaw | src/shell/shell.c:614-647 | the components of a path are the parts between its slashes, each cut to 15 bytes, empty ones left out, for every path |
| ShellLaws.StartLaw | src/shell/shell.c:606-612 | a path starts from the root exactly if its first byte is a slash |
| ShellLaws.PushLaw | src/shell/shell.c:527-540 | the display is extended by a slash, but for the root, and the component exactly if that fits in 128 bytes with a slash and an end mark; else it stays |
| ShellPaths.PushKeepsDisplayed | src/shell/shell.c:527-540 | pushing a component keeps the displayed path absolute, without a double or trailing slash, and within its buffer |
| ShellPaths.PopKeepsDisplayed | src/shell/shell.c:542-550 | so does popping one |
| ShellPaths.DisplayBytes | src/shell/shell.c:513-525 | what is displayed of a component is its first 12 bytes, the same up to case, without small letters |
| ShellPaths.PopUndoesPush | src/shell/shell.c:527-550 | path_pop after path_push restores the displayed path exactly if the component fitted |
| ShellPaths.WalkPath | src/fs/fat32.c:658-683 | the driver's tokeniser loop computes ChdirPath |
| ShellPaths.DescendPath | src/shell/shell.c:297-335 | the shell's tokeniser loop, which holds one component back, computes Descend |
| ShellPaths.Shell.ToParentAndBase | src/shell/shell.c:340-349 | moves to the parent and hands back the last component, or restores the current directory |
| ShellPaths.Shell.Run | src/shell/shell.c:424-590 | touch, write, rm, mkdir, rmdir and the lookup of cat, with the current directory put back |
| ShellPaths.Shell.Ls | src/shell/shell.c:353-371 | ls lists the live slots of the directory a path leads to, in order, and leaves the current directory and the volume as they were |
| ShellPaths.Shell.PathPush | src/shell/shell.c:513-540 | the loops that append an upper-case component compute Push |
| ShellPaths.Shell.PathPop | src/shell/shell.c:542-550 | the loop that cuts back to the last slash computes Pop |
| ShellPaths.Shell.Cd | src/shell/shell.c:592-648 | cd ends where fat32_chdir_path ends and shows the path component by component; on failure both are put back |
| DisplayedPath.TokensShown | src/shell/shell.c:527-540 | taking a displayed path apart gives the components it was put together from |
| DisplayedPath.ShortIsUncut | src/shell/shell.c:513-540 | a component of at most 12 bytes, or with at most 8 before its period, is displayed under a name with the same slot form |
| DisplayedPath.OneNameEach | src/fs/fat32.c:616-655 | two names lead from a directory to the same subdirectory exactly if they have the same slot form |
| DisplayedPath.RightIffFits | src/shell/shell.c:616-640 | if walking the displayed path from the root leads to the current directory, it does so after one more component exactly if that component fits: a dot name, or room for it and a slot form that survives the cut to 12 bytes |
| DisplayedPath.WalkIsRightIff | src/shell/shell.c:616-640 | along a whole walk the displayed path is right after every component exactly if every component fits in its turn |
| DisplayedPath.CdShowsWhereItIs | src/shell/shell.c:592-648 | cd of any path whose components fit leaves a displayed path that leads from the root to the current directory |
| ShellExamples.RmdirStrandsShell | src/shell/shell.c:572-590 | a concrete run, mkdir A, cd A, rmdir /A, that leaves the shell in a freed directory |
| ShellExamples.DeepPathLosesComponent | src/shell/shell.c:527-550 | a concrete path the shell can display, of 126 bytes, on which path_push does nothing and path_pop then loses a component |
| ShellExamples.LongNameIsCut | src/shell/shell.c:513-540 | a concrete run from a formatted volume: mkdir and cd of ABCDEFGHIJK.T, after which the displayed path does not lead to where the shell is |
| ShellRuns.OpKeeps | src/fs/fat32.c:380-614 | an operation leaves every directory but the one it removes reachable, by every component, from every directory it was reachable from |
| ShellRuns.WalkStays | src/shell/shell.c:527-550 | a path goes on leading to any directory that stays: the directories it passes through name something, so rmdir removes none of them |
| ShellRuns.RightStaysIff | src/shell/shell.c:340-349 | after any file command, failing or not, the displayed path leads to where the shell is exactly if the command has not removed the directory the shell is in |
| ShellRuns.SessionIsTrustyIff | src/shell/shell.c:340-648 | over whole sessions of file commands and cd, the volume stays sound and the displayed path right exactly if every step is harmless in its turn: a safe command that does not remove the directory one is in, or a component that fits |
| ShellRuns.CdIsRun | src/shell/shell.c:592-648 | a cd that succeeds is a run of such steps, from the root if the path is absolute, one a component |
| HeapBlocks.CarveKeepsWf | src/mem/kheap.c:58-86 | splitting and granting a block keeps the tiling and never makes two free neighbours |
| HeapBlocks.MallocIsFirstFit | src/mem/kheap.c:58-86 | kmalloc succeeds exactly if some free block is large enough, and takes the lowest one |
| HeapBlocks.GrantHoldsRequest | src/mem/kheap.c:35-37 | the block granted holds the bytes asked for exactly if the size is at most 0xFFFFFFF8 |
| HeapBlocks.FreeKeepsWf | src/mem/kheap.c:99-124 | kfree with two-sided coalescing keeps the tiling and never leaves two free neighbours |
| HeapBlocks.FreeUndoesMalloc | src/mem/kheap.c:58-124 | kfree right after a successful kmalloc restores the exact block list, split or not |
| HeapTheorems.LivePayloadsDisjoint | src/mem/kheap.c:58-86 | any two live payloads are the same or do not overlap |
| HeapTheorems.LivePayloadsInside | src/mem/kheap.c:58-86 | every live payload lies inside the 256 KB slab, behind a header |
| HeapTheorems.MallocAddsOne | src/mem/kheap.c:58-86 | kmalloc adds exactly one live payload and moves none |
| HeapTheorems.FreeRemovesOne | src/mem/kheap.c:99-124 | kfree removes exactly one live payload and moves none |
| HeapTheorems.NothingLiveIsInitial | src/mem/kheap.c:47-54 | a heap with nothing live is the single initial free block |
| HeapTheorems.AnyOrderEmpties | src/mem/kheap.c:99-124 | freeing every live block, in any order, returns the heap to the single initial free block |
| HeapTheorems.StatsAddUp | src/mem/kheap.c:128-149 | used + free + 20 * blocks equals the extent walked, and the counts add up |
| HeapTheorems.StatsAreExact | src/mem/kheap.c:128-149 | over the whole list: used + free + 20 * blocks is the slab size, and a non-zero request succeeds exactly if some block is free and the rounded size is at most largest_free |
| HeapStats.WholeList | src/mem/kheap.c:128-149 | used bytes and used blocks are the total size and the number of the live payloads |
| HeapStats.FreshStats | src/mem/kheap.c:128-149 | a fresh heap reports 262144 in all, 0 used, 262124 free, one free block |
| HeapStats.MallocCounts | src/mem/kheap.c:58-86 | a granted request raises the used bytes by the size granted and the used blocks by one |
| HeapStats.FreeCounts | src/mem/kheap.c:99-126 | a release lowers the used bytes by the size released and the used blocks by one |
| HeapStats.GrantSize | src/mem/kheap.c:58-86 | the block granted has the size asked for rounded up to 8, or that of the block found if less than 28 bytes would be left |
| HeapTheorems.PayloadAlignment | src/mem/kheap.c:69-83 | payloads are 4-aligned, and 8-aligned exactly if the first block that fits, in the list before the call, has its header 4 past a multiple of 8 |
| HeapTheorems.FirstGrantMisaligned | src/mem/kheap.c:58-86 | the very first payload is not a multiple of 8 |
| HeapTheorems.WrappedGrant | src/mem/kheap.c:35-37 | a request for 2^32 - 1 bytes is granted with fewer |
| HeapTheorems.EveryRunIsWf | src/mem/kheap.c:47-124 | after every run of kmalloc and kfree the blocks tile the slab with no two free neighbours |
| KernelHeap.Heap.constructor | src/mem/kheap.c:47-54 | memory after kheap_init holds the one initial free block |
| KernelHeap.Heap.Split | src/mem/kheap.c:70-81 | the eight header writes of a split, in their order |
| KernelHeap.Heap.Take | src/mem/kheap.c:69-83 | headers and both links in memory say what the carved block list says; no payload in use changes |
| KernelHeap.Heap.Kmalloc | src/mem/kheap.c:58-86 | the list walk grants what Malloc grants, its corruption check never fires, and no live payload changes |
| KernelHeap.Heap.Absorb | src/mem/kheap.c:109-124 | merging rewrites size, next, the back link and the magic word so that memory holds the merged list; no payload in use changes |
| KernelHeap.Heap.Kfree | src/mem/kheap.c:99-124 | panics exactly if the pointer is neither null nor a used block; else memory holds Free of the old list, and every other live payload is unchanged |
| KernelHeap.Heap.GetStats | src/mem/kheap.c:128-149 | the list walk computes the statistics of the block list |
| KernelHeap.Heap.WritePayload | src/mem/kheap.c:58-86 | a caller writing inside its own payload disturbs neither the block list nor any other payload |
| Scheduler.ReapAllFrees | src/proc/task.c:50-56 | reaping frees every allocation of the dead exactly once and nothing else, and never panics |
| Scheduler.PickNextFrees | src/proc/task.c:231-248 | picking drops exactly the zombies before the next live task, frees what they own, and keeps the rest a ring |
| Scheduler.FailedCreateChangesNothing | src/proc/task.c:92-160 | a task that cannot be created for lack of memory leaves no trace |
| Scheduler.YieldKeepsInv | src/proc/task.c:250-287 | a yield keeps the ring one simple cycle with at most the current task running, nothing owned twice, esp0 the current task's own stack, and a full slice ahead of every waiting task |
| Scheduler.StepKeepsInv | src/proc/task.c:92-302 | every step, also a tick between the two halves of exit, keeps the invariant |
| Scheduler.InitHolds | src/proc/task.c:60-80 | tasking_init establishes the invariant |
| SchedulerRuns.RunKeepsInv | src/proc/task.c:92-302 | safety over every run and every interleaving |
| SchedulerRuns.YieldRunsNearest | src/proc/task.c:231-287 | a yield runs the nearest live task, reaps exactly the zombies passed over, and halts exactly if an exited task has no live successor |
| SchedulerRuns.YieldSparesTheRest | src/proc/task.c:231-287 | what a yield frees is exactly what the dropped zombies own: never the current task's memory or that of a task still in the ring |
| SchedulerRuns.GoneForGood | src/proc/task.c:216-248 | a zombie that has been switched away from is never current again, in any run |
| SchedulerRuns.ExitNeverReturns | src/proc/task.c:216-227 | an exiting task never returns from its yield, however many ticks come between |
| SchedulerRuns.StepConserves | src/proc/task.c:50-212 | memory that belongs to no task changes only by its own owner's doing: tasks leak nothing and free nothing of others |
| SchedulerRuns.RunConserves | src/proc/task.c:50-287 | after any run, allocations and frees by others and user images included, what is allocated is what others hold, followed step by step, plus what the tasks in the ring own |
| SchedulerRuns.WaitingAccount | src/proc/task.c:231-302 | while a live task waits, distance + switches = initial distance + creations, and ticks are bounded by five a switch |
| SchedulerRuns.BoundedWaiting | src/cpu/isr.c:54-64 | a live task d live steps away runs within d + k switches, hence within 5 (d + k) ticks, when k tasks are created meanwhile |
| SchedulerSlices.TickSwitchesIff | src/cpu/isr.c:54-64 | while another task is live, a timer interrupt switches exactly if a switch is pending or at most one tick of the slice is left; alone, a task stays current |
| SchedulerSlices.SliceLasts | src/proc/task.c:291-296 | for as many interrupts as its slice is long, less one, the current task stays, with that much less slice and that many more ticks, and nothing else changes |
| SchedulerSlices.SliceEnds | src/proc/task.c:250-296 | the interrupt that uses up the slice switches exactly if another task is live; the nearest one runs with five ticks, the one before is last, ready unless it has exited |
| SchedulerSlices.RoundIsFair | src/proc/task.c:250-296 | while n live tasks only run, 5 n interrupts give each of them exactly five ticks and come back to the same ring |
| SchedulerSlices.CreatedTask | src/proc/task.c:91-201 | the fields of a new task, its place right behind the current one, and the allocations it owns |
| SchedulerSlices.CreatedRunsNext | src/proc/task.c:91-125 | a new task is the next to run |
| SchedulerSlices.FirstTask | src/proc/task.c:60-80 | the fields of the task tasking starts with |
| SchedulerSlices.FreeingLaw | src/mem/kheap.c:99-126 | as the scheduler sees the heap: freeing null does nothing, freeing what is allocated gives it back, anything else panics |
| SchedulerRuns.CreateNeedsTasking | src/proc/task.c:119-201 | creating a task of either kind keeps the invariant, and the kernel stack pointer right, exactly if tasking has started |
| SchedulerRuns.FirstUserTaskHasNoStack | src/proc/task.c:193-201 | a concrete first user task whose kernel stack is not loaded |
| TaskRing.TaskScheduler.ReadyInsertAfterCurrent | src/proc/task.c:34-39 | links the node in behind the current one; the nodes still form one cycle |
| TaskRing.TaskScheduler.ReadyRemove | src/proc/task.c:41-47 | the walk to the predecessor ends there, and unlinking leaves one cycle without the node |
| TaskRing.TaskScheduler.ReapNext | src/proc/task.c:50-56 | unlinks the zombie behind the current task and frees image, stacks and struct |
| TaskRing.TaskScheduler.FindNext | src/proc/task.c:231-248 | the loop over the ring does what PickNext does and returns the next task |
| TaskRing.TaskScheduler.SwitchTo | src/proc/task.c:270-286 | states, slices, current and esp0 after a switch |
| TaskRing.TaskScheduler.TaskYield | src/proc/task.c:250-287 | the code does what Yield does |
| TaskRing.TaskScheduler.TaskTick | src/proc/task.c:291-296 | the code does what Tick does |
| TaskRing.TaskScheduler.ShouldResched | src/proc/task.c:298-302 | reads and clears the flag |
| TaskRing.TaskScheduler.TimerInterrupt | src/cpu/isr.c:54-64 | tick, check and yield together do what TimerIrq does |
| TaskRing.TaskScheduler.MarkExited | src/proc/task.c:216-221 | the first half of exit |
| TaskRing.TaskScheduler.Enlist | src/proc/task.c:122-133 | links a new task in, or makes it the first |
| TaskRing.TaskScheduler.TaskCreate | src/proc/task.c:92-134 | creation, with both ways the heap can fail |
| TaskRing.TaskScheduler.TaskCreateUser | src/proc/task.c:150-212 | creation of a user task, with all ways the heap can fail, and the image handed over |
| TaskRing.TaskScheduler.TaskingInit | src/proc/task.c:60-80 | the boot task becomes the one-element ring |
| TaskRing.TaskScheduler.Snapshot | src/proc/task.c:309-328 | the entries written are the ring from the current task on, up to max, and nothing else is written |
| PhysicalPages.BitIsMembership | src/mem/pmm.c:23-31 | setting or clearing a bit takes exactly that page out of, or puts it into, the set of free pages |
| PhysicalPages.GivenUndoesTaken | src/mem/pmm.c:83-104 | pmm_free of the page just allocated restores the free pages |
| PhysicalPages.NullMeansNone | src/mem/pmm.c:83-97 | a null answer means out of memory exactly if page 0 is not free |
| PhysicalPages.PageZeroIsLost | src/mem/pmm.c:83-97 | with only page 0 free, an allocation takes it and answers null |
| PhysicalPages.OrderDoesNotMatter | src/mem/pmm.c:60-81 | the pages free after start-up depend neither on the order nor on the repetition or overlap of the map's entries |
| PhysicalPages.WholePagesAreFreed | src/mem/pmm.c:34-45 | every page that lies wholly in a usable region below 2^44 is freed |
| PhysicalPages.FreedPagesAreWhole | src/mem/pmm.c:34-45 | only such pages are freed exactly if the region starts on a page boundary or frees nothing |
| PhysicalPages.PartialPageFreed | src/mem/pmm.c:34-45 | a concrete region at 0x100800, which frees the page at 0x100000 although it does not cover its first half |
| PhysicalPages.InitialPagesIff | src/mem/pmm.c:34-84 | a page is free after start-up exactly if it lies from 1 MB to 4 GB and between the rounded-down ends of a region of type 1 |
| PhysicalPages.ReservedPagesTouch | src/mem/pmm.c:47-57 | region_reserve takes exactly the pages that share a byte with the region |
| PhysicalPages.PageAllocator.RegionFree | src/mem/pmm.c:34-45 | frees exactly the pages of the region; total_count grows as free_count does |
| PhysicalPages.PageAllocator.RegionReserve | src/mem/pmm.c:47-57 | takes exactly the pages of the region |
| PhysicalPages.PageAllocator.Init | src/mem/pmm.c:60-81 | the free pages are the usable ones without the first megabyte; free_count and total_count are their numbers |
| PhysicalPages.PageAllocator.Alloc | src/mem/pmm.c:83-97 | the word-skipping scan takes the lowest free page, or answers 0 if there is none; free_count stays the number of clear bits |
| PhysicalPages.PageAllocator.Release | src/mem/pmm.c:99-104 | frees the page of the address; an already free page changes nothing |
| PageTables.StoreRefines | src/mem/paging.c:96-112 | writing one table entry sets or removes exactly one page of the map the tables stand for |
| PageTables.LowestIsLow | src/mem/pmm.c:83-97 | pages are handed out lowest first, so one from below 4 MB is handed out exactly as long as one is free there |
| PageTables.TableRefines | src/mem/paging.c:72-92 | making a table on demand changes no mapping, uses a page that no other table uses and no mapping above 4 MB reaches, and keeps the invariant; it succeeds exactly if a page below 4 MB is free |
| PageTables.PteIs | src/mem/paging.c:102-102 | the entry written holds the frame, the present bit and the other low bits of the flags |
| PageTables.MapRefines | src/mem/paging.c:96-105 | vmm_map sets exactly one page; it is done exactly if both addresses are aligned and a table is there or a page below 4 MB is free for it; if the page for the table would lie above, zeroing it faults, or hits another page, exactly as its own address is mapped or not; otherwise nothing changes |
| PageTables.UnmapRefines | src/mem/paging.c:107-112 | vmm_unmap removes exactly one page and gives nothing back |
| PageTables.GetPhysAgrees | src/mem/paging.c:114-120 | vmm_get_phys agrees with the map at every offset; its sentinel is ambiguous for exactly one physical address |
| PageTables.LastByteLooksUnmapped | src/mem/paging.c:114-120 | a page mapped to the last physical page is reported as unmapped at its last byte |
| Processor.WalkIs | src/mem/paging.c:66-92 | the walk a processor makes, over the words of the directory and the bytes of memory, finds the entry the map is made of, for the kernel and for programs |
| Processor.GetPhysIsWalk | src/mem/paging.c:114-120 | vmm_get_phys gives the address that walk reaches, and all ones where it would fault |
| Processor.UserReads | src/mem/paging.c:66-92 | where every table and page has the writable and user bits, a program reads what the kernel reads |
| PageTables.MapTakes | src/mem/paging.c:72-105 | a mapping costs a page exactly if it makes a table, then the lowest, below 4 MB; no other table appears |
| PageTables.UnmapUndoesMap | src/mem/paging.c:96-112 | unmapping what was just mapped restores the map and leaves at most a table behind |
| AddressSpace.PageDirectory.Lead | src/mem/paging.c:66-69 | the walk through directory and table finds the frame that the map gives for a page, or none |
| AddressSpace.PageDirectory.GetPt | src/mem/paging.c:72-92 | returns the table, made and zeroed if asked for, or null; if the page for it lies outside the first 4 MB, whether zeroing it faults or hits another page |
| AddressSpace.PageDirectory.VmmMap | src/mem/paging.c:96-105 | the code does what MapPage does, zeroing a table above 4 MB included |
| AddressSpace.PageDirectory.VmmUnmap | src/mem/paging.c:107-112 | the code does what Unmap does |
| AddressSpace.PageDirectory.VmmGetPhys | src/mem/paging.c:114-120 | the code does what GetPhys does and changes nothing |
| AddressSpace.PageDirectory.PagingInit | src/mem/paging.c:124-141 | the map after start-up is the identity on the first 4 MB with flags 7 and nothing else, and there is one table, whatever pages are free |
| AddressSpace.PageDirectory.Start | src/kernel/kernel.c:46-54 | pmm_init on any memory map followed by paging_init establishes the page-table invariant, with the usable pages above 1 MB free and one table |
| ElfImage.WhereItLeads | src/proc/elf.c:82-86 | once page t is mapped at vp, the address of t used by the fill loop leads to t exactly if t lies below 4 MB or is vp; otherwise it leads to a page in use, or nowhere |
| ElfImage.LoadPageGrows | src/proc/elf.c:73-105 | a page that is loaded is mapped where none was, on a frame that was free; if it was filled in its own place it holds the segment's bytes and no page in use has changed; a refused one changes nothing at all |
| ElfImage.LoadPagesGrows | src/proc/elf.c:59-107 | as many pages as could be had are added; if none was filled in the place of another, each holds the segment's bytes and nothing loaded earlier is disturbed; all of them exactly if none was refused |
| ElfRuns.UnloadPageShrinks | src/proc/elf.c:43-48 | exactly that page leaves the map and exactly its frame becomes free |
| ElfRuns.UnloadShrinks | src/proc/elf.c:39-51 | unloading an image takes exactly its pages out of the map and frees exactly their frames |
| ElfRuns.LoadAllGrows | src/proc/elf.c:125-136 | however far a load that returns gets, what the image records is exactly what has been added to the map |
| ElfRuns.LoadThenUnload | src/proc/elf.c:39-140 | load then unload, and every load that returns a failure, restore the map and the free pages but for tables made on demand, and every page in use unless a page was filled in the place of another |
| ElfOverlap.LoadThenUnloadLoses | src/proc/elf.c:39-140 | for segments that may share pages: load then unload restores the map, and of the pages that were spare loses exactly as many as pages were mapped in the place of another |
| ElfOverlap.LoadThenUnloadIff | src/proc/elf.c:39-140 | so load then unload conserve the pages exactly if no two of the recorded segments share one |
| ElfOverlap.ConservesIffClean | src/proc/elf.c:39-140 | for a load that returns 0, exactly if no two of its program headers ask for the same page |
| ElfRuns.LoadedSegmentsHold | src/proc/elf.c:125-136 | after a load that returns 0 with every page filled in its own place, every segment is in place, later ones having disturbed none |
| ElfRuns.ImageIsRight | src/proc/elf.c:59-107 | after such a load, at every address of every segment's page-rounded range, a read through the page tables gives the file's byte inside the file part and 0 elsewhere |
| ElfFile.AcceptedIff | src/proc/elf.c:22-35 | the files accepted, byte by byte |
| ElfFile.HeaderIs | src/proc/elf.h:45-54 | the fields of program header i are the words at offsets 0, 4, 8, 16 and 20 of its 32 bytes |
| ElfFile.LoadStaysOpen | src/proc/elf.c:73-105 | whatever is loaded, programs may reach every page that is mapped, as after start-up |
| ElfFile.UnloadStaysOpen | src/proc/elf.c:39-51 | unloading leaves the access of the programs that stay as it was |
| ElfFile.StartIsOpen | src/mem/paging.c:124-141 | after start-up the writable and user bits are set throughout |
| ElfFile.ProgramReadsFile | src/proc/elf.c:111-140 | over the bytes of the file: after a load that returns 0 with every page in its place, a program that makes the processor walk the tables reads, at every address of every page of every segment, the byte of the file that belongs there, and 0 past the part that comes from the file |
| ElfFile.CodeFromHeaders | src/proc/elf.c:122-136 | over the bytes of the file: the headers are in order exactly if none is too long, the ninth or empty; otherwise -4 or -5 as the first that is so is too long or not |
| ElfRuns.LoadDisturbsNothing | src/proc/elf.c:111-140 | unless a page was filled in the place of another, what was mapped before reads the same and nothing else has appeared |
| ElfRoom.LoadPageFate | src/proc/elf.c:73-105 | one page is refused exactly if the free pages do not suffice for it and its table, and filled in its place if those below 4 MB do; of the rest, a missing table faults or runs wild, and the page is right, astray or faults as its own address is that of the page loaded, mapped, or neither |
| ElfRoom.LoadPagesFate | src/proc/elf.c:59-107 | a range of pages with more to come is loaded exactly if the whole can be carried, in place exactly if it can be placed, and refused exactly if memory runs short |
| ElfRoom.LoadPagesCount | src/proc/elf.c:59-107 | n pages that need m new tables and find n + m free pages below 4 MB are all loaded, each in its place |
| ElfRoom.LoadFate | src/proc/elf.c:111-140 | the same for whole programs: the code returned, whether every page is in its place, and whether it returns at all, from the list of pages asked for |
| ElfRoom.LoadSucceedsIff | src/proc/elf.c:111-140 | a load returns 0 exactly if its headers are in order and its pages can be carried: the free pages below 4 MB pay for all of them and their tables, or for all the tables and the first pages, and each further page comes from above 4 MB at an address that is mapped by then |
| ElfRoom.LoadIsRightIff | src/proc/elf.c:111-140 | it returns 0 with every page in its own place exactly if, besides, each further page is mapped at the address of the very page it gets |
| ElfRoom.LoadReturnsIff | src/proc/elf.c:111-140 | it returns, with whatever code, exactly if its pages can be carried or memory runs short first; otherwise it halts in a page fault or installs a table it has not zeroed |
| ElfRoom.ImageUnderCount | src/proc/elf.c:59-107 | if the headers are in order and the pages can be placed, every address of every segment reads the right byte |
| ElfRoom.ConservedUnderCount | src/proc/elf.c:39-140 | if the pages can be placed or no free page lies above 4 MB, a load returns, and unloading restores the map and every page |
| ElfStart.RoomAtStart | src/mem/pmm.c:60-84 | with the memory from 1 MB to 4 MB usable, exactly 768 free pages lie below 4 MB at start-up, whatever else is usable |
| ElfStart.FirstLoadIsRightIff | src/proc/elf.c:111-140 | the first load after start-up is right exactly if its headers are in order and it needs at most 768 pages, tables included, or the pages it is short of are the lowest free ones above 4 MB, in order |
| ElfStart.OnePageMoreFits | src/proc/elf.c:73-105 | a concrete program that needs 769 pages and tables, with 768 below 4 MB, and is loaded right |
| ElfStart.LongProgramOverwritesItself | src/proc/elf.c:82-86 | a program of 1000 pages linked at 4 MB, whose load returns 0 after filling pages in the place of others |
| ElfStart.SharedPageIsLost | src/proc/elf.c:73-82 | a concrete program, two segments of one page at 4 MB, whose load returns 0 and whose unloading does not give back every page |
| ElfStart.OneByteHalts | src/proc/elf.c:73-105 | on a machine whose usable memory is the two pages at 4 MB, started up as the kernel does, a one-byte program halts the kernel |
| ImageRuns.ActKeepsInv | src/proc/elf.c:39-140 | loading a program, failing to, or unloading one keeps every other live program in place and accounts for every page |
| ImageRuns.EveryImageReadsRight | src/proc/elf.c:39-140 | after any sequence of loads that return and unloads of any programs, no page having been filled in the place of another, every live program reads its own bytes at every address of its segments |
| ImageRuns.AllUnloadedRestores | src/proc/elf.c:39-140 | once all programs are unloaded, in any order, the map and the pages held by allocator and tables are as at the start, and so is every page in use unless a page was filled in the place of another |
| ElfLoader.AcceptedTableIsInFile | src/proc/elf.c:22-35 | an accepted file holds all its program headers exactly if the sum in the size check did not wrap |
| ElfLoader.WrappedHeaderIsAccepted | src/proc/elf.c:33-33 | a concrete accepted header whose table lies outside the file |
| ElfLoader.ZeroPage | src/proc/elf.c:9-13 | the page is zeroed and no other page changes |
| ElfLoader.CopyIn | src/proc/elf.c:15-20 | the bytes are copied and the rest of the page and every other page stay |
| ElfLoader.FillPage | src/proc/elf.c:85-104 | the overlap arithmetic fills the page with what belongs there |
| ElfLoader.LoadOne | src/proc/elf.c:73-105 | allocate, map and fill one page through its physical address, wherever the tables lead from there; a page that cannot be mapped goes back |
| ElfLoader.LoadPageGood | src/proc/elf.c:73-105 | loading a page keeps the page-table invariant, whatever was mapped there before and wherever the fill goes |
| ElfLoader.LoadRange | src/proc/elf.c:72-107 | the page loop does what LoadPages does and counts the pages in the image |
| ElfLoader.LoadSegment | src/proc/elf.c:59-107 | the segment limit, the empty range, and the pages loaded, recorded in the image |
| ElfLoader.UnloadOne | src/proc/elf.c:43-48 | look up, unmap and free one page |
| ElfLoader.ElfUnload | src/proc/elf.c:39-51 | the nested loops do what Unload does, and the record's heap block is freed |
| ElfLoader.LoadHeaders | src/proc/elf.c:122-136 | the loop over the program headers does what LoadAll does |
| ElfLoader.ElfLoad | src/proc/elf.c:111-140 | for all segments at or above 4 MB, the result codes -2 to -5 and 0 exactly, success leaving the image recorded and failure everything recorded unloaded and the heap block list as it was; for segments on unmapped pages they do not share, 0 exactly if the header, the heap, the program headers and the free pages allow it, every page in its own place exactly if they can be placed, no return only if the pages can neither be carried nor run short, and every failure restores the map and the pages |

## Left out

- Mounting beyond the state it leaves: the boot sector's fields become the geometry.
- Disk errors, and what the driver leaves behind when an operation fails between two sector writes.
- Long file names beyond being skipped, volume labels, timestamps and bad-cluster marks.
- The unmounted file system, null arguments of the loader, and command-line usage errors.
- FatDriver.Fat32.ReadFile: requires a table whose links are in range or end marks and a first cluster of that kind, as everything a lookup on a sound volume returns is; other numbers would be read from sectors outside the volume.
- KernelHeap.Heap.Kfree: requires that a pointer is null or word-aligned inside the slab and that a magic word at it belongs to a block, since a payload may happen to contain one.
- kcalloc, which is kmalloc and a loop, and whose product wraps.
- Contents of the saved stack frames, the context switch, the trampolines and the rest of the assembly; a switch is the change of the current task and of esp0.
- TaskRing.TaskScheduler.ReapNext: an image is freed as one heap block here; the pages it maps are the loader's part.
- Preemption inside the heap, the file system, task_create and task_create_user_image.
- CR3, CR0, invlpg and the page fault handler; what becomes of the system once a table has been installed that was not zeroed.
- AddressSpace.PageDirectory.PagingInit: the directory and the first table are filled as in the source; loading them into the processor is not modelled.
- ElfLoader.ElfLoad: the fields of the image record are an object of their own; the heap block behind it is tracked, its bytes are not.
- System calls, user programs, port input and output, the screen, the keyboard, and the shell's other commands.
- cat and write: the copy loops between a file and their 16 KB buffers, which only add bounds.
