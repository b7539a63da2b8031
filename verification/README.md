# Rastapopoulos, verified

A Dafny model of the core of the Rastapopoulos operating system: its kernel and the userland libraries that its programs
stand on. Every class keeps the fields that the C code keeps (bins, heads and feet, list links, page tables, sector buffers)
and its methods branch and change them as the C code does; a ghost view says what the fields mean, and the theorems are about
that view.

- **Userland malloc** (`Bits`, `BinIndex`, `Chunks`, `Tries`, `TrieRemoval`, `TrieUnlink`, `TreeBins`, `TreeSearch`,
  `SmallBins`, `Bins`, `LargeBins`, `LargeUnlink`, `BinOps`, `Tiles`, `HeapInv`, `SmallFit`, `Malloc`, `HeapRuns`,
  `HeapChecks`): Doug Lea's allocator as configured here, over this system's `sbrk`. Bitwise tries with parent pointers and
  same-size rings, boundary tags, the designated victim and top; best fit; coalescing; safety of every run of requests and
  releases; and that the allocator's own corruption checks never fail on such a run.
- **FAT reader** (`Mounting`, `Fat`, `FatFile`, `FileRuns`, `FatDir`): the tests at mounting, table lookup for FAT12, FAT16 and
  FAT32, reading, seeking and directory stepping, against the file contents as the cluster chain defines them.
- **Scheduler and messages** (`Lists`, `Queues`, `Scheduler`, `Lifecycle`, `Messages`, `Ipc`, `ExitRuns`, `Rendezvous`,
  `Stranding`, `PortNumbers`, `IpcHandlers`): the queues as intrusive lists refining sequences, bounded waiting, what becomes of
  every task, and the message system as a state machine over calls that block and go on.
- **Kernel memory** (`Alignment`, `KernelHeap`, `HeapBlocks`, `KernelHeapRuns`, `Vmm`, `Transients`, `PageDirs`, `Bitset`,
  `Pmm`, `FrameRuns`): the kernel heap, page tables seen through their recursive mapping, cloning and destroying address
  spaces, the frame allocator, and runs of both allocators.
- **RPC stubs** (`Rpc`): the wire format that the generator's client and server code agree on.

`Basics` holds what several of these share.

Where the code does not do what it is for, the model does what the code does, and the condition under which it succeeds is
stated exactly:

- The kernel heap's search accepts a block by its size before alignment; the cut is right if and only if the aligned data
  still ends inside the block (`KernelHeap.CarveRight`), and two requests on a fresh heap reach a block where it does not
  (`KernelHeapRuns.MisfitReached`).
- `ALIGN` aligns every address if and only if the alignment is a power of two (`Alignment.AlignExact`,
  `KernelHeap.TwelveMisaligned`).
- The kernel heap adds the canary to the size asked for on words: a block has room for its data if and only if the sum does not
  wrap (`KernelHeapRuns.GrantRoom`). The loop that grows the heap maps nothing if its end pointer wraps (`KernelHeap.GrowEnds`).
- A stretch of memory that ends before its first page boundary becomes a region as large as the address space
  (`Pmm.WholePages`, `Pmm.ShortStretch`).
- The bounds of a region are compared with an end that wraps: of a region that ends at or past 2^32 frames are handed out that
  cannot be given back (`Pmm.AllocFree`, `Pmm.LostFrame`, `FrameRuns.FreshFrame`).
- `vmm_destroy_pagedir` stops if and only if a frame of the directory is not reserved or is there twice, which a clone never has
  (`PageDirs.Frames.DestroyPagedir`, `PageDirs.Frames.CloneThenDestroy`).
- A `long` result is written by half; it arrives if and only if the reply buffer already held its other half
  (`Rpc.ReturnRoundTrip`, `Rpc.LongReturnLost`). Oneway parameters are encoded as arguments and decoded as out
  parameters (`Rpc.CallRoundTrip`). The server generator writes nothing for them in the handler call, so a server stub with a
  oneway parameter does not compile: the failing half is about stubs that the generator writes and nobody can build.
- `sys_trim` calls `sbrk` with a negative size, which stops the program: freeing stops if and only if the chunk
  ends at top and joins it to more than the 2 MB threshold (`Malloc.MallocState.Dlfree`, `HeapRuns.TwoMegabytesStop`).
- A break that passes 2^32 wraps, and the loops of `mmap` then run over no page and report success. This happens if and only if
  the pages that `malloc` needs end past the address space; it then goes on with memory that is not there, or gives null once a
  request of 2 GB has ended contiguous growth (`Malloc.MallocState.SysAlloc`, `HeapRuns.BreakWraps`).
- Searching a full bitmap stops on an assertion if and only if its size is no multiple of 32 (`Bitset.BitArray.FindClear`,
  `Bitset.OneBitStops`).
- The timer interrupt reboots if the ready queue is empty, also while sleepers wait for a deadline (`Scheduler.Sched.Timer`,
  `Scheduler.SleeperReboots`). The scheduler's check of its queues fails if and only if two queued pids are equal modulo 32:
  its mask is built with shifts that wrap (`Scheduler.Sched.PerformChecks`, `Scheduler.ForksStop`).
- `msgsend` waits for any wake-up, not for its message to be received: on a run, senders wait until their message is received
  if and only if no sender is sent a message itself meanwhile and none reaches its deadline (`Rendezvous.RendezvousRun`,
  `Rendezvous.BrokenRendezvous`).
- `msgwait` wakes nobody: a task asleep until a port is open stays asleep while the port's owner waits there, if and only if the
  owner goes to sleep in `msgwait` with that task waiting (`Stranding.StrandingRun`, `Stranding.StrandedRun`).
- Port numbers that are asked for are kept apart by their bits modulo 32, those given out are counted from 32 on: two ports have
  the same number if and only if one was asked for that is also given out (`PortNumbers.NumbersDiffer`,
  `PortNumbers.SameNumberTwice`), which requests below 32, as the call demands, cannot do (`PortNumbers.LowNumbers`).
- A boot sector whose system sectors add up to 2^32 or more is accepted, and the data area starts where the boot sector puts it
  if and only if its number is a word (`Mounting.MountExact`, `Mounting.MountWraps`).
- `task_block` sets a deadline if and only if the timeout is the infinite one: a finite sleep is not ended by time
  (`Rendezvous.SleepDeadline`, `Rendezvous.SleepsOn`).

Machine words are naturals below `WORD` = 2^32 and wrap where the C code can wrap. Calls that panic or fail an assertion
return `halted`, with the exact condition.

## Model

| member | source | states |
|---|---|---|
| `BinIndex.TreeIndexRange` | userland/runtime/malloc.c:2863-2937 | compute_tree_index puts every 32-bit size of at least 256 into one of the 32 tree bins, and into the one whose size interval, as minsize_for_tree_index gives it, holds the size |
| `BinIndex.TreeIndexUnique` | userland/runtime/malloc.c:2863-2937 | no other bin has that size in its interval, so the index is a function of the interval alone |
| `BinIndex.BinsOrdered` | userland/runtime/malloc.c:2930-2937 | every size of a lower bin is below every size of a higher one |
| `Tries.InsertLinked` | userland/runtime/malloc.c:3673-3722 | the writes of insert_large_chunk turn the links of a trie into those of the trie with the chunk at the slot its size bits lead to |
| `Tries.InsertRings` | userland/runtime/malloc.c:3673-3722 | the same for the fd/bk rings of equal-sized chunks |
| `TreeBins.UnlinkFollowerBin` | userland/runtime/malloc.c:3741-3754 | a chunk inside a same-size ring leaves it and the bin is right again |
| `TreeBins.UnlinkChainedBin` | userland/runtime/malloc.c:3741-3810 | a tree node with a same-size ring hands parent and children to the next chunk of the ring |
| `TreeBins.UnlinkLeafBin` | userland/runtime/malloc.c:3755-3784 | a leaf alone on its ring leaves its parent link or the bin root empty |
| `TreeBins.UnlinkSwappedBin` | userland/runtime/malloc.c:3755-3810 | an inner node alone on its ring is replaced by the rightmost leaf below it; sizes still steer every descent to its chunk |
| `LargeBins.FindSlot` | userland/runtime/malloc.c:3686-3721 | the loop that shifts out the bits of the size ends at exactly the slot where the size belongs |
| `LargeUnlink.ReplaceChild` | userland/runtime/malloc.c:3777-3782 | the parent link of the leaving node leads to its replacement |
| `LargeUnlink.AdoptChildren` | userland/runtime/malloc.c:3785-3805 | the replacement takes over the children |
| `LargeUnlink.TakePlace` | userland/runtime/malloc.c:3771-3810 | bin root, tree map, parent and children after the replacement has taken the place |
| `LargeBins.FindLeaf` | userland/runtime/malloc.c:3755-3769 | the descent to the right finds the rightmost leaf and the link field that holds it |
| `LargeUnlink.UnlinkFromTrie` | userland/runtime/malloc.c:3741-3810 | unlink_large_chunk on any chunk of a bin: the bin holds exactly the other chunks, every other bin and small list is untouched, and the map bit is cleared only if the bin is empty |
| `SmallBins.InsertBin` | userland/runtime/malloc.c:3595-3611 | insert_small_chunk puts the chunk at the front of its list |
| `SmallBins.UnlinkBin` | userland/runtime/malloc.c:3614-3636 | unlink_small_chunk takes any chunk of a list out of it |
| `BinOps.InsertLargeChunk` | userland/runtime/malloc.c:3673-3722 | after insert_large_chunk all bins are right and hold the old chunks and the new one |
| `BinOps.UnlinkLargeChunk` | userland/runtime/malloc.c:3741-3810 | after unlink_large_chunk all bins are right and hold the old chunks without that one |
| `BinOps.InsertChunk` | userland/runtime/malloc.c:3814-3816 | the same for a chunk of any size |
| `BinOps.UnlinkChunk` | userland/runtime/malloc.c:3818-3820 | the same for a chunk of any size |
| `BinOps.UnlinkFirstSmallChunk` | userland/runtime/malloc.c:3640-3655 | the first chunk of a marked small bin leaves it |
| `BinOps.InitBins` | userland/runtime/malloc.c:3936-3943 | every small bin header points to itself |
| `TreeSearch.Descend` | userland/runtime/malloc.c:4465-4487 | the bit-directed descent keeps the best chunk seen and the deepest untaken right subtree: together they cover every chunk of the bin, of at least the size whose bits are followed, that could be a best fit |
| `TreeSearch.FindLeast` | userland/runtime/malloc.c:4498-4505 | following leftmost children from there finds the least of them |
| `TreeSearch.SearchNextBin` | userland/runtime/malloc.c:4488-4496 | left_bits and least_bit on the tree map find the next non-empty bin |
| `TreeSearch.BestFit` | userland/runtime/malloc.c:4459-4505 | for every request: tmalloc_large finds a chunk of the tree bins that fits exactly if there is one, and none of at least the size it looks up is smaller; it is a best fit for every request from 256 bytes on, and for a smaller one that is a multiple of 128 |
| `SmallFit.ExactBin` | userland/runtime/malloc.c:4600-4612 | the shifted small map tells whether the bin of the request, or the next one, is marked |
| `SmallFit.ExactBinsEmpty` | userland/runtime/malloc.c:4600-4612 | if neither bin is marked, no small chunk in the bins has the size of the request or the next one |
| `SmallFit.NextSmallBin` | userland/runtime/malloc.c:4621-4630 | left_bits and least_bit find the lowest marked small bin above |
| `SmallFit.SmallBest` | userland/runtime/malloc.c:4600-4632 | the first chunk of the lowest marked small bin is a best fit over small and tree bins |
| `SmallFit.LeastLarge` | userland/runtime/malloc.c:4530-4545 | tmalloc_small chooses a smallest chunk of all tree bins |
| `SmallFit.BestLarge` | userland/runtime/malloc.c:4459-4505 | over small and tree bins: best fit for a large request, or none fits |
| `SmallFit.BestSmall` | userland/runtime/malloc.c:4530-4545 | over small and tree bins: best fit for a small request that no small bin can serve |
| `Tiles.TakeWhole` | userland/runtime/malloc.c:3084-3087 | set_inuse_and_pinuse keeps the boundary tags right |
| `Tiles.TakeSplit` | userland/runtime/malloc.c:4508-4523 | splitting a free chunk keeps the boundary tags right |
| `Tiles.TakeTop` | userland/runtime/malloc.c:4683-4689 | cutting the front off top keeps the boundary tags right |
| `Tiles.MergeFree` | userland/runtime/malloc.c:4777-4789 | one head and one foot make a run of chunks one free chunk, with all other boundary tags still right |
| `Tiles.MergeTop` | userland/runtime/malloc.c:4759-4770 | one head makes a run of chunks up to top the new top |
| `Tiles.Partition` | userland/runtime/malloc.c:3448-3478 | the chunks partition the segment: each of its bytes is in exactly one chunk |
| `Malloc.RequestFacts` | userland/runtime/malloc.c:2252-2262 | the padded size has room for the request and its header, is a legal chunk size, and is small exactly for small requests; requests from MAX_REQUEST on become the largest word |
| `Malloc.RequestLeast` | userland/runtime/malloc.c:2252-2262 | it is the least legal chunk size with that room |
| `Malloc.GrowFacts` | userland/runtime/malloc.c:4077-4140 | in 32-bit arithmetic, the two tests of sys_alloc fail exactly when no page-aligned growth below 2 GB makes room, and otherwise the growth is enough, by less than a page |
| `Malloc.MallocState.constructor` | userland/runtime/malloc.c:2660-2666 | a zeroed malloc_state is an allocator before its first request |
| `Malloc.MallocState.ReplaceDv` | userland/runtime/malloc.c:3659-3668 | the chunk becomes dv, and the old dv, if there was one, is binned |
| `Malloc.MallocState.TmallocLarge` | userland/runtime/malloc.c:4459-4527 | serves from a best-fitting binned chunk that is smaller than dv if dv fits; what is left is a binned chunk, and dv and top are as before; declines, changing nothing, only if every binned chunk that fits is no better than dv |
| `Malloc.MallocState.TmallocSmall` | userland/runtime/malloc.c:4530-4565 | serves from a best-fitting binned chunk; what is left becomes dv, and the old dv is binned |
| `Malloc.MallocState.CutToBin` | userland/runtime/malloc.c:4508-4523 | what is left of a chunk goes into a bin if it is a chunk, and stays with the request otherwise |
| `Malloc.MallocState.CutToDv` | userland/runtime/malloc.c:4547-4563 | what is left of a chunk becomes dv if it is a chunk, with the old dv binned, and stays with the request otherwise |
| `Malloc.MallocState.MallocSmall` | userland/runtime/malloc.c:4600-4652 | the small request paths: a best fit of the bins, or nothing changes and dv or top must serve |
| `Malloc.MallocState.UseDv` | userland/runtime/malloc.c:4663-4681 | serves from dv, whole or split, with what is left as dv; the bins and top are as before |
| `Malloc.MallocState.UseTop` | userland/runtime/malloc.c:4683-4693 | serves from the front of top, and top begins behind it; the bins and dv are as before |
| `Malloc.MallocState.SysAlloc` | userland/runtime/malloc.c:4062-4264 | over this system's sbrk: returns null exactly if no growth is possible, stops the program exactly if mmap does not map the pages, goes past the address space exactly if the break wraps, otherwise the new chunk is the front of the grown top; break, top and contiguity after it |
| `Malloc.MallocState.FromFree` | userland/runtime/malloc.c:4600-4693 | serves from a bin, dv or top, with what is left kept in its place, and fails, changing nothing, exactly if no free chunk fits and top is too small |
| `Malloc.MallocState.Dlmalloc` | userland/runtime/malloc.c:4569-4703 | a block is 8-aligned, has the room asked for, no other in-use chunk changes, and it comes from a best fit of the bins, from dv, or from top if nothing free fits, each by the rule of the code; bins, dv and top afterwards are said exactly; it is null, or stops, or goes past the address space exactly if nothing free fits, top is too small, and sys_alloc does so; null and a stop change nothing |
| `Malloc.ServedSize` | userland/runtime/malloc.c:4569-4703 | a chunk handed out is as large as the padded request, or less than a smallest chunk larger |
| `Malloc.ServedFree` | userland/runtime/malloc.c:4569-4703 | after a request that was served, the free chunks are those before it without the chosen one, and with what is left of it; all keep their sizes |
| `Malloc.MallocState.FromSystem` | userland/runtime/malloc.c:4569-4703 | new memory serves exactly where sys_alloc gives it: the chunk is the front of the grown top |
| `Malloc.MallocState.TakePrev` | userland/runtime/malloc.c:4730-4755 | backward consolidation finds the free chunk before, wherever it is kept |
| `Malloc.MallocState.MergeWithTop` | userland/runtime/malloc.c:4759-4770 | forward consolidation with top |
| `Malloc.MallocState.MergeWithNext` | userland/runtime/malloc.c:4771-4787 | forward consolidation with dv or a binned chunk |
| `Malloc.MallocState.FreeRun` | userland/runtime/malloc.c:4788-4802 | a merged run becomes dv or goes to its bin |
| `Malloc.MallocState.Dlfree` | userland/runtime/malloc.c:4707-4814 | exactly the freed chunk leaves the chunks in use, no other changes, and the state is sound again: no two free chunks touch; the chunk joins top if it ends there, and is otherwise one free chunk with its free neighbours, which is dv if one of them was, and binned if not; all other free chunks are kept where they were; it stops the program exactly if, before the call, the chunk ends at top and top together with it and a free chunk before it is larger than the trim threshold |
| `HeapRuns.AllocatedApart` | userland/runtime/malloc.c:3448-3478 | in a sound state blocks in use never overlap and lie in memory that sbrk gave |
| `HeapRuns.FreeChunksApart` | userland/runtime/malloc.c:4742-4787 | in a sound state no two free chunks are adjacent and none is adjacent to top |
| `HeapRuns.Serve` | userland/runtime/malloc.c:4569-4814 | every run of requests and releases on a fresh allocator: at every moment the state is sound and the chunks in use are exactly the blocks handed out and not yet released, each with its room; every step obeys the contract of its operation; it stops exactly at a request that only new memory can serve and mmap does not map, or after a release that lets top outgrow the trim threshold, and the model of it ends exactly where the break wraps |
| `HeapRuns.TwoMegabytesStop` | userland/runtime/malloc.c:4759-4770 | a request of 2 MB on a fresh allocator and its release stop the program |
| `HeapRuns.BreakWraps` | kernel/scheduler.c:548-586 | requests of 0x50000000 and 0x70000000 bytes on a fresh allocator: the loops of mmap run over no page, nothing stops, and the second is given the address of top |
| `HeapChecks.NothingCorrupt` | userland/runtime/malloc.c:3595-3810 | in every sound state, also between the steps of an operation, each check that malloc, free and the bin operations make would pass: addresses not below the segment, list and ring neighbours that link back, tree links to chunks, headers and the footer around a chunk in use that agree, splits that do not wrap |
| `HeapChecks.NeverCorrupt` | userland/runtime/malloc.c:4719-4806 | over every run: no such check fails at any moment, and no release of a block the program holds is refused as corrupt or as a bad free |
| `Fat.FatFs.MoveWindow` | userland/vfs/fat/ff.c:892-913 | the window shows the sector asked for, exactly if the disk can read it |
| `Fat.Entry12` | userland/vfs/fat/ff.c:997-1004 | the two bytes and the shift give the three hexadecimal digits of a FAT12 entry, also across sectors |
| `Fat.Entry16` | userland/vfs/fat/ff.c:1006-1009 | the word is the four digits of a FAT16 entry |
| `Fat.Entry32` | userland/vfs/fat/ff.c:1011-1014 | the masked double word is the low seven of the eight digits of a FAT32 entry |
| `Fat.FatFs.GetFat` | userland/vfs/fat/ff.c:980-1047 | get_fat returns the table entry read as a number, 1 outside the volume and 0xFFFFFFFF if a sector it needs is unreadable, whatever the window held |
| `FatFile.MaskSector` | userland/vfs/fat/ff.c:3577-3578 | masking with csize - 1 is the remainder, as cluster sizes are powers of two |
| `FatFile.MaskCluster` | userland/vfs/fat/ff.c:4127-4131 | masking with ~(cluster bytes - 1) is rounding down to a cluster |
| `Mounting.ClusterSizeTest` | userland/vfs/fat/ff.c:3173-3174 | the test at mounting accepts exactly the powers of two up to 128, which the two masks need |
| `Mounting.MountIff` | userland/vfs/fat/ff.c:3163-3216 | find_volume accepts a boot sector if and only if it describes a FAT volume: sectors of 512 bytes, one or two tables, a cluster size that is a power of two, reserved sectors, whole sectors of root entries, at least one whole cluster behind the system sectors, none or some root entries as the kind demands, and tables with an entry of 12, 16 or 32 bits for each cluster; the system sectors are added up on words |
| `Mounting.MountOk` | userland/vfs/fat/ff.c:3163-3215 | what find_volume accepts has the geometry that reading relies on: cluster size, entry count, whole sectors of root entries, table and data below the last sector number; given that the sum of system sectors is a word and the volume ends below that number |
| `Mounting.MountExact` | userland/vfs/fat/ff.c:3187-3201 | in the fields of the boot sector: the tables, the root directory of a FAT12 or FAT16 volume behind all tables, and the data area behind it start where these put them, each if and only if its sector number is a word; a FAT32 root directory starts at its cluster |
| `Mounting.MountKind` | userland/vfs/fat/ff.c:3187-3197 | the clusters are all that fit behind the system sectors, and the kind is FAT12 exactly up to 4085 of them, FAT32 exactly above 65525 |
| `Mounting.MountAreas` | userland/vfs/fat/ff.c:3187-3216 | on a volume that ends below 2^32, reserved sectors, tables, root directory and data follow each other without overlap or gap, and less than a cluster is left at the end |
| `Mounting.Floppy` | userland/vfs/fat/ff.c:3163-3216 | a floppy disk of 1.44 MB: root directory at sector 19, data at 33, 2847 clusters, FAT12 |
| `Mounting.LargeDisk` | userland/vfs/fat/ff.c:3163-3216 | a disk of 1 GB behind sector 63, with the wide fields in use: FAT32 |
| `Mounting.MountWraps` | userland/vfs/fat/ff.c:3187-3201 | a boot sector that is accepted, with the data area starting on the boot sector |
| `FatFile.Clst2Sect` | userland/vfs/fat/ff.c:962-970 | the first sector of a cluster in the volume, otherwise 0 |
| `FatFile.File.NextSector` | userland/vfs/fat/ff.c:3577-3598 | the sector that holds the next byte, after at most one link of the chain |
| `FatFile.File.ReadWhole` | userland/vfs/fat/ff.c:3599-3618 | whole sectors up to the end of the cluster go straight to the caller |
| `FatFile.File.ReadPart` | userland/vfs/fat/ff.c:3632-3639 | part of a sector comes from the sector buffer |
| `FatFile.File.FRead` | userland/vfs/fat/ff.c:3553-3643 | f_read returns the bytes of the file, as the cluster chain defines them, from the file pointer on; it succeeds exactly if the chain and the disk have all of them, and otherwise returns the bytes before the gap |
| `FatFile.File.Follow` | userland/vfs/fat/ff.c:4145-4167 | the seek loop reaches the cluster of the target, or the chain does not lead there |
| `FatFile.File.SeekStart` | userland/vfs/fat/ff.c:4126-4144 | seeking forward starts from the current cluster, seeking back from the first |
| `FatFile.File.FLseek` | userland/vfs/fat/ff.c:4117-4194 | the file pointer goes to the target, clipped at the end of the file, with the invariant that f_read needs; it fails exactly if the chain does not lead there or the sector it is inside of cannot be read; a file without clusters stays at 0 |
| `FatDir.Dir.DirSdi` | userland/vfs/fat/ff.c:1522-1561 | cluster, sector and byte within the sector are those of the entry at the offset, exactly if the table has it |
| `FatDir.Dir.DirNext` | userland/vfs/fat/ff.c:1571-1621 | it moves to the place of the next entry exactly if the table has it; end of table is reported only at the end |
| `FatDir.Dir.Scan` | userland/vfs/fat/ff.c:1571-1621 | stepping from the start visits every entry at its place, in order, and stops at the first that the table does not have |
| `FatDir.Dir.StepTo` | userland/vfs/fat/ff.c:1522-1621 | k steps from the start succeed exactly if the table has the entry k, and end at its place |
| `FatDir.StepIsJump` | userland/vfs/fat/ff.c:1522-1621 | k steps of dir_next and one dir_sdi to the entry k succeed or fail together, and leave the same cursor |
| `FileRuns.Replay` | userland/vfs/fat/ff.c:3553-4194 | every sequence of f_lseek and f_read on an intact file succeeds: the file pointer moves as over a plain array of bytes, and every read returns the bytes between its old and its new place |
| `FileRuns.IntactReachable` | userland/vfs/fat/ff.c:4117-4194 | in an intact file every position up to the end can be reached |
| `Lists.AppendOk` | common/list.h:59-69 | list_append appends, and touches no element of another list |
| `Lists.RemoveOk` | common/list.h:42-57 | list_remove takes out exactly the element, and leaves it detached |
| `Queues.SwitchKeeps` | kernel/scheduler.c:134-163 | after switching every task is current, idle, or on exactly one queue |
| `Queues.TickKeeps` | kernel/scheduler.c:165-213 | the timer interrupt keeps that |
| `Queues.WakeWaitingAll` | kernel/scheduler.c:363-372 | no task that waits to send to the port is left asleep |
| `Queues.WakeWaitingOnly` | kernel/scheduler.c:363-372 | every other sleeping task is left asleep |
| `Queues.ApplyKeeps` | kernel/scheduler.c:134-471 | every scheduler event keeps each task on exactly one queue |
| `Queues.ReadyAdvances` | kernel/scheduler.c:134-163 | an event that takes a task from the ready queue moves every other one up by one; an event that does not, moves none; otherwise a sleeper whose time has come runs |
| `Queues.StillWaiting` | kernel/scheduler.c:134-213 | over every run: with no more than k switches to ready tasks, the one at position k is still waiting, that much further ahead |
| `Queues.BoundedWaiting` | kernel/scheduler.c:134-213 | over every run: at the (k + 1)-th switch to a ready task, the one that was at position k runs |
| `Scheduler.Sched.constructor` | kernel/scheduler.c:663-715 | the first task runs, the idle task stands by, the queues are empty |
| `Scheduler.Sched.PerformChecks` | kernel/scheduler.c:606-629 | the three walks with their 64-bit mask, whose shifts wrap at 32: it stops exactly if two queued pids are equal modulo 32 |
| `Scheduler.ChecksPass` | kernel/scheduler.c:606-629 | with every task on one queue, the walks set no bit twice if and only if no two queued pids are equal modulo 32 |
| `Queues.FewPids` | kernel/scheduler.c:606-629 | pids below 32 never fail the check |
| `Scheduler.FewTasksTick` | kernel/scheduler.c:165-214 | while fewer than 32 pids have been given out, the timer interrupt stops only for lack of a ready task |
| `Scheduler.ForksStop` | kernel/scheduler.c:606-629 | one task forks 33 children, whose pids pass the assertion of task_create; the next timer interrupt stops the machine |
| `Scheduler.Sched.TaskSwitchNext` | kernel/scheduler.c:107-163 | on linked lists: the first sleeper whose deadline has passed, else the head of the ready queue, else idle; it stops exactly if the check of the queues then fails |
| `Scheduler.Sched.Timer` | kernel/scheduler.c:165-214 | collects the exited tasks and requeues the current one; it stops exactly if the check of the queues fails on entry, the ready queue is then empty, also while sleepers wait for a deadline, or the check fails when switching |
| `Scheduler.SleeperReboots` | kernel/scheduler.c:188-209 | a system whose only task falls asleep with a deadline ahead reboots at the next timer interrupt |
| `Scheduler.Sched.CollectAll` | kernel/scheduler.c:179-186 | all exited tasks are destroyed and no other |
| `Scheduler.Sched.TaskGet` | kernel/scheduler.c:263-294 | finds the task with the pid exactly if one is current, ready or asleep |
| `Scheduler.Sched.TaskBlock` | kernel/scheduler.c:299-312 | the current task falls asleep at the end of the queue, with its ports and deadline, and the next one runs; stops exactly if the check of the queues fails |
| `Scheduler.Sched.TaskWake` | kernel/scheduler.c:317-358 | a sleeping task becomes ready, any other is left alone; it stops exactly if the pid is not alive |
| `Scheduler.Sched.WakeTasksWaitingForPort` | kernel/scheduler.c:363-372 | all tasks that wait to send to the port become ready, in their order |
| `Scheduler.Sched.YieldHandler` | kernel/scheduler.c:411-418 | the current task goes to the end of the ready queue, and the next one runs; stops exactly if the check of the queues fails |
| `Scheduler.Sched.ForkHandler` | kernel/scheduler.c:244-258 | the child is ready, with the next pid and null links; it stops exactly if that pid is not below 64 |
| `Scheduler.Sched.ExitHandler` | kernel/scheduler.c:442-450 | the current task is last on the exited queue, and another one runs; stops exactly if the check of the queues fails |
| `Lifecycle.Switching` | kernel/scheduler.c:107-450 | what yield, exit, block and the timer do to the queues, from the queues before: who runs next, who is in line behind, asleep and exited, in which order; a task that blocks waits for the ports it named, and has a deadline only for the infinite timeout |
| `Lifecycle.WakeWaitingIs` | kernel/scheduler.c:363-372 | exactly the tasks that wait to send to the port join the ready queue, at its end and in their order; the others stay asleep in theirs |
| `Lifecycle.Joining` | kernel/scheduler.c:244-372 | what fork and the wake-ups do to the queues: who becomes ready joins the line at its end; a child gets the next pid |
| `Lifecycle.Goes` | kernel/scheduler.c:107-471 | every event moves every task along one of the ways between running, ready, asleep, exited and gone that the code has, and no other |
| `Lifecycle.PidsInOrder` | kernel/scheduler.c:244-258 | over every run: the pids are given out in order, one to each child |
| `Lifecycle.ExitKills` | kernel/scheduler.c:442-450 | exit puts the caller, and nobody else, last on the exited queue, another task runs, and its pid is dead |
| `Lifecycle.DeadForever` | kernel/scheduler.c:107-471 | over every run: a pid that is dead never runs again and is given to no other task |
| `Lifecycle.ExitIsFinal` | kernel/scheduler.c:442-450 | over every run that starts with an exit: the pid of the caller never runs again |
| `Lifecycle.StaysExited` | kernel/scheduler.c:179-186 | over every run without a timer interrupt: an exited task stays on the exited queue |
| `Lifecycle.TickCollects` | kernel/scheduler.c:179-186 | the timer interrupt frees exactly the exited tasks |
| `ExitRuns.ExitStep` | kernel/scheduler.c:442-450 | in the message system, too: after the exit of a task nothing of its pid is alive |
| `ExitRuns.DeadRun` | kernel/scheduler.c:442-450 | over every run of calls, sends, receives and timer interrupts: the dead stay dead |
| `ExitRuns.ExitRun` | kernel/scheduler.c:442-450 | over every run from boot: from the exit of a task on its pid never runs, whatever is sent or woken |
| `ExitRuns.TimerCollects` | kernel/scheduler.c:179-186 | in the message system the timer interrupt frees exactly the exited tasks |
| `Messages.Hash2` | common/util.c:6-19 | the loop computes the hash in 32-bit arithmetic |
| `Messages.HashSum` | common/util.c:6-19 | the hash is the start value times 65599 to the number of bytes, plus each byte times 65599 to the number of bytes behind it, modulo 2^32 |
| `Messages.HashJoin` | common/util.c:6-19 | hashing on from a hash is hashing the concatenation |
| `Messages.ZeroHash` | common/util.c:6-19 | zero bytes hash to 0 |
| `Messages.WordBytes` | common/port.c:8-16 | the bytes hashed for a field are its 32 bits, lowest byte first |
| `Messages.MessageChecksum` | common/port.c:8-16 | the five chained calls compute one hash over sender, reply port, code, length and data |
| `Messages.Seal` | common/port.c:34-49 | a message with its computed checksum passes the check |
| `Messages.ZeroedChecksum` | common/port.c:51-66 | an all-zero buffer passes the check too |
| `Ipc.StepOk` | kernel/ipc.c:48-278 | every system call, timer interrupt or continued call either stops the kernel or keeps the queues and ports consistent |
| `Ipc.RunOk` | kernel/ipc.c:48-278 | so does every run |
| `Ipc.SwitchesOn` | kernel/scheduler.c:107-163 | with fewer than 32 pids given out, no switch of the machine stops it |
| `Ipc.FewPidsRun` | kernel/scheduler.c:606-629 | over every run from boot that has given out fewer than 32 pids, the check of the queues holds |
| `Ipc.NoLostWakeups` | kernel/ipc.c:95-253 | over every run from boot: a task asleep to receive has an empty queue, and while it sleeps in msgrecv no sender sleeps on its port |
| `Ipc.InOrderOnce` | kernel/ipc.c:95-219 | over every run from boot, at every port: what was sent is what was received followed by what is queued, in order, each once, and each queued message has a right checksum |
| `Ipc.StepPorts` | kernel/ipc.c:95-219 | a step appends the caller's message, stamped with its pid, to one port, or takes the head of a port of the caller, or changes no port |
| `Ipc.SmallBuffer` | kernel/ipc.c:159-219 | a step of the machine that receives, from its call or continued: with a buffer too small for the head it changes no port and no queue, otherwise it takes exactly the head |
| `Ipc.SenderWakes` | kernel/ipc.c:95-143 | a task asleep in msgsend or sleep stops sleeping only because a message of its own was received, because somebody sent to a port it owns, or because its deadline passed |
| `Ipc.QuietStep` | kernel/ipc.c:95-219 | a step without the last two keeps at most one message queued per sender, and its sender asleep |
| `Rendezvous.QueuedStep` | kernel/ipc.c:95-219 | every step keeps: whoever sleeps in msgsend has a message queued |
| `Rendezvous.QuietIs` | kernel/ipc.c:95-253 | whether a step wakes a sender by a message to one of its own ports or by its deadline can be told from the state and the call before the step |
| `Rendezvous.RendezvousStep` | kernel/ipc.c:136-143 | if every queued message has its sender waiting before a step, so it has after it, if and only if the step, judged by the state before it, wakes no sender by a message to a port of its own or by its deadline |
| `Rendezvous.RendezvousRun` | kernel/ipc.c:136-143 | over every run from boot: senders always wait until their message is received, with one queued each, if and only if no step of the run is one that wakes a sender so |
| `Rendezvous.BrokenRendezvous` | kernel/ipc.c:136-143 | a run from boot of two tasks in which the second sends back and so wakes the first with its own message still queued |
| `Stranding.StrandingStep` | kernel/ipc.c:229-253 | a step leaves a task asleep until a port is open, while the port's owner sleeps in msgwait on it, if and only if it goes to sleep in msgwait on a port that somebody waits to send to, judged by the state before it |
| `Stranding.StrandingRun` | kernel/ipc.c:229-253 | over every run from boot: no sender is ever left so if and only if no step of the run does that |
| `Stranding.StrandedRun` | kernel/ipc.c:229-253 | a run from boot that leaves both tasks asleep: one sends to a port before it is open, the other opens it and waits there |
| `Rendezvous.SleepDeadline` | kernel/scheduler.c:299-312 | sleeping sets a deadline if and only if it was asked to last forever |
| `Rendezvous.SleepsOn` | kernel/scheduler.c:455-460 | so no passing of time ends a sleep of finite length |
| `IpcHandlers.Handlers.FindPort` | kernel/ipc.c:18-36 | the first port with the number |
| `IpcHandlers.Handlers.PortOpen` | kernel/ipc.c:48-84 | the number is the next one for -1, the one asked for if its bit is free, and otherwise none; the new port of the caller is last in the list, and port_get leads to it exactly if the number is not negative and no port had it; a refusal changes nothing |
| `PortNumbers.OpenFinds` | kernel/ipc.c:18-84 | a new port is last in the list, and its number leads to it exactly if it is not negative and no port had it |
| `PortNumbers.NumbersDiffer` | kernel/ipc.c:48-84 | over every run from boot: all ports have different numbers if and only if no number that was asked for and granted is among those given out from 32 on |
| `PortNumbers.LowNumbers` | kernel/ipc.c:48-84 | over every run from boot whose requests are below 32 or -1: all numbers differ, the next one given out is one that no port has, and each number leads to its port |
| `PortNumbers.SameNumberTwice` | kernel/ipc.c:48-84 | a run from boot that asks for 33 and then twice for any number: two ports have the number 33 |
| `IpcHandlers.Handlers.SendFrom` | kernel/ipc.c:106-143 | the loop of msgsend is the send transition of the state machine |
| `IpcHandlers.Handlers.MsgSend` | kernel/ipc.c:95-143 | msgsend is the send transition, stopping exactly when that does |
| `IpcHandlers.Handlers.RecvFrom` | kernel/ipc.c:172-219 | from the loop on: 0 with exactly the head of the queue, which leaves it, 3 for a buffer too small, or blocked on an empty queue; the size reported is that of the head in both cases |
| `IpcHandlers.Handlers.MsgRecv` | kernel/ipc.c:159-219 | msgrecv is the receive transition; its code in every case: 1 no such port, 2 a port of another task, 3 a buffer too small, 0 received; the buffer is the head of the queue, or zeros, or for a buffer smaller than a header what lay behind it; the checksum assertion on return fails exactly in that last case, if those bytes do not pass; the size reported, also for the buffer too small |
| `IpcHandlers.Handlers.WaitFrom` | kernel/ipc.c:229-253 | msgwait is the poll transition |
| `IpcHandlers.Handlers.MsgWait` | kernel/ipc.c:229-253 | msgwait is the poll transition, stopping exactly when that does; -1 exactly for no such port or a port of another task, otherwise 0 or blocked as the queue is |
| `KernelHeap.DataAligned` | kernel/heap.c:232-272 | the data address found for a block is a multiple of the alignment, if that is a power of two |
| `KernelHeap.DataFirst` | kernel/heap.c:232-272 | it is the first aligned address behind the header, or behind two headers where the data cannot stay in place |
| `KernelHeap.TwelveMisaligned` | kernel/heap.c:232-272 | with alignment 12 the search takes a block of which the data address is no multiple of 12 |
| `Alignment.AlignExact` | common/util.h:27-29 | the mask rounds every address up to a multiple if and only if the alignment is a power of two, which is exactly when it shares no bit with its predecessor |
| `Alignment.AlignLeast` | common/util.h:27-29 | for a power of two it is the first multiple from the address on |
| `Alignment.AlignFails` | common/util.h:27-29 | for every other alignment, an address that the mask leaves alone and that is no multiple |
| `KernelHeap.CarveRight` | kernel/heap.c:212-315 | cutting a chosen block gives blocks that tile it, with room for the request, if and only if the aligned data ends inside the block |
| `KernelHeap.TakenIfFits` | kernel/heap.c:212-275 | a free block in which the aligned data fits is taken, unless it fits to the byte behind two headers |
| `KernelHeap.PieceIs` | kernel/heap.c:232-315 | the allocated piece starts right before its data, and is exactly as long as needed unless that would leave no more than a header: then it takes the rest |
| `KernelHeap.AllocOk` | kernel/heap.c:198-330 | under that condition the heap stays a tiling with no two free neighbours, and the block is used, large enough and at most a header larger, where the search put it, and aligned if the alignment is a power of two |
| `KernelHeap.AllocUsed` | kernel/heap.c:198-330 | every block in use before is still there, and one more |
| `KernelHeap.FreeOk` | kernel/heap.c:339-373 | freeing keeps the tiling and merges with both neighbours |
| `KernelHeap.FreeUsed` | kernel/heap.c:339-373 | every other block in use is still there |
| `KernelHeap.AllocFree` | kernel/heap.c:198-373 | freeing what was just allocated restores the heap exactly |
| `KernelHeap.GrowOk` | kernel/heap.c:152-196 | growing keeps the tiling and the merging |
| `KernelHeap.GrowUsed` | kernel/heap.c:152-196 | growing changes no block in use |
| `KernelHeap.GrowEnds` | kernel/heap.c:152-175 | the loop of heap_grow on words: it maps no page exactly if the request rounds to none, its end is past the address space, or size or frames have ended; it maps fewer than asked for only then |
| `KernelHeap.SettleOk` | kernel/heap.c:198-330 | growing until a block is accepted keeps the tiling and the blocks in use, does nothing if a block is accepted at once, and gives up only with a reason |
| `KernelHeap.Apart` | kernel/heap.c:108-117 | blocks of a tiling do not overlap |
| `HeapBlocks.Heap.constructor` | kernel/heap.c:119-138 | one free block behind the heap header |
| `HeapBlocks.Heap.FindBlock` | kernel/heap.c:211-275 | the first block in address order that the guard accepts |
| `HeapBlocks.Heap.TakeBlock` | kernel/heap.c:232-315 | the header writes are the cut, whether or not the data fits; the heap is valid if it does |
| `HeapBlocks.Heap.PrevBlock` | kernel/heap.c:34-45 | the block before |
| `HeapBlocks.Heap.Merged` | kernel/heap.c:361-370 | the header that the merges with both neighbours write, and where |
| `HeapBlocks.Heap.FreeBlock` | kernel/heap.c:339-373 | the header writes are freeing with both merges |
| `HeapBlocks.Heap.LastBlock` | kernel/heap.c:26-32 | the last block |
| `HeapBlocks.Heap.TakePages` | kernel/heap.c:152-175 | the number of pages that the loop maps, with the size limit, the frames and the wrap of its end pointer |
| `HeapBlocks.Heap.Extend` | kernel/heap.c:177-192 | the new pages become one free block, merged with a free last block |
| `HeapBlocks.Heap.Grow` | kernel/heap.c:152-196 | the state after growing, page count and blocks |
| `HeapBlocks.Heap.Search` | kernel/heap.c:205-230 | searching and growing in turn is the settled heap and its first accepted block |
| `HeapBlocks.Heap.AllocAligned` | kernel/heap.c:198-330 | the first block accepted, of the heap as it is or grown until one is, is cut; null exactly if none is accepted and growth has ended; right exactly if the aligned data fits that block; the frames used up |
| `KernelHeapRuns.Serve` | kernel/heap.c:198-373 | every run of allocations and releases: until an allocation cuts a block that its data does not fit, every step is that of its operation, the heap is a tiling without free neighbours, and in use are exactly the blocks handed out and not given back |
| `KernelHeapRuns.TakeGood` | kernel/heap.c:198-330 | an allocation keeps that, and the block belongs to the caller alone, with the alignment asked for if it is a power of two |
| `KernelHeapRuns.GiveGood` | kernel/heap.c:339-373 | a release of any held block keeps that |
| `KernelHeapRuns.GrantsApart` | kernel/heap.c:198-373 | at every moment two held blocks do not overlap and lie inside the heap |
| `KernelHeapRuns.GrantRoom` | kernel/heap.c:198-210 | a held block has room for header, data and canary if and only if data and canary together are a word: larger requests wrap |
| `KernelHeapRuns.MisfitReached` | kernel/heap.c:212-275 | on every one-page heap, requests of 1 and 4012 bytes with alignment 8: the second is given a block whose data ends 4 bytes behind it |
| `KernelHeapRuns.FreshPiece` | kernel/heap.c:232-315 | a cut piece starts where no block in use does |
| `Vmm.AddressBits` | kernel/vmm.c:83-89 | va_info takes bits 22-31 and 12-21 of the address |
| `Vmm.RecursiveMapping` | kernel/vmm.c:103-108 | through the last directory entry, the top page is the directory and the pages below are its tables; the kernel may write to them, user code has no access |
| `Vmm.TableWrite` | kernel/vmm.c:269-278 | a write to one table entry changes the translation of that page alone |
| `Vmm.TableInstall` | kernel/vmm.c:243-268 | a cleared new table changes no translation |
| `Vmm.WalkIs` | kernel/vmm.c:214-284 | directory entries leave all rights to the tables, so a page has exactly the rights of its own entry |
| `Vmm.AddressSpace.VmmMap` | kernel/vmm.c:230-284 | an access to the page reaches the frame with exactly the rights in the flags, every other page and its rights are as before; stops exactly if the page was mapped, or needs a table and there is no frame for one |
| `Vmm.AddressSpace.VmmRemap` | kernel/vmm.c:286-312 | the page keeps its frame and gets exactly the rights in the flags, every other page and its rights are as before; stops exactly if the page was not mapped |
| `Vmm.AddressSpace.VmmUnmap` | kernel/vmm.c:319-339 | the page cannot be accessed, every other page and its rights are as before; stops exactly if the page was not mapped |
| `Vmm.AddressSpace.GetEntry` | kernel/vmm.c:470-496 | frame and flags of the translation, or 0 |
| `Transients.TransientMaps.Map` | kernel/vmm.c:507-527 | the page shows the frame with the rights in the flags; unmapping all transient pages still restores the original address space |
| `Transients.TransientMaps.Unmap` | kernel/vmm.c:529-554 | the page translates, with its rights, as it did before its transient mapping; stops exactly if it has none |
| `PageDirs.Frames.PmmAlloc` | kernel/pmm.c:162-177 | a free frame becomes reserved; stops exactly if there is none |
| `PageDirs.Frames.CloneTable` | kernel/vmm.c:346-368 | every present page of the table is copied to a new frame with the same flags and contents |
| `PageDirs.Frames.ClonePagedir` | kernel/vmm.c:370-411 | every user page of the source has a copy of its own in the clone, the kernel half is shared, the source is unchanged, and the frames newly reserved are exactly those of the clone, each once; it stops only when all frames are reserved |
| `PageDirs.CloneTranslates` | kernel/vmm.c:370-411 | every user page translates in the clone exactly if it does in the source, with equal flags and contents, to a new frame |
| `PageDirs.CloneRights` | kernel/vmm.c:370-411 | every user page has the same rights in the clone |
| `PageDirs.CloneDirectory` | kernel/vmm.c:370-411 | the clone of a directory is a directory again, with tables of its own and itself in the last entry: mapping works in it |
| `PageDirs.PagesApart` | kernel/vmm.c:370-411 | two user pages of the clone never share a frame |
| `PageDirs.PageNoTable` | kernel/vmm.c:370-411 | no user page of the clone shows one of its tables |
| `PageDirs.Frames.PmmFree` | kernel/pmm.c:118-140 | the frame is free; stops exactly if it was |
| `PageDirs.FreeAllIff` | kernel/vmm.c:446-468 | freeing a list of frames one by one goes through if and only if all are reserved and none is listed twice |
| `PageDirs.Frames.DestroyPagedir` | kernel/vmm.c:446-468 | exactly the user frames and tables of the directory are freed; it stops exactly if one of them is not reserved or occurs twice |
| `PageDirs.Frames.CloneThenDestroy` | kernel/vmm.c:370-468 | destroying a clone never stops, and leaves the reserved frames and their contents as they were before cloning |
| `Bitset.BitArray.constructor` | kernel/bitset.c:9-16 | all bits are clear |
| `Bitset.BitArray.Test` | kernel/bitset.c:26-34 | the bit |
| `Bitset.BitArray.Set` | kernel/bitset.c:36-44 | the bit is set, every other one as before |
| `Bitset.BitArray.Clear` | kernel/bitset.c:51-59 | the bit is clear, every other one as before |
| `Bitset.BitArray.FindClear` | kernel/bitset.c:66-110 | the least clear bit; none exactly if all are set; stops exactly if all are set and the size is no multiple of 32 |
| `Bitset.OneBitStops` | kernel/bitset.c:66-110 | searching a full bitset of one bit stops |
| `Pmm.FrameAllocator.AddRegion` | kernel/pmm.c:21-42 | a region in front of the others with the pages that the arithmetic on addr and len gives, all its frames free |
| `Pmm.WholePages` | kernel/pmm.c:23-26 | that arithmetic gives exactly the whole pages of the stretch if and only if the stretch reaches its first page boundary; the length of a shorter one wraps |
| `Pmm.ShortStretch` | kernel/pmm.c:23-26 | 256 bytes at 0x9FC01 become a region of 0xFFFFF pages |
| `Pmm.FoundOrLost` | kernel/pmm.c:80-85 | the test of the bounds finds every frame of a region that ends below 2^32, and none of any other |
| `Pmm.TopEnds` | kernel/pmm.c:23-26 | a region of whole pages ends at 2^32 exactly if the memory goes up to the last byte |
| `Pmm.FrameAllocator.Find` | kernel/pmm.c:73-90 | the first region whose bounds, with the end computed on words, hold the frame |
| `Pmm.FrameAllocator.Reserve` | kernel/pmm.c:92-116 | the frame is reserved, every other one as before; stops exactly if it does not exist or was reserved |
| `Pmm.FrameAllocator.Free` | kernel/pmm.c:118-140 | the frame is free, every other one as before; stops exactly if it does not exist or was free |
| `Pmm.FrameAllocator.Reserved` | kernel/pmm.c:142-160 | whether the frame is reserved or does not exist |
| `Pmm.FrameAllocator.Alloc` | kernel/pmm.c:162-177 | the first clear page of the first region that has one becomes reserved, no other bit changes, and its address on words is returned; none exactly if all regions are full; stops exactly at a full region whose page count is no multiple of 32 |
| `Pmm.LeastFreeIs` | kernel/pmm.c:162-177 | in a region that ends below 2^32 the first clear page is its least free frame |
| `Pmm.AllocFree` | kernel/pmm.c:118-177 | a frame just allocated can be freed if and only if its region ends below 2^32 or the frame is reserved in another region; freeing it undoes the allocation if and only if its region ends below 2^32 |
| `Pmm.LostFrame` | kernel/pmm.c:118-177 | the region of that short stretch: its first frame is handed out, and stops the machine when it is freed |
| `FrameRuns.Serve` | kernel/pmm.c:92-177 | every run of reserving, freeing and allocating: each operation changes the one bit it is about, and the run ends early exactly where an operation stops |
| `FrameRuns.OneFrame` | kernel/pmm.c:92-140 | reserving and freeing change the one frame they are about and no other |
| `FrameRuns.FreshFrame` | kernel/pmm.c:162-177 | an allocated frame exists, was free, and is reserved, with every other frame as before, if and only if its region ends below 2^32; otherwise the set of reserved frames does not change |
| `FrameRuns.WholeWords` | kernel/pmm.c:162-177 | with whole words of pages in every region allocation never stops, and finds none exactly if every frame that exists is reserved and every region that passes 2^32 is full |
| `Rpc.ArgRoundTrip` | tools/rpcgen/gen_client.c:96-290 | the server decodes one argument as the client encoded it if and only if its parameter is not marked oneway; its size is the one added up |
| `Rpc.ArgExact` | tools/rpcgen/gen_server.c:267-424 | whatever arrives, the server takes an argument exactly if the bytes are an encoding of it, with its typecode and all its bytes |
| `Rpc.CallRoundTrip` | tools/rpcgen/gen_server.c:267-424 | the handler receives the caller's argument list, whatever it is, if and only if no parameter is oneway; for a oneway parameter the generated handler call has an empty argument and does not compile |
| `Rpc.SerializeArgs` | tools/rpcgen/gen_client.c:96-290 | the send buffer is filled exactly |
| `Rpc.LongReads` | tools/rpcgen/gen_server.c:47-59 | a returned long arrives as its low half under the stale half of the reply buffer |
| `Rpc.ReturnRoundTrip` | tools/rpcgen/gen_client.c:368-403 | the returned value arrives if and only if it is no long, or the stale half equals its high half |
| `Rpc.LongReturnLost` | tools/rpcgen/gen_server.c:47-59 | a returned 0x100000000 that arrives as 0 |
| `Rpc.OutsRoundTrip` | tools/rpcgen/gen_client.c:405-488 | of a reply that was received, all out values arrive if each fits the room that the caller announced, otherwise the caller stops; if they fit, so does the reply |
| `Rpc.OutExact` | tools/rpcgen/gen_client.c:405-488 | whatever the reply, the caller takes an out value exactly if the bytes are an encoding of it that fits its room |
| `Rpc.SerializeResult` | tools/rpcgen/gen_server.c:11-174 | the reply is the returned word and the out values; the server stops exactly if it does not fit its buffer |
| `Rpc.ReplyRoundTrip` | tools/rpcgen/gen_client.c:292-494 | a reply that keeps to the caller's sizes fits the receive buffer, and brings back all out values and the returned int |
| `Rpc.ReplyOutcome` | tools/rpcgen/gen_client.c:355-494 | whatever the handler put out: the values arrive exactly if all fit their rooms; the stub returns its error code exactly if the reply is larger than the buffer, and stops exactly if it is not and some value does not fit |

## Left out

- TreeSearch.BestFit: for a request below 256 bytes that is no multiple of 128, which `dlmalloc` never passes to
  `tmalloc_large`, it says which chunks are not better than the one found, not whether smaller ones are passed over.
- Malloc.MallocState.SysAlloc: after a break that wrapped, the state of the allocator is not described beyond the break and the
  address returned: the code then writes to memory that is not mapped.
- PageDirs.Frames.PmmAlloc: gives any free frame, where `Pmm.FrameAllocator.Alloc` says which one; cloning holds for any
  choice, and for an allocator that reports a full memory instead of stopping at a full region (`FrameRuns.WholeWords`).
- PortNumbers.NumbersDiffer: the next port number is unbounded; the `int` of the C code overflows after 2^31 - 32 ports.
- HeapChecks.NothingCorrupt: the checks are stated of the states that operations start and go on in, not written into the
  operations as branches; `least_addr` is the start of the one segment.
- `memalign`, `realloc`, `calloc`, memory spaces, mapped chunks, more than one segment, `release_unused_segments`, the statistics
  and `do_check_malloc_state` of malloc.c: not reachable from `dlmalloc` and `dlfree` in this configuration, or built on them.
- Writing files, exFAT, long file names, partitions and path lookup in ff.c; `disk_read` has its documented contract as a map from
  sector numbers to contents, which does not change during a call.
- Canary and magic words of kernel heap blocks, whose checks only stop on corruption from outside.
- Saving and restoring registers, TLB flushes, interrupt flags, the I/O bitmap, the `exec` and `mmap` handlers; a continued
  system call is a transition of the state machine in `Ipc`.
- Ports and their message queues are sequences in `Ipc` and `IpcHandlers`; the intrusive lists are modelled once, in `Lists`
  and `Scheduler`. `msgpeek` only reads.
- `vmm_init`, `vmm_map_linear`, `vmm_reset_current_pagedir` and `vmm_copy_kernel_mappings`; a virtual page is a pair of table
  indices, and the scratch pages that cloning copies through are the frames themselves.
- `pmm_init` and the multiboot map; a region's bitmap is allocated beside the regions.
- The lexer, parser and dispatcher of rpcgen; the message header around the encoded bytes is counted by its callers.
