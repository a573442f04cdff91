# A verified model of the EGOS storage stack, allocator and kernel

This project models the parts of EGOS, a small teaching operating system, that keep state from one call to the
next, and proves what they promise.

- **Storage.** A block store offers inodes, each a growing sequence of blocks (`Blocks`).  A write-back cache with a
  clock hand presents one store on top of another (`ClockCache`).  The tree disk keeps many files on one inode of
  the store below, with a superblock, inode blocks, a tree of indirect blocks for every file and a linked list of
  free blocks (`TreeLayout`, `TreeInvariant`, `FreeLists`, `TreeSteps`, `TreeWrite`, `TreeFree`, `TreeDisks`,
  `TreeCreate`).  Its checker looks at any image at all (`TreePlaces`, `TreeCheck`).  The unix disk does the same job
  with direct, single and double indirect blocks and a free list that is a stack (`UnixLayout`, `UnixLists`,
  `UnixFiles`, `UnixInvariant`, `UnixGrow`, `UnixShrink`, `UnixEffects`, `UnixCount`, `UnixDisks`, `UnixCreate`).  The file server
  keeps files of bytes on the tree disk (`FileBytes`, `BlockFiles`).
- **The two-level segregated-fit allocator.** Classes of sizes (`TlsfMapping`), bitmaps (`TlsfBitmap`), linked lists
  (`TlsfLists`), blocks with boundary tags (`TlsfBlocks`, `TlsfHeap`), clients and their bytes (`TlsfClients`,
  `TlsfResize`), areas (`TlsfAreas`), and the pool with its operations (`TlsfPools`).
- **The kernel.** Processes, mailboxes, remote procedure calls, death and the multi-level scheduler (`Processes`,
  `ProcessInvariant`, `ProcessRuns`, `ProcessKernel`), with what every routine does field by field (`ProcessEffects`,
  `ProcessDeaths`, `ProcessAlarms`), what a step does to every process (`ProcessMail`) and what holds of messages and
  alarms over whole runs (`ProcessHistory`); page frames and the software TLB (`Paging`, `Tlb`).
- **User threads.** Cooperative threads and hand-off semaphores (`Threads`), and the producers and consumers that
  use them (`ProducerConsumer`).
- **Arithmetic and text.** The integer loops of `fmod` and `sqrt` on double-precision numbers (`Doubles`, `Fmod`,
  `Sqrt`), calendar conversion (`Calendar`), the streaming side of SHA-256 (`Sha256`), and printing and parsing of
  integers (`Numerals`).

Code that changes state in place is a class or a method over arrays, proved against a function of the state before;
the invariants and the theorems about runs are lemmas about those functions.  The asserts of the kernel source stand
in the bodies of the methods of `ProcessKernel.Machine`, so that their proofs show that no assert fails.

## Model

| member | source | states |
|---|---|---|
| Blocks.PutIs | h/egos/block_store.h:15-42 | a write within an inode replaces one block and nothing else, and there is one store in which that is all that has changed; one off the end changes nothing |
| Blocks.TruncateIs | h/egos/block_store.h:15-42 | a cut takes away the blocks past the size and nothing else, and there is one store in which that is all that has changed |
| ClockCache.ClockDisk.Find | block/clockdisk.c:113-130 | the scan returns the one slot that holds a key, or the number of slots if none does |
| ClockCache.ClockDisk.FindVictim | block/clockdisk.c:49-68 | the clock stops after at most one step, and the k-th fill takes slot (k-1) mod nblocks |
| ClockCache.ClockDisk.CacheUpdate | block/clockdisk.c:47-82 | a fill with eviction changes what the cache stands for at the filled key and nowhere else |
| ClockCache.ClockDisk.SetSize | block/clockdisk.c:96-111 | truncation below truncates the view; a failing one changes nothing |
| ClockCache.ClockDisk.Read | block/clockdisk.c:113-145 | a read returns the view and leaves it alone; when a key out of range is still found |
| ClockCache.ClockDisk.Write | block/clockdisk.c:147-174 | a write reports success always, and changes the view exactly at a key in range |
| ClockCache.ClockDisk.Sync | block/clockdisk.c:176-193 | exactly when sync succeeds, and that then the inode below equals the view while no other inode below is touched; with a number that is no inode nothing below changes |
| ClockCache.FillView | block/clockdisk.c:69-81 | eviction with write-back keeps one valid slot a key and the view but for the new key |
| ClockCache.HitView | block/clockdisk.c:147-174 | overwriting a cached block changes the view at its key alone |
| ClockCache.TruncateView | block/clockdisk.c:96-111 | dropping the slots past the size while truncating below is truncation of the view |
| ClockCache.SyncedView | block/clockdisk.c:176-193 | an inode without dirty slots is below what it is in the view |
| ClockCache.BelowIsView | block/clockdisk.c:176-193 | the store below is the view if and only if every dirty slot in range repeats the block below it |
| TreeLayout.ShiftIsPrefix | block/treedisk.c:63-71 | shifting a block number by whole levels gives the covering node, and null exactly inside the capacity |
| TreeLayout.CountLevels | block/treedisk.c:318-325 | the loop of read and write finds the height of the tree for a size |
| TreeLayout.LevelsIs | block/treedisk.c:222-245 | the height is the only one whose capacity holds the file and whose next lower one does not |
| TreeDisks.TreeDisk.GetSnapshot | block/treedisk.c:73-97 | it fails exactly for inode numbers that are too large, and else finds superblock and inode |
| TreeDisks.TreeDisk.AllocBlock | block/treedisk.c:100-145 | it takes the last used slot of the head of the free list or else the head, and panics exactly on an empty list |
| TreeDisks.TreeDisk.FreeBlock | block/treedisk.c:148-197 | the block goes into the first empty slot of the head, or becomes the head |
| FreeLists.FreeAfterTake | block/treedisk.c:100-197 | freeing what was just allocated restores the number of free blocks and leaves every file as it is |
| TreeDisks.TreeDisk.RecursiveFree | block/treedisk.c:200-219 | exactly the nodes of a subtree become free, and the invariant is kept at every step |
| TreeDisks.TreeDisk.FreeFile | block/treedisk.c:222-245 | exactly the nodes of one file become free |
| TreeDisks.TreeDisk.SetSize | block/treedisk.c:271-297 | size 0 empties one file, frees exactly its blocks and changes no other; the same size does nothing; others are refused |
| TreeDisks.TreeDisk.Read | block/treedisk.c:301-358 | a read returns the block of the abstract file, null bytes where nothing was written, and fails exactly out of range |
| TreeDisks.TreeDisk.Write | block/treedisk.c:361-473 | a write is the abstract write on one file with a size of at least offset + 1, takes exactly the number of free blocks it needs, and panics exactly when there are too few |
| TreeWrite.NewSizeHolds | block/treedisk.c:386-388 | the 32-bit size holds the block if and only if the offset is not the last of all |
| TreeWrite.WriteHolds | block/treedisk.c:386-388 | whatever else a write leaves on the disk, with that size it has done what a write does only if the offset is not the last of all, and at the last one the file is empty |
| TreeLayout.CapacityLoopEnds | block/treedisk.c:238-241 | the loop ends if and only if the file has at most 2^24 blocks |
| TreeLayout.LargeFileLoops | block/treedisk.c:238-241 | for 2^24 + 1 blocks no round ends it |
| TreeCreate.FillListBlock | block/treedisk.c:524-543 | one block of the free list names the blocks behind it, as far as there are any |
| TreeCreate.SetupFreelist | block/treedisk.c:524-543 | every block after the inode blocks is on the free list once |
| TreeCreate.Create | block/treedisk.c:547-599 | a new disk keeps the invariant with empty files and room for them; when it fails; that an existing one is left alone |
| TreePlaces.Partition | block/treedisk.h:15-31 | in every state that keeps the invariant a block is reached from exactly one place of the image: superblock, inode block, node, list block or list slot |
| TreePlaces.InvariantIsSound | block/treedisk.h:15-31 | no block is reached twice or lies off the disk, and none is lost when no block is in limbo |
| TreeCheck.CheckInode | block/treedisk_chk.c:33-79 | the scan of a tree marks exactly its blocks, or stops at a block off the disk or seen before |
| TreeCheck.ScanFreeList | block/treedisk_chk.c:140-198 | the scan of the free list ends on every image, circular ones too, and decides whether the image is sound |
| TreeCheck.Check | block/treedisk_chk.c:81-198 | for every image: the checker answers 1 exactly when header and blocks are sound, and reports a leak exactly when a block is reached from nowhere |
| TreeCheck.AcceptsTreeDisks | block/treedisk_chk.c:81-198 | every image that keeps the invariant of the tree disk is accepted, and without limbo has no leak |
| TreeCheck.HeaderCheck | block/treedisk_chk.c:107-111 | the 32-bit test of the header is right if and only if the count is not 2^32 - 1 |
| UnixLists.Take | block/unixdisk.c:288-328 | the block taken off the free list is the top of the stack, and the rest of the stack stays |
| UnixLists.Give | block/unixdisk.c:335-380 | the block given back is the new top of the stack |
| UnixLists.TakeUndoesGive | block/unixdisk.c:288-380 | taking after giving returns the block given and leaves the old stack |
| UnixLists.NothingToTake | block/unixdisk.c:291-296 | from an empty list nothing is taken, and the number returned is the address of the last inode block |
| UnixInvariant.OnePlace | block/unixdisk.h:8-27 | every data block is one slot of the free list or at one position in one file, and at no other place |
| UnixDisks.UnixDisk.PopFree | block/unixdisk.c:288-328 | what is taken off the list on disk, and what the list is afterwards |
| UnixDisks.UnixDisk.PushFree | block/unixdisk.c:335-380 | into which block of the list the number goes, and when it becomes the new head |
| UnixDisks.UnixDisk.Alloc | block/unixdisk.c:381-545 | the file gets longer, its old blocks and all other files stay, and exactly the blocks for its new size leave the free list |
| UnixDisks.UnixDisk.FreeFile | block/unixdisk.c:547-682 | the file is empty, and exactly the blocks it held are on top of the old free list |
| UnixDisks.UnixDisk.TraversePointers | block/unixdisk.c:192-280 | where the pointers lead for every offset, triple indirection as the code has it |
| UnixEffects.TraverseIs | block/unixdisk.c:192-280 | they lead to the data block of the file |
| UnixDisks.UnixDisk.Read | block/unixdisk.c:722-750 | a read returns the block of the abstract file and fails exactly out of range |
| UnixDisks.UnixDisk.Write | block/unixdisk.c:686-718 | exactly with enough free blocks a write changes one block of one file, makes the file just long enough and takes exactly the blocks needed; without them no disk in order has the block written; on a full disk a new direct block goes to the last inode block |
| UnixCount.Conservation | block/unixdisk.c:381-682 | free blocks, data blocks and indirect blocks of all files add up to the data blocks of the disk |
| UnixCount.NeverWritten | block/unixdisk.c:381-545 | with too few free blocks nothing that can be on the disk afterwards is in order and has the block written |
| UnixEffects.FullDiskBreaks | block/unixdisk.c:291-296 | after a write of a new direct block to a full disk the disk is not in order, unless the block falls on the inode of its own file |
| UnixEffects.TripleReadsData | block/unixdisk.c:244-279 | for every offset from 65804 on the pointer comes out of a data block of the file |
| UnixEffects.TripleIsWrong | block/unixdisk.c:244-279 | offset 65804 of a file whose block 268 is null leads to data block 0 |
| UnixDisks.UnixDisk.SetSize | block/unixdisk.c:781-799 | truncation to nothing empties one file and frees exactly its blocks; other sizes are refused |
| UnixCreate.FreshStackOk | block/unixdisk.c:115-174 | the list blocks of a new disk make a stack of all data blocks |
| UnixCreate.Create | block/unixdisk.c:89-186 | a new disk keeps the invariant with empty files and all data blocks free; when it fails; that an existing one is left alone |
| UnixCreate.FirstListFits | block/unixdisk.c:127-134 | the entries of the first list block fit if and only if the number of data blocks is not a multiple of 255 |
| UnixCreate.CreatedFits | block/unixdisk.c:174-180 | a superblock with the count that creation writes belongs to a disk in order only then |
| BlockFiles.FileServer.MultiblockRead | apps/bfs.c:58-82 | how many blocks are read, and that the buffer holds their bytes and is unchanged behind them |
| BlockFiles.FileServer.MultiblockWrite | apps/bfs.c:84-99 | the bytes of the buffer replace those of the file, and no other file changes |
| BlockFiles.FileServer.Put | apps/bfs.c:398-454 | a put lays the data over the file with null bytes in a gap; the stored bytes past the end stay null; eight free blocks a block are enough |
| FileBytes.PutIsOverlay | apps/bfs.c:398-454 | what happens to the stored blocks is the overlay of the byte sequence, exactly because the bytes past its end are null |
| BlockFiles.FileServer.DoRead | apps/bfs.c:324-396 | which user is refused by which bit of the mode; the others get the bytes of the file from the offset on |
| BlockFiles.FileServer.DoWrite | apps/bfs.c:458-486 | which user is refused by which bit of the mode, with nothing changed; the others are puts |
| BlockFiles.FileServer.DoSetsize | apps/bfs.c:532-564 | which user is refused by which bit of the mode, and the replies and the state after the others |
| FileBytes.Permissions | apps/bfs.c:619-643 | the superuser may do everything, the owner what the owner bits say whatever the others are, and anyone else what the other bits say |
| BlockFiles.FileServer.Serve | apps/bfs.c:101-169 | after any history of writes and cuts every file holds what the history says |
| BlockFiles.FileServer.ReadBack | apps/bfs.c:324-396 | a read after any history returns the bytes that the history left |
| FileBytes.LastWritten | apps/bfs.c:398-454 | every byte of a file is the one written last at its place |
| FileBytes.GapIsNull | apps/bfs.c:398-454 | a byte never written reads as null |
| FileBytes.ReachesWrites | apps/bfs.c:398-454 | a file reaches at least to the end of each write |
| FileBytes.EndsAtAWrite | apps/bfs.c:398-454 | a file that is not empty ends where some write ended |
| FileBytes.ReplyIsFull | apps/bfs.c:361-365 | the 32-bit reply length is right if and only if the rest of the file is below 4 GB or its low word is large enough |
| FileBytes.CutFile | apps/bfs.c:532-564 | a cut keeps the first bytes; the file is in order afterwards if and only if it is empty or the bytes cut off were null |
| FileBytes.StaleByteShows | apps/bfs.c:398-454 | a byte left past the end shows after a put in the next block |
| FileBytes.CutByteComesBack | apps/bfs.c:532-564 | a file of five bytes on which that happens |
| TlsfMapping.MsBitIs | lib/tlsf.c:301-308 | the table search finds the integer logarithm |
| TlsfMapping.ClassOfIs | lib/tlsf.c:340-350 | the classes divide up all sizes |
| TlsfMapping.MappingInsert | lib/tlsf.c:340-350 | the shifts compute the class of a size |
| TlsfMapping.MappingSearch | lib/tlsf.c:320-338 | the search starts at the class whose smallest size is the rounded request |
| TlsfMapping.GoodFit | lib/tlsf.c:748-774 | every block in that class or a higher one is as large as the rounded request |
| TlsfMapping.RoundingIsSmall | lib/tlsf.c:320-338 | rounding adds less than one part in thirty-two |
| TlsfMapping.RoundingIsIdempotent | lib/tlsf.c:748-774 | rounding again changes nothing, so the search after growing looks at the same classes |
| TlsfBitmap.LsBitIs | lib/tlsf.c:292-299 | the table search finds the lowest bit that is set |
| TlsfLists.FindSuitableBlock | lib/tlsf.c:353-369 | it returns the head of the first list that is not empty from a class on, and null only if all are |
| TlsfLists.Unlinked | lib/tlsf.c:372-411 | unlinking a block leaves a doubly linked list of the others in their order |
| TlsfLists.Pushed | lib/tlsf.c:372-411 | pushing a block makes it the head of its doubly linked list |
| TlsfBlocks.Disjoint | lib/tlsf.c:802-838 | different blocks have no byte in common |
| TlsfBlocks.MergeKeeps | lib/tlsf.c:802-838 | merging adjacent blocks keeps the tiling, the tags and that no two neighbours are free |
| TlsfBlocks.SplitKeeps | lib/tlsf.c:778-794 | splitting a block keeps the tiling and the tags |
| TlsfPools.Pool.ExtractBlock | lib/tlsf.c:372-411 | the bitmaps and lists stay right for all other blocks, and no byte of a used block changes |
| TlsfPools.Pool.InsertBlock | lib/tlsf.c:372-411 | the block is on exactly the list of its class, and the bitmaps are right |
| TlsfPools.Pool.InitMemoryPool | lib/tlsf.c:486-530 | a new pool keeps the invariant, has one area and a free block of all its size |
| TlsfPools.Pool.MallocEx | lib/tlsf.c:740-799 | a new aligned block of the rounded request plus less than 32 bytes; null exactly when no free block fits and the system gives no area; all clients keep their bytes.  An area at the break needs no condition, another one must not tear the heap |
| TlsfPools.Pool.FreeEx | lib/tlsf.c:802-838 | the heap stays well formed with one client less, and the others keep their bytes |
| TlsfPools.Pool.ReallocEx | lib/tlsf.c:841-924 | the block has the new size and the smaller number of old bytes, whether it stays or moves; null exactly when it cannot grow in place, nothing fits and no area comes, and then nothing changes; areas as for MallocEx |
| TlsfPools.Pool.AddNewArea | lib/tlsf.c:533-608 | the area is joined with exactly those side by side with it, and the others stay on the list in their order; the heap is well formed afterwards if and only if the area does not tear it, and then clients keep their bytes and a free block of its size is there; else two free blocks are side by side and the second does not know |
| TlsfPools.Pool.RoomFor | lib/tlsf.c:533-608 | memory that no area on the list reaches into can be added, so that the list alone tells what can |
| TlsfPools.FillTheGap | lib/tlsf.c:566-568 | a run of four areas that tears a heap |
| TlsfBlocks.NotTorn | lib/tlsf.c:566-568 | no heap with such a pair of free blocks is well formed, however its blocks are listed |
| TlsfAreas.BreakNeverTears | lib/tlsf.c:414-456 | areas at the break, the only ones that this build asks for, never tear the heap |
| TlsfPools.Pool.AllFreed | lib/tlsf.c:802-838 | when every client has freed its blocks a heap of one area is one free block between its description and its sentinel |
| TlsfPools.Pool.InOnePiece | lib/tlsf.c:533-608 | memory in one piece is one area, whatever areas it came in |
| TlsfPools.Pool.CanGrow | lib/tlsf.c:414-456 | an area at the break is one that the pool can take |
| TlsfAreas.NotSideBySide | lib/tlsf.c:549-595 | no area ends where another begins |
| TlsfAreas.AllFree | lib/tlsf.c:802-838 | when no client is left every area is one free block |
| TlsfAreas.FirstAreaFits | lib/tlsf.c:518-519 | the first area lies inside the pool if and only if the size is less than 8 over a multiple of 16 |
| TlsfAreas.FirstAreaOverruns | lib/tlsf.c:518-519 | in a pool of 10248 bytes it does not |
| ProcessKernel.Machine.ProcAlloc | grass/process.c:123-159 | a new process takes the slot that has been free longest and a pid never used |
| ProcessKernel.Machine.ProcRelease | grass/process.c:163-195 | a zombie's slot is freed with its messages |
| ProcessKernel.Machine.ProcRecv | grass/process.c:224-275 | waiting empties the run state, sets the box and the alarm, and the asserts hold |
| ProcessKernel.Machine.ProcRecvEnd | grass/process.c:252-275 | what ReceiveTakes describes, with the contents cut to the room that the receiver has; a reply comes from the server that was called |
| ProcessKernel.Machine.ProcSend | grass/process.c:279-342 | the sending of messages, refused ones and waking ones, is the one that MessageArrives describes |
| ProcessKernel.Machine.ProcWakeup | grass/process.c:346-358 | a waiting process becomes runnable and is queued unless it is the current one |
| ProcessKernel.Machine.ProcTerm | grass/process.c:364-426 | the owner is told, and every client of the dead process wakes up |
| ProcessKernel.Machine.ProcZap | grass/process.c:430-455 | who may kill, and what becomes of a runnable, a waiting and the current process |
| ProcessKernel.Machine.ProcKill | grass/process.c:459-492 | killing one process or all interruptable ones |
| ProcessKernel.Machine.ProcCreate | grass/process.c:535-601 | the new process runs at once and its starter is queued |
| ProcessKernel.Machine.ProcYieldRound | grass/process.c:613-747 | one round of the scheduler loop with alarms, shutdown and the choice of the next process; its asserts hold; with nobody to run it sleeps exactly to the next alarm and at most a second, never a negative time |
| ProcessKernel.Machine.SysRpc | grass/procsys.c:57-77 | a call sends the request and waits; the assert that no reply is there yet holds |
| ProcessKernel.Machine.Happens | grass/process.c:864-900 | every step keeps the invariant and is the step of the runs below |
| ProcessEffects.TargetIs | grass/process.c:279-302 | a message is accepted if and only if its receiver lives and, for a reply, waits for one from the sender |
| ProcessEffects.MessageArrives | grass/process.c:304-342 | an accepted message is last in the mailbox it was sent to, with sender and all contents, and in no other; whether its receiver wakes up, at which level and in which queue |
| ProcessEffects.ReceiveTakes | grass/process.c:254-275 | a receive takes the oldest message of its mailbox and leaves the others |
| ProcessEffects.ReceiveWaits | grass/process.c:224-250 | with an empty mailbox the process sleeps, and its alarm is set to now plus the limit, if there is one |
| ProcessEffects.CallIs | grass/procsys.c:57-77 | the request is last in the server's mailbox with the caller's pid and user, and the caller waits for the reply; a call to itself or to somebody dead does nothing |
| ProcessEffects.BirthIs | grass/process.c:535-601 | the user, level, quantum and empty mailboxes of a new process; who runs, who is queued, and when nothing is created |
| ProcessEffects.TickIs | grass/process.c:873-893 | the last tick of a quantum drops the process a level and ends its turn |
| ProcessEffects.SwitchIs | grass/process.c:692-747 | a full quantum for the next process, and the queue or the free list for the old one |
| ProcessDeaths.DeathIs | grass/process.c:364-426 | the owner of a dead process gets a note with its pid and status, exactly its waiting clients wake up, and nobody else notices |
| ProcessDeaths.ZapIs | grass/process.c:430-455 | exactly the system, the superuser and the process's own user may kill it; it is gone at once if it waits and is not the current one |
| ProcessDeaths.KillIs | grass/process.c:459-492 | exactly the processes that are struck die, and every other one lives on with a note about each of its own that died |
| ProcessDeaths.KillYields | grass/process.c:459-492 | when the one that runs gives up the processor after a kill |
| ProcessDeaths.FateInShutdown | grass/process.c:633-637 | a round during a shutdown kills everybody |
| ProcessAlarms.DueRing | grass/process.c:633-647 | a round wakes up exactly those whose alarm is due, queues them in the order of the table, and leaves all others as they are |
| ProcessAlarms.SleepsToTheAlarm | grass/process.c:628-689 | with nobody to run, the scheduler sleeps to the next alarm, at most a second, and no alarm is due by then |
| ProcessAlarms.HaltsAlone | grass/process.c:629-685 | the system halts if and only if it is late or shuts down with its last process |
| ProcessMail.StepGoes | grass/process.c:123-900 | what any step does to any live process: whether it dies, which messages it gets and takes, and whether it wakes up |
| ProcessHistory.NoMailIsLost | grass/process.c:224-342 | in every run, what a process has received from a mailbox, followed by what is in it, is what was sent to it, in that order |
| ProcessHistory.GetsTheOldest | grass/process.c:254-275 | in every run a receive returns the oldest message sent to the mailbox and not taken yet, and none only if there is none |
| ProcessHistory.NotEarly | grass/process.c:237-250 | in every run a process that waits with an alarm sleeps on, until it dies, gets its message, or a round finds its alarm due |
| ProcessHistory.WakesInTime | grass/process.c:224-250 | in every run a receive with a time limit ends without a message in no round before its end, and the first round from then on ends it |
| ProcessInvariant.CallsFailed | grass/process.c:397-408 | exactly the clients that wait for a dead server wake up, without a reply |
| ProcessInvariant.PickIsFirst | grass/process.c:651-667 | the scheduler takes the first process in line that can run, the oldest of the highest level, and releases only the dead before it |
| ProcessRuns.StepKeeps | grass/process.c:123-900 | every step keeps counts, queues, free list, pids, mailboxes and calls right |
| ProcessRuns.RunKeeps | grass/process.c:123-900 | in every run: the counts are the true ones, each runnable or dead process but the current one is on exactly the queue of its level, free slots are on none, mailboxes and waiting states agree |
| ProcessRuns.DispatchesTheFirst | grass/process.c:613-747 | in every run a round of the scheduler switches to the first in line that can run |
| ProcessRuns.DeadStaysDead | grass/process.c:123-159 | a pid that is dead stays dead for the rest of the run |
| ProcessRuns.NobodyWaitsForTheDead | grass/process.c:364-408 | whoever waits for a reply waits for a live process other than itself |
| ProcessRuns.NoReplyBeforeTheCall | grass/procsys.c:57-77 | no reply is in the mailbox of a process that is about to call |
| Tlb.Mmu.TlbGetEntry | earth/tlb.c:47-57 | the scan finds the one entry that maps a page |
| Tlb.Mmu.TlbSyncEntry | earth/tlb.c:61-77 | a page that may have changed is copied to its frame |
| Tlb.Mmu.TlbFlushEntry | earth/tlb.c:81-104 | the page is copied back and its entry is free |
| Tlb.Mmu.TlbMap | earth/tlb.c:145-210 | an entry is replaced: the old page is copied back, the new one copied in |
| Tlb.Mmu.ProcPagefault | grass/process.c:802-860 | a fault gets a frame if the page has none and maps the page; an address out of range ends the process |
| Tlb.Mmu.Load | grass/process.c:802-860 | what a process reads through an entry is what it should see |
| Tlb.Mmu.ProcAfterSwitch | grass/process.c:511-529 | the pages of the process before are copied back and nothing is mapped |
| Tlb.Mmu.ProcTerm | grass/process.c:410-425 | the frames of a dead process are free again |
| Paging.SyncKeeps | earth/tlb.c:61-77 | copying a page back changes nothing that any process sees |
| Paging.AllSynced | earth/tlb.c:61-77 | after all entries are written back every mapped page is as in its frame |
| Paging.FlushKeeps | earth/tlb.c:81-104 | taking an entry away changes nothing that any process sees |
| Paging.MapKeeps | earth/tlb.c:145-210 | mapping a page over another changes nothing that any process sees |
| Paging.FaultKeeps | grass/process.c:802-860 | after a fault the page is mapped, for writing if and only if that was asked for, and only a page without a frame is seen to change |
| Paging.EntriesInTurn | grass/process.c:846-859 | a page that is not mapped takes the entries in turn, one that is keeps its entry, and no other entry changes |
| Paging.SwitchKeeps | grass/process.c:511-529 | a switch changes nothing that any process sees, and leaves nothing mapped |
| Paging.TermKeeps | grass/process.c:410-425 | the frames of a dead process become free once, and nobody else's memory changes |
| Paging.StartKeeps | grass/process.c:496-504 | starting a process without a flush is right if and only if nothing is mapped |
| Paging.NoPages | grass/process.c:496-504 | nothing is mapped when the process that starts another has no pages, as kernel processes have none |
| Paging.EveryRunShows | earth/tlb.c:47-232 | in every run every live process sees its own memory, no page has two entries, and every frame is free once or held by one page of one live process |
| Paging.ReadsItsOwn | earth/tlb.c:47-232 | after any run the next read of a page returns what the process last wrote there |
| Threads.Scheduler.ThreadCreate | apps/mt.c:67-89 | the new thread runs at once and its creator is queued |
| Threads.Scheduler.ThreadYield | apps/mt.c:91-118 | the yield that YieldIs describes, after which a dead thread is freed |
| Threads.Scheduler.ThreadExit | apps/mt.c:120-143 | the next thread frees the one that exits; without one the program ends |
| Threads.Scheduler.SemaDec | apps/mt.c:151-161 | it takes from the count or blocks; count, grants and queue stay in balance |
| Threads.Scheduler.SemaInc | apps/mt.c:163-174 | it wakes the thread that waited longest or adds to the count |
| Threads.YieldIs | apps/mt.c:91-118 | after a yield the head of the run queue runs and the old thread is its last; alone, it goes on |
| Threads.CreateIs | apps/mt.c:67-89 | the new thread runs and its creator is last in the queue |
| Threads.ExitIs | apps/mt.c:120-143 | the thread is gone and the head of the queue runs; the last one ends the program |
| Threads.DecIs | apps/mt.c:151-161 | a positive count drops and the thread goes on; with a count of 0 it is last in the queue of the semaphore and the head of the run queue runs, or the program ends |
| Threads.IncIs | apps/mt.c:163-174 | the thread that waited longest is last in the run queue, or the count rises |
| Threads.TakesItsTurn | apps/mt.c:67-174 | whatever the threads do, the thread at place j of the run queue runs at the switch j + 1, if the program goes on so long |
| Threads.YieldsAreFair | apps/mt.c:91-118 | the thread at place j of the run queue runs after j + 1 yields |
| ProducerConsumer.StoreReady | apps/mt.c:203-214 | whoever stores has the next slot of the ring free and the lock to itself |
| ProducerConsumer.FetchReady | apps/mt.c:216-228 | whoever fetches finds the next item in order |
| ProducerConsumer.MutualExclusion | apps/mt.c:203-228 | at most one thread is between lock and unlock |
| ProducerConsumer.StepKeeps | apps/mt.c:67-228 | every step of every thread keeps tokens, ring, queues and statuses in balance |
| ProducerConsumer.EveryRun | apps/mt.c:203-228 | for any schedule and number of threads: consumed items are a prefix of the produced ones, the ring never overflows, the lock excludes |
| ProducerConsumer.NoDeadlock | apps/mt.c:203-256 | in every run: when the main thread finds the run queue empty, either all that wait are producers and the ring is full, or all are consumers and it is empty |
| Fmod.Ilogb | lib/math.c:436-459 | the logarithm of any finite number, also a subnormal one |
| Fmod.ShiftAndSubtract | lib/math.c:480-493 | the loop on word pairs computes the exact remainder of the shifted mantissa, and no word overflows |
| Fmod.Fmod | lib/math.c:414-520 | for all finite numbers the result is the exact remainder with the sign of the first; when there is none |
| Sqrt.HighBits | lib/math.c:606-622 | the first loop yields the first 22 bits of the integer root and what remains |
| Sqrt.LowBits | lib/math.c:624-639 | the second loop yields the exact floor of the integer root, and no word overflows |
| Sqrt.Sqrt | lib/math.c:566-661 | the root of every positive number is the nearest floating-point number |
| Calendar.SplitDays | lib/time.c:48-71 | the cycles of 400, 100, 4 and 1 years give the year from March on and the day in it |
| Calendar.SecsToTm | lib/time.c:24-94 | a valid date and time of day with the day of the week and of the year, exactly that many seconds after the start of 1970 if and only if that is not before 1 March 2000; the month table is not left |
| Calendar.MarchStartIs | lib/time.c:48-71 | the count by cycles is the count year by year |
| Calendar.NextDay | lib/time.c:24-94 | the day after a date has the next number and the next day of the week |
| Calendar.LaterDates | lib/time.c:24-94 | later dates have larger numbers, so that a number of seconds belongs to one date |
| Calendar.KnownDay | lib/time.c:17 | the leap day of the epoch year 2000, day 11016, was a Tuesday |
| Sha256.Context.Update | lib/sha256.c:187-224 | the context stands for the message with the piece added, however it was cut up |
| Sha256.Context.Finish | lib/sha256.c:234-261 | the digest is that of the padded message, the words of the state one after the other with the high byte first |
| Sha256.EncodedAt | lib/sha256.c:253-260 | each four bytes of the digest are one word of the state, in order |
| Sha256.PaddedIsStandard | lib/sha256.c:226-252 | the padded message is the one of section 5.1.1 of FIPS 180-2 |
| Sha256.StartIs | lib/sha256.c:41-54 | the start words are the first 32 bits of the fractional parts of the square roots of the first eight primes |
| Sha256.OneMoreBlock | lib/sha256.c:187-224 | the blocks are absorbed from the first to the last |
| Sha256.DigestOf | lib/sha256.c:187-261 | the digest depends only on the joined pieces |
| Sha256.NullBytesIsLeast | lib/sha256.c:226-252 | the padding is the shortest one, as section 5.1.1 of FIPS 180-2 asks for |
| Sha256.PaddingIsInjective | lib/sha256.c:226-252 | different messages have different padded forms |
| Sha256.CountIsRight | lib/sha256.c:187-200 | the counter is right if and only if the update is below 2^32 bytes or passes one multiple of 2^32 |
| Numerals.MemChan.Put | lib/memchan.c:42-52 | the text grows by what is appended, and no character before is lost |
| Numerals.MemChan.PutUnsigned | lib/memchan.c:71-89 | what is printed for a number and a base |
| Numerals.MemChan.PutSigned | lib/memchan.c:94-126 | what is printed with signs and options |
| Numerals.BufferFits | lib/memchan.c:71-89 | the digits fit the buffer if and only if the base is not 2 or the number is below 2^63 |
| Numerals.Strtoul | lib/string.c:363-421 | where parsing stops and its value modulo 2^64 |
| Numerals.Strtol | lib/string.c:314-361 | where parsing stops and its value as a signed word |
| Numerals.RoundTrip | lib/memchan.c:71-89 | parsing what was printed gives the number back and reads all of the text, in bases 8, 10 and 16 |
| Numerals.SignedRoundTrip | lib/memchan.c:94-126 | the same for signed numbers with all options |
| Numerals.ParsedDigits | lib/string.c:314-361 | white space, a sign, a prefix and the digits of a number are read as that number, in the base asked for or, in base 0, the one that the prefix tells |
| Numerals.DigitAt | lib/memchan.c:71-89 | the digit at place i from the right is the one of the power i of the base |
| Numerals.DigitChar | lib/memchan.c:71-89 | digits and letters have their values, and letters are upper case exactly with caps |
| Numerals.EndsWithItsDigits | lib/string.c:343-360 | parsing stops at the end of the digits of its base if and only if no other digit or letter follows |
| Numerals.NotAnOctalDigit | lib/string.c:343-360 | the octal number 18 is taken for 16 |

## Findings

Where the code does not do what its documentation or its callers expect, the model does what the code does.  Each row
names the exact condition and the lemma that states it.

| what fails | source | exactly when | lemmas |
|---|---|---|---|
| The loop that finds the height of a file to be freed never ends: the capacity wraps around to 0. | block/treedisk.c:238-241 | for files of more than 2^24 blocks | CapacityLoopEnds, LargeFileLoops |
| A write leaves a file of size 0. | block/treedisk.c:386-388 | at offset 2^32 - 1 | NewSizeHolds, WriteHolds |
| The checker's test of the header adds in 32 bits and lets a count through that does not fit. | block/treedisk_chk.c:107-111 | for 2^32 - 1 inode blocks | HeaderCheck |
| The first list block of a new unix disk is filled 2^32 - 1 times. | block/unixdisk.c:127-134 | when the number of data blocks is a multiple of 255 | FirstListFits, FirstListOverruns, CreatedFits |
| A write to a unix disk with too few free blocks leaves no disk in order with the block written; on a full one the block lands in the last inode block. | block/unixdisk.c:291-296 | when the write needs more blocks than are free | UnixDisk.Write, NeverWritten, NothingToTake, FullDiskBreaks |
| Triple indirection starts from the double indirect block, and takes data of the file for pointers. | block/unixdisk.c:244-279 | from offset 65804 on | TripleReadsData, TripleIsWrong |
| A read of a large file returns fewer bytes than asked for. | apps/bfs.c:361-365 | when the rest of the file is 4 GB or more and its low word is below the size asked for | ReplyIsFull |
| Cutting a file to a size other than 0 sets the size although the blocks stay, and answers twice. | apps/bfs.c:550-563 | when the number of blocks changes and the new size is not 0 | DoSetsize |
| The bytes cut off come back when the file grows again. | apps/bfs.c:550-563 | unless they were null or the new size is 0 | CutFile, StaleByteShows, CutByteComesBack |
| The first area of a pool reaches past its end. | lib/tlsf.c:518-519 | when the size modulo 16 is 8 or more | FirstAreaFits, FirstAreaOverruns |
| A new area leaves two free blocks side by side, the second of which is marked as if the first were in use. | lib/tlsf.c:566-568 | when it fills the gap between two areas, the one below comes first in the list, and its last block is free; never at the break | AddNewArea, FillTheGap, NotTorn, BreakNeverTears |
| A new process is started without flushing the TLB. | grass/process.c:496-504 | wrong when anything is mapped at that time; never when the starter has no pages | StartKeeps, NoPages |
| The counter of bytes is too small. | lib/sha256.c:187-200 | for an update of 2^32 bytes or more that passes more than one multiple of 2^32 | CountIsRight |
| The difference to 1 March 2000 wraps around in an unsigned word: the result stands for 2^64 seconds later. | lib/time.c:36 | before 1 March 2000 | SecsToTm |
| Digits overflow the buffer of 64 characters. | lib/memchan.c:71-89 | in base 2 from 2^63 on | BufferFits |
| Digits and letters outside the base are parsed. | lib/string.c:343-360 | when one follows a number | EndsWithItsDigits, NotAnOctalDigit |
| The cache's clock never gives a block a second chance: victims are taken strictly in turn. | block/clockdisk.c:49-68 | always | FindVictim |
| Syncing all inodes with number -1 writes nothing back, because the number is compared for equality. | block/clockdisk.c:181 | always; harmless when every dirty slot in range repeats the block below it | Sync, BelowIsView |
| A write is reported as done, and dropped when its slot is taken. | block/clockdisk.c:147-174 | when its key is out of range | ClockDisk.Write, ClockDisk.Read |

## Left out

- UnixDisk.Write: offsets from 65804 on, which need triple indirection, are excluded; TripleReadsData states what goes wrong there. Without enough free blocks what is on the disk is described only for a full disk and a direct block; otherwise the contract says that no disk in order has the block written. Blocks that are skipped by a write hold what they held when they were free; the source does not clear them.
- UnixCreate.Create: a number of data blocks divisible by 255 is excluded, and so is an existing file system with fewer inode blocks than asked for; the inode below is 0, as the other operations assume.
- UnixDisk.SetSize: an inode number that is too large is excluded, on which the source goes on with an uninitialised snapshot.
- fatdisk: unfinished, there is no coherent behaviour to prove.
- wtclockdisk, raid0, raid1, partdisk, combinedisk, mapdisk, statdisk, debugdisk, ramdisk, checkdisk, map.c, qsort.c, dirsvr: easier versions of what is here.
- Store: the bottom store is the model's own; it keeps the contract of h/egos/block_store.h and has no I/O errors.
- Write: TreeDisk.Write excludes offset 2^32 - 1, on which the size wraps to 0; WriteHolds states that no write can be done then. After a panic nothing is promised, because the system stops.
- SetSize: in TreeDisk.SetSize an inode number that is too large is excluded, on which the source goes on with an uninitialised snapshot (block/treedisk.c:275), and so are files of more than 2^24 blocks, on which its loop does not end; CapacityLoopEnds states this.
- FreeFile: in TreeDisk.FreeFile files of more than 2^24 blocks are excluded for the same reason.
- DoSetsize: the same bound on the file that is cut.
- Create: an existing file system with fewer inode blocks than asked for is excluded, on which an assert of the source fails.
- Check: 2^32 - 1 inode blocks are excluded, on which the source writes outside its table; HeaderCheck states that this is the only count.
- Crash consistency: the order in which blocks reach the disk is not modelled as a property.
- Sync: the sync of the store below has nothing to do.
- Put: writing control blocks back (flushing), times, and the delete and create requests, which do not reset the size, are not part of the model.
- Serve: a history holds writes and cuts to nothing; other cuts are in DoSetsize and CutFile.
- FileAt: the bytes of a message are the data; the message format and the service loop are left out.
- InitMemoryPool: the error returns for null, small and unaligned pools are preconditions, and so is that the pool was not set up before.
- MallocEx: an area that tears the heap is excluded (`Suits`), in ReallocEx too, because nothing is known of a torn heap; AddNewArea states exactly which areas do. In this build get_new_area gives areas at the break only, which never do. Requests of 2^30 bytes or more after rounding, for which the source has no class, are excluded; locks, statistics and calloc are left out; the answer of get_new_area is a parameter.
- Offered: the heap, with what the system gives, lies within 2^30 bytes of its base. The source needs this only of single blocks; in this build all memory comes from one break, so that a heap that is all free is one block and both bounds are the same.
- AddNewArea: the list of areas is a sequence, not linked through the areas' first blocks.
- FreeEx: pointers that were not allocated are excluded, as in the source's documentation.
- ProcAlloc: process ids are words that are assumed not to run out; Happens requires it.
- Machine: signals, devices, the context switch itself and the cleanup function of a process are left out; a halted system stays halted. Contents of messages are sequences of numbers.
- ProcPagefault: a system that is out of frames, which panics, is excluded.
- Paging: the page table of a dead process is cleared when its frames are freed, not when its slot is taken again; writing into a page that is mapped for reading only from inside the kernel is left out; what a page holds at first is a parameter; mprotect is left out.
- Scheduler: the first thread is running when the system starts; the sleeping barber is left out.
- Fmod: raising floating-point exceptions is left out; the two invalid results are None.
- Sqrt: additions of doubles round to the nearest, which decides how the source detects an inexact root; a shift by 32 bits, which C leaves open, does no harm and is modelled as any value.
- SecsToTm: years are unbounded numbers, where the source has an int: the result is that of the source only while the year fits one.
- Finish: the compression function is a parameter; the words of the source are 64 bits wide on this build (h/egos/sha256.h), the stored length 64 bits.
- Update: updates that make the counter wrong are excluded; CountIsRight states exactly which.
- PutUnsigned: numbers whose digits overflow the buffer are excluded; BufferFits states exactly which.
- PutSigned: the least 64-bit number is excluded, whose negation C leaves undefined.
- Strtol: a value beyond the signed range, which C leaves undefined, wraps around.
- Floating-point printing, polynomials in math.c, lib/malloc.c, lib/queue.c as pointers, terminal, network, shell, editor and login code are left out.
