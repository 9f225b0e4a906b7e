# Verified models of an xv6-derived kernel

The project models the parts of a teaching kernel (xv6 with a multi-level feedback queue scheduler) whose correctness is
hardest to see from the code, and proves what they are for. `dafny verify dfyconfig.toml` checks everything.

| file | models |
|---|---|
| Basics.dfy, Blocks.dfy, Counting.dfy | shared vocabulary; 512-byte blocks with little-endian words; distinct sequences and the pigeonhole principle |
| RedoLog.dfy | the redo log as sequences of single-block disk writes: commit, install, recovery, and a crash after any write |
| GroupCommit.dfy | the log as a state machine over calls, cache, disk, commits, crashes and recoveries, in any interleaving |
| BufferCache.dfy | the buffer cache: linked list of buffers, reference counts, pinned buffers, over a disk |
| Log.dfy | log.c as code over the buffer cache; its disk writes are those of RedoLog.dfy |
| Journal.dfy | log.c refines GroupCommit.dfy: calls on the code, and crashes of it, are runs of the state machine |
| Dinodes.dfy, Volume.dfy | inodes in their blocks; file-system calls over the log, and what crashes do to the file system |
| Bitmap.dfy, Inodes.dfy | block allocator, block map, readi, writei and itrunc, with the blocks they log and allocate |
| Chunks.dfy, Files.dfy | how much a write can log, and filewrite's chunks |
| Vm.dfy | page allocator and two-level page tables (section 4.3, "32-bit paging", of the Intel SDM, volume 3A) |
| Umalloc.dfy | the user-level allocator of section 8.7 of Kernighan and Ritchie, 2nd edition |
| Mlfq.dfy | the five ring buffers, the scheduler pass, preemption, ticks and accounting |
| SleepLock.dfy | sleep locks over sleep/wakeup, any number of processes |
| Pipe.dfy, Grep.dfy | the pipe ring, the regular-expression matcher |
| Shell.dfy, Grammar.dfy | the shell's scanner and parser; the grammar that it implements |

How the code is represented:

- Objects that the kernel updates in place are classes; their methods have the source's loops and branches and are proved
  against specification functions and predicates, about which the lemmas speak.
- Disk writes of whole blocks are atomic, and a crash is any prefix of the writes made. A `panic` in the file system is a
  result (`None`, `false`, `Panicked`): the machine stops, which for the disk is a crash.
- A critical section under a spin lock is one step. `log_write` is one step although its guard is read before the lock is
  taken. A timer tick (`ticks++` with `modify_times`) is one step.
- Memory that the code reaches through kernel addresses is named by physical page number, and header addresses in the user
  heap are in header-sized units. `sbrk`'s result is a parameter.
- The MLFQ configuration of the scheduler is the one modelled.

Two results qualify what the comments promise. param.h:10 lets a call log MAXOPBLOCKS blocks; with the log area that
mkfs.c:25 lays out (LOGSIZE blocks) log_write's own limit of size - 1 blocks is reached one block early, so its panic is
reachable (GroupCommit.LogSpace, GroupCommit.LogWritePanicReachable). A larger log area excludes that panic and moves it:
the log may then hold LOGSIZE == NBUF blocks (GroupCommit.FullLogReachable), all buffers are pinned, and commit's first
bread panics; with no buffer in use commit completes exactly with fewer than NBUF logged blocks (Log.Logger.Commit). And aging in modify_times changes only the queue number of
a process that is still in a ring, because push returns early for it (Mlfq.TickEffect).

## Model

| member | source | states |
|---|---|---|
| RedoLog.PutHeader | log.c:101-113 | The header block read back after write_head gives the same count and the same block numbers. |
| RedoLog.HeaderWords | log.c:101-113 | The count is the first word of the header block, the numbers follow it in order, and the rest of the block stays. |
| RedoLog.RecoveryCrash | log.c:69-122 | Recovery cut after any of its single-block writes leaves a disk that recovers to the same home blocks; a complete recovery leaves them in place under an empty header. |
| RedoLog.RecoveryIdempotent | log.c:115-122 | However many recoveries are cut short one after another, and wherever each is cut, the homes finally recovered are those of one uninterrupted recovery. |
| RedoLog.ClearedRecovers | log.c:69-122 | A disk whose header is empty recovers to its own homes. |
| RedoLog.LogWritesFill | log.c:177-190 | After the first k log writes the log area holds the k cached blocks and nothing outside it has changed. |
| RedoLog.CommitPoint | log.c:101-113 | Right after the header write no home has changed yet, the log area describes exactly the transaction, and what recovery would write is exactly the rest of commit's own writes. |
| RedoLog.CommitCrash | log.c:177-202 | Crash atomicity: after any number k of commit's writes recovery gives the old homes while k does not exceed the number of logged blocks, and from the header write on all the new ones; the homes themselves are untouched before it. |
| GroupCommit.StepInv | log.c:125-233 | Every step of begin_op, log_write, end_op, cache fill and eviction, one disk write of commit or recovery, and crash keeps the invariant that ties cache, disk, log header and history together. |
| GroupCommit.RunInv | log.c:125-233 | The invariant holds at every moment of every interleaving of calls from any bootable disk. |
| GroupCommit.CommitWriteIs | log.c:177-202 | The block commit writes next, read from the buffers at that moment, is the one fixed when the commit began: pinned buffers have not been recycled or changed since. |
| GroupCommit.RecoversDurable | log.c:69-122 | At every moment recovering the disk gives the homes obtained by replaying exactly the durable part of the history. |
| GroupCommit.CrashSafety | log.c:125-202 | For every run, crashes and interrupted recoveries included: recovery gives the homes left by a set of whole, finished calls. |
| GroupCommit.Isolation | log.c:145-174 | While a call is outstanding no home on disk reflects anything that is not durable, and once recovery is over every read sees all logged writes. |
| GroupCommit.DurableGrows | log.c:145-202 | What has become durable stays a prefix of the durable history for the rest of the run. |
| GroupCommit.LogSpace | log.c:132-136 | begin_op's test keeps the logged blocks plus all unused reservations within LOGSIZE in every run; with a log area of more than LOGSIZE blocks log_write does not panic for a call within its MAXOPBLOCKS. |
| GroupCommit.LogWritePanicReachable | log.c:218-221 | The size condition is needed: for every clean disk whose log area has at most LOGSIZE blocks, as mkfs.c:25 lays it out, some run reaches the panic with a call still within its reservation. |
| GroupCommit.FullLogReachable | log.c:132-136 | With a log area of more than LOGSIZE blocks some run fills the log with LOGSIZE blocks while every call is within its reservation; since LOGSIZE == NBUF, all buffers are pinned then. |
| BufferCache.WalksAreReverses | bio.c:38-56 | Walking next and walking prev from the head give reverse sequences that name every buffer exactly once. |
| BufferCache.PushFrontLinked | bio.c:46-55 | Inserting after the head turns a well-linked ring for `order` into one for [b] + order. |
| BufferCache.UnlinkLinked | bio.c:132-133 | Unlinking the k-th buffer leaves a well-linked ring without it. |
| BufferCache.Bcache.constructor | bio.c:38-56 | binit leaves a well-formed cache of NBUF reusable buffers that represents the disk. |
| BufferCache.Bcache.Bget | bio.c:61-93 | Returns the buffer caching the block, otherwise the unreferenced clean buffer released longest ago; None only if no buffer is reusable, so a dirty or referenced buffer is never recycled. |
| BufferCache.Bcache.Bread | bio.c:96-106 | The locked buffer returned holds the last contents logically written to that block; no other buffer changes. |
| BufferCache.Bcache.Store | log.c:77-77 | Changing the data of a held buffer changes exactly that block of the flat array the cache represents. |
| BufferCache.Bcache.Bwrite | bio.c:109-116 | One disk block is written with the buffer's contents and the buffer becomes clean; what reads return is unchanged. |
| BufferCache.Bcache.Brelse | bio.c:120-141 | The reference is dropped; at zero the buffer moves to the front, so the list stays ordered by the time each reference count last fell to zero. |
| Log.Logger.Transfer | log.c:74-80 | One turn of install_trans or write_log: exactly one disk write, of the source's cached contents to the destination, with both buffers released. With the home pinned it succeeds exactly if the log block is cached or some buffer can be recycled, and it takes no buffer away from later reads. |
| Log.Logger.WriteHead | log.c:101-113 | One disk write: the old header block with the count and the logged numbers stored over it; it succeeds exactly if bread finds a buffer. |
| Log.Logger.ReadHead | log.c:85-96 | Loads exactly the block numbers that the header on disk lists, writing nothing. |
| Log.Logger.WriteLog | log.c:177-190 | The disk writes made are a prefix of the specified log writes; when the logged blocks are the pinned ones it stops exactly at the first log block for which bread finds no buffer. |
| Log.Logger.InstallTrans | log.c:69-82 | The disk writes made are a prefix of the specified install writes; on completion the installed blocks are unpinned. It completes if the log blocks could be read at the start, or at boot. |
| Log.Logger.Recover | log.c:115-122 | recover_from_log's disk writes are exactly a prefix of the specified recovery writes, so RecoveryCrash applies at every cut; at boot it does not run out of buffers, and it leaves the recovered disk. |
| Log.Logger.Commit | log.c:192-202 | commit's disk writes are exactly a prefix of the specified commit writes, so CommitCrash applies at every cut; on completion the logged blocks are installed and reads are unchanged. Whoever else holds buffers, it completes if and only if each log block it needs is cached or some buffer can be recycled, and otherwise stops in bget's panic before the header write; with no buffer in use that is if and only if fewer than NBUF blocks are logged. |
| Log.Logger.BeginOp | log.c:125-141 | Admits a call exactly if no commit is running and the reservations of all outstanding calls still fit. |
| Log.Logger.LogWrite | log.c:213-233 | Absorbs a repeated block, pins the buffer, and fails exactly when the log is full or no call is outstanding. |
| Log.Logger.EndOp | log.c:145-174 | Only the last outstanding call commits, and then completes under commit's own exact conditions; earlier ones change neither disk nor log. |
| Journal.Journal.constructor | bio.c:38-56 | Power-on and binit, with the disk in which any run of GroupCommit ended, whatever was going on then: the crash is a further step of that run. |
| Journal.Journal.ReadSuper | fs.c:31-39 | readsb before recovery returns block 1 as it is on disk; it leaves the block cached and nothing pinned or held, which is all that recovery asks for. |
| Journal.Journal.Recover | log.c:115-122 | At boot recover_from_log always completes; every one of its disk writes is a step of the run, and afterwards code and run agree on disk, reads, logged blocks, pinned blocks and outstanding calls. |
| Journal.Journal.Begin | log.c:125-141 | The code admits a call exactly when the run's step is enabled, and then takes that step. |
| Journal.Journal.Hold | bio.c:96-106 | What bread returns for a home block is what the logged writes of the whole history left there; it panics exactly if the block is not cached and no buffer can be recycled. |
| Journal.Journal.Release | bio.c:120-141 | brelse is no step of the run: everything the run describes is unchanged. |
| Journal.Journal.Write | log.c:213-233 | Changing a held buffer and calling log_write is one step of the run; it panics exactly when the run's log is full, and then the run stays where it was. |
| Journal.Journal.End | log.c:145-174 | end_op with other calls outstanding is one step of the run and writes nothing. |
| Journal.Journal.EndLast | log.c:145-202 | end_op of the last call: each disk write of its commit is a step of the run, whether or not it completes; on completion everything logged is durable. It completes exactly if each log block it needs is cached or some buffer can be recycled; with no buffer in use, exactly if fewer than NBUF blocks are logged. |
| Journal.PlannedRun | log.c:177-202 | A run that starts a commit or a recovery can go on with any number of the specified writes, passing through exactly the disks they produce, and can finish after all of them. |
| Journal.CrashAnywhere | log.c:125-202 | A crash after any disk write the code makes leaves a disk from which recovery restores the homes of whole, finished calls; and the run up to there is one that a power-on continues. |
| Dinodes.PutInode | fs.c:220-236 | iupdate's stores into the inode's 16-word slot read back: the size is word 2, the thirteen pointers are the words after it; the other seven inodes of the block, and every inode's type and link count, stay. |
| Dinodes.SameFs | fs.c:56-95 | Whether blocks and inodes form a consistent file system without holes depends only on the bitmap blocks, the data blocks and the inodes. |
| Dinodes.WrittenHolds | fs.c:220-236 | Writing the blocks a call has logged, the inode's block with just that inode replaced, turns a disk that holds the old file system into one that holds the new one. |
| Volume.Volume.constructor | log.c:53-66 | Mounting at boot: after recovery the disk is a consistent file system, and the inodes read from it are the file system that later reads see. |
| Volume.Volume.PutBlock | fs.c:227-235 | bread, change, log_write and brelse of one block of a call: reads see exactly that block changed, for an inode block exactly that inode. Within its reservation a call always gets a buffer; it panics exactly when the log area, smaller than LOGSIZE, is full. |
| Volume.Volume.Write | file.c:140-145 | A writei of at most a chunk inside a call, its logged blocks passed through the log: the file reads as overwritten, other files are unchanged, and disk and log hold the same consistent file system. It panics only if the disk has too few free blocks or a log area smaller than LOGSIZE is full, and a panic leaves only recoverable disks. |
| Volume.Volume.Truncate | fs.c:407-435 | itrunc inside a call through the log, with the same guarantees; on a disk whose bitmap leaves room in the reservation. |
| Volume.Volume.Begin | log.c:125-141 | A call is admitted exactly if the reservations fit; disk and log still hold the same file system. |
| Volume.Volume.End | log.c:145-174 | The end of a call that is not the last keeps all of that. |
| Volume.Volume.EndLast | log.c:145-202 | Group commit of any number of such calls: a crash after any of its disk writes leaves a disk from which recovery makes a consistent file system; it completes exactly if fewer than NBUF blocks are logged. |
| Volume.CrashesOk | log.c:69-122 | At every moment of every run of such calls, recovering the disk as it is gives a file system in which every block is metadata, free, or in exactly one place of one file, as the bitmap says, and no file has holes. |
| Volume.Reboot | log.c:53-66 | The disk of any moment can be mounted again, and the run goes on from there. |
| Bitmap.MarkUsedBits | fs.c:66-68 | Setting a clear bit of a bitmap block sets that bit and no other. |
| Bitmap.MarkFreeBits | fs.c:88-92 | Clearing a set bit clears that bit and no other. |
| Inodes.AllocKeeps | fs.c:56-78 | A block balloc finds free is non-zero, a data block and owned by no inode; allocating it moves no pointer and adds exactly it to the used blocks. |
| Inodes.Fs.Balloc | fs.c:56-78 | Returns the lowest free block, marked and zeroed; the panic means every block is in use. |
| Inodes.Fs.Bfree | fs.c:81-95 | Frees exactly the given block; the panic "freeing free block" happens exactly if it was free. |
| Inodes.Fs.Bmap | fs.c:372-400 | Maps a file block to a data block that the inode then owns, named by direct pointer bn or, from 12 on, by word bn - 12 of the indirect block, allocating the lowest free blocks and logging exactly their bitmap blocks, themselves and the indirect block; used blocks remain the disjoint union of metadata and every inode's blocks, and existing pointers stay. It panics exactly for block numbers past MAXFILE and when fewer blocks are free than it needs, and then none is left. |
| Inodes.Fs.Iupdate | fs.c:220-236 | The inode on disk becomes a copy of the one in memory, and its block is logged; how it lies in the block is Dinodes.PutInode. |
| Inodes.TruncStep | fs.c:414-431 | Each non-zero slot that itrunc reaches is still marked used, so its bfree cannot panic. |
| Inodes.Fs.Itrunc | fs.c:407-435 | Frees exactly the blocks the inode owned, each once; the inode is empty without holes, every other file keeps its slots and bytes, and files without holes stay so. Every block that changes is logged, and only bitmap blocks and the inode's block are. |
| Inodes.Fs.Readi | fs.c:452-476 | Returns the requested slice clipped to the file size, fails exactly on an offset past the end or overflow, and allocates nothing in a file without holes. |
| Inodes.WritingStep | fs.c:498-504 | One bmap-copy-log turn extends the written range by m bytes and changes no other byte of any file. |
| Inodes.WritingContents | fs.c:481-511 | When the loop is through, the file's bytes are the old ones with the source in place at the offset. |
| Inodes.OverwriteReads | fs.c:498-504 | Overwriting replaces exactly the bytes from the offset on by the source's and lengthens the file only past its end. |
| Inodes.ContentsAt | fs.c:372-400 | Byte k of a file is byte k mod 512 of the block that direct pointer k / 512 or, from 12 on, word k / 512 - 12 of the indirect block names. |
| Inodes.Fs.Writei | fs.c:481-511 | The file reads as before with the source in place and size max(size, off+n); no other file changes and no file gets holes; failure happens exactly for a bad offset or a size past MAXFILE blocks and changes nothing; the panic happens exactly when fewer blocks are free than the growth needs. The set of blocks logged is given exactly: those overwritten, those allocated with their bitmap blocks, the indirect block if it gets an entry, the inode block if the file grows; every block that changes is among them. |
| Inodes.HolesKept | fs.c:481-511 | If one file stays without holes and the others keep their blocks, all files stay without holes. |
| Chunks.WithinBound | file.c:127-133 | No write logs more than the bound computed from its offset and length. |
| Chunks.ChunkTight | file.c:127-133 | There is a disk and an offset at which a write of filewrite's max logs exactly MAXOPBLOCKS blocks. |
| Chunks.ChunkIsExact | file.c:127-133 | For n up to the maximum file size: every possible write of n bytes, on every disk and at every offset, logs at most MAXOPBLOCKS blocks if and only if n is at most filewrite's max; for larger n a disk and a write that logs more are given. |
| Files.OpenFile.WriteChunk | file.c:140-145 | One transaction: the chunk is written at the offset, the offset advances, and at most MAXOPBLOCKS distinct blocks are logged; it panics exactly when fewer blocks are free than the chunk needs. |
| Files.OpenFile.Write | file.c:117-156 | The chunked loop writes the whole source as one overwrite; it succeeds exactly if the whole range fits, and a failure leaves a whole number of chunks written. It runs one transaction for each chunk, each logs at most MAXOPBLOCKS blocks, every block that changed was logged by one of them, and the chunk that does not fit logs nothing. It panics exactly when fewer blocks are free than the chunks that fit need. |
| Vm.PteParts | mmu.h:93-101 | An entry built from a page and flags is present and gives back that page and those flags. |
| Vm.OneUse | vm.c:222-298 | No two places of any directories refer to the same page, none refers to a free page, and every page that is neither free nor held by a kalloc caller is referred to. |
| Vm.PhysMem.constructor | kalloc.c:20-37 | Before kinit1 every page between the kernel image and PHYSTOP is held and the free list is empty. |
| Vm.PhysMem.FreeRange | kalloc.c:46-53 | Exactly the pages that lie wholly between the two addresses become free. |
| Vm.PhysMem.Kfree | kalloc.c:59-77 | Puts the page in front of the list threaded through the free pages, fills the rest of it with 1s, and changes no other page; refuses, changing nothing, exactly a page outside the allocatable range. |
| Vm.PhysMem.Kalloc | kalloc.c:82-95 | Takes the first free page, or returns 0 exactly if there is none. |
| Vm.NewTableInv | vm.c:44-53 | Hanging a zeroed table into an empty directory slot changes no translation of any directory. |
| Vm.EntrySet | vm.c:73-73 | Writing one table entry changes one translation of one directory and nothing else. |
| Vm.PhysMem.Walk | vm.c:35-55 | Finds or allocates the table for an address without changing any translation or any page's data; the directory's entry for it is present, writable and open to user mode; 0 exactly if the table is absent and not wanted or no page is free. |
| Vm.PhysMem.MapOne | vm.c:68-74 | Sets exactly one entry, reports a remap exactly if it was present, and otherwise fails only without free pages, leaving everything as it was. |
| Vm.PhysMem.MapRange | vm.c:60-80 | Maps a kernel range page by page; when it stops early exactly the first m pages are mapped. |
| Vm.RowsDisjoint | vm.c:105-115 | The rows of kmap[] do not overlap and leave the user part alone. |
| Vm.KernelEntryIs | vm.c:105-115 | kmap[] amounts to this: page KERNBASE + p is physical page p below PHYSTOP, device pages are themselves, nothing else is mapped from KERNBASE up, nothing is open to user mode, and exactly the kernel's text, from EXTMEM up to data, is read-only. |
| Vm.PhysMem.SetupKvm | vm.c:118-136 | A new directory has exactly the layout of KernelEntryIs and no user page; it fails if and only if fewer than 65 pages are free (the directory and 64 tables), and then every page taken is back on the free list and no translation changed. |
| Vm.PhysMem.AllocUvm | vm.c:221-249 | Success adds zeroed writable user pages for exactly the new range; failure, which happens exactly when fewer pages are free than the new pages and the tables missing for them, leaves nothing mapped in that range, only page tables stay with the directory, and nothing else changes. It panics exactly if it comes upon a page that was mapped before memory runs out. |
| Vm.JumpSkips | vm.c:267-268 | The jump over an absent table passes no mapped page. |
| Vm.PhysMem.DeallocUvm | vm.c:255-279 | Frees exactly the pages mapped between the two sizes and clears exactly their entries; the kfree panics are unreachable. |
| Vm.PhysMem.FreeVm | vm.c:283-298 | Every page of the directory is freed once, no other page changes its use, and other directories translate as before. |
| Vm.PhysMem.CopyUvm | vm.c:315-345 | Success gives a directory whose pages below sz have the parent's words and flags on pages of its own, with the kernel's layout from KERNBASE up; it panics exactly if it comes upon a page below sz that is not mapped before memory runs out; otherwise it runs out of memory exactly when fewer pages are free than the kernel's 65, the pages and their tables, and then gives every page back. |
| Vm.ForkCopies | vm.c:315-345 | After a copy, child and parent read the same words the parent read before, no user page of any directory coincides with the child's, and parent and child have the same kernel mappings, because every directory has kmap[]'s in every state. |
| Umalloc.InsertOrdered | umalloc.c:33-42 | Freeing keeps the list address-ordered, disjoint and without adjacent free blocks. |
| Umalloc.InsertUnits | umalloc.c:33-42 | Freeing adds exactly the block's units to the free ones, whichever neighbours it merges with. |
| Umalloc.InsertSteps | umalloc.c:33-42 | The assignments of free() leave headers that form exactly the merged circular list. |
| Umalloc.TakeUnits | umalloc.c:75-83 | malloc's cut takes exactly the requested units from the end of a block and no other unit. |
| Umalloc.OneWrap | umalloc.c:30-32 | Following ptr ascends in address except from the last block back to base. |
| Umalloc.StopsAtPosition | umalloc.c:30-32 | free()'s loop condition stops exactly at the block after which the freed one belongs. |
| Umalloc.Heap.FindPlace | umalloc.c:30-32 | The search from freep terminates at that block. |
| Umalloc.Heap.Release | umalloc.c:24-44 | The list in memory becomes the old one with the block inserted and merged, and freep is its predecessor. |
| Umalloc.Heap.Free | umalloc.c:24-44 | Exactly the block's units become free; every unit from sbrk stays in exactly one free or allocated block. |
| Umalloc.Heap.Morecore | umalloc.c:46-61 | Adds exactly the larger of the request and 4096 units, wherever sbrk has them, as free memory that satisfies the request; on sbrk failure nothing changes. |
| Umalloc.Trip | umalloc.c:74-88 | One trip round the ring terminates with the first block, in ring order from freep, that is large enough, or with none if and only if no block is. |
| Umalloc.Heap.Malloc | umalloc.c:63-90 | Returns units of the heap that no allocated block covered, as one new block; fails exactly if no free block fits and sbrk fails; the heap grows only if nothing fits, and then by the larger of the request and 4096 units. |
| Mlfq.RingLength | proc.c:892-910 | A ring holds sz entries, and isFull means NPROC of them. |
| Mlfq.NeverFull | proc.c:943-946 | By pigeonhole "Queue is Full" is unreachable for a process that is in no ring. |
| Mlfq.RotateStep | proc.c:566-574 | Popping an entry and pushing it back rotates the ring by one place. |
| Mlfq.Scheduler.Push | proc.c:912-963 | Appends to the ring unless the process is already in some ring; each ring refines a sequence. |
| Mlfq.Scheduler.Pop | proc.c:964-983 | Removes the front entry and no other. |
| Mlfq.Scheduler.Search | proc.c:560-587 | Takes the first RUNNABLE entry of the lowest ring that has one; rings searched in vain keep their order and the chosen ring becomes suffix plus skipped prefix; exactly the entries skipped lose their cur_time, and no process changes otherwise; none is found exactly if no queued process is RUNNABLE. |
| Mlfq.Scheduler.DispatchOne | proc.c:590-611 | The chosen process is RUNNING, in no ring, with wait_time 0, one more run and its other fields as before; exactly the entries skipped lose their cur_time, and no other process changes. |
| Mlfq.Scheduler.RequeueAll | proc.c:613-622 | Ring 0 gets, at its back and in the order of the process table, exactly the RUNNABLE processes with a pid that are in no ring; the other rings stay, and only those processes' cur_time is reset. |
| Mlfq.Scheduler.TimerTick | trap.c:51-59 | ticks++ and modify_times change the system exactly as the tick specification says, aging included. |
| Mlfq.TickEffect | proc.c:826-868 | A tick treats every process by itself, field by field: a running one gains running time, a tick of its queue and of its slice; another one waits a tick longer or, after more than AGE, rises one queue. Rings only grow: by those that rise and are in none, in the order of the process table. |
| Mlfq.Scheduler.Yield | proc.c:660-680 | The preempted process is RUNNABLE one queue down with a fresh slice, at the back of that queue's ring unless it is in a ring already; nothing else changes. |
| Mlfq.Scheduler.Allocproc | proc.c:74-121 | The first UNUSED slot becomes an EMBRYO with the given pid, start_time the current tick and all other counts zero, and goes to the back of ring 0, which by pigeonhole is never full for it, unless the slot is in a ring already; none exactly if no slot is UNUSED. |
| Mlfq.Scheduler.Wakeup1 | proc.c:745-755 | Exactly the slots asleep on the channel become RUNNABLE, with their other fields unchanged, and nobody is asleep on it afterwards; rings and other slots stay. |
| Mlfq.YieldInv | proc.c:660-680 | A preempted process lands at the tail of the queue it is demoted to. |
| Mlfq.StepInv | proc.c:661-680 | Every scheduler step keeps the invariant on rings, states and time accounts. |
| Mlfq.RunInv | proc.c:553-625 | The invariant holds over every run. |
| Mlfq.NeverDuplicated | proc.c:912-941 | In every run a process is in at most one place of one ring, and in none while it is RUNNING. |
| Mlfq.PassEndsQueued | proc.c:613-622 | In every run a pass ends with every RUNNABLE process in some ring, including one that was just woken. |
| Mlfq.WaitxTimes | proc.c:378-380 | In every run, for an exited child: start_time and end_time are the ticks of its creation and exit, rtime is the number of ticks between them that found it running, wtime the number of the others, and its per-queue counts are the ticks it ran in each queue. |
| Mlfq.SleepsUntilWoken | proc.c:705-755 | In every run a process that sleeps on a channel stays asleep there until the next wakeup on that channel or its kill, and is RUNNABLE after that. |
| Mlfq.SliceCounts | proc.c:826-841 | In every run cur_time of a running process is the number of ticks it has run since it was last dispatched. |
| Mlfq.PreemptedAfterSlice | trap.c:119-120 | In every run a process is preempted in queue q only after it has run more than 2^q ticks since it was last dispatched, and never in the last queue. |
| Mlfq.SliceDoubles | main.c:20-26 | The slices are 1 tick for queue 0 and twice as much from queue to queue, 16 for the last. |
| SleepLock.RunInv | sleeplock.c:22-42 | The invariant on spin locks, owner and sleepers holds over every interleaving of any number of processes, with kill() waking sleepers at any time. |
| SleepLock.MutualExclusion | sleeplock.c:22-42 | At most one process is between acquiresleep and releasesleep. |
| SleepLock.NoLostWakeup | proc.c:705-764 | A process asleep on the lock implies that the lock is held or that a releaser holding lk->lk has its wakeup still ahead. |
| SleepLock.HoldingSleep | sleeplock.c:44-53 | holdingsleep's test is true of a process exactly if it owns the lock. |
| Pipe.WrapKeepsSlot | pipe.c:93-93 | A counter wrapped at 2^32 addresses the same slot as the true count, because PIPESIZE divides 2^32. |
| Pipe.WrapCompares | pipe.c:85-85 | The full and empty tests on wrapped counters agree with the true counts, and their difference modulo 2^32 is the number of bytes in the pipe. |
| Pipe.PipeBuf.WriteRun | pipe.c:78-98 | Enqueues the next bytes in order until all are out or the pipe is full; then it sleeps, or fails exactly if there is no reader or the caller was killed. |
| Pipe.PipeBuf.ReadRun | pipe.c:100-121 | Returns the next bytes in FIFO order, up to n; sleeps or fails only if the pipe is empty with a writer left. |
| Pipe.PipeBuf.Close | pipe.c:59-75 | Closes one end and changes no byte, so what is in flight can still be read. |
| Pipe.PipeBuf.InFlight | pipe.c:78-121 | nwrite - nread modulo 2^32 is the number of bytes in flight and at most PIPESIZE. |
| Grep.MatchLoop | grep.c:72-82 | match's loop computes the specification. |
| Grep.MatchStarLoop | grep.c:99-106 | matchstar's loop computes the specification. |
| Grep.StarTriesRuns | grep.c:99-106 | matchstar succeeds exactly if after some run of c at the front the rest matches here. |
| Grep.MatchHereCorrect | grep.c:85-96 | matchhere accepts exactly if a prefix of the text (all of it for a final $) is in the language of the pattern. |
| Grep.MatchCorrect | grep.c:72-82 | match accepts exactly if some substring (a prefix for a leading ^) is in the language of the pattern. |
| Shell.Parser.Gettoken | sh.c:265-308 | Skips white space, classifies the token and advances the cursor exactly as the token specification says. |
| Shell.Parser.Peek | sh.c:310-320 | Skips white space and tests the next character, never matching the end. |
| Shell.Parser.Redirects | sh.c:374-397 | parseredirs' loop computes its specification, including the missing-file error; what the specification means is Grammar.ParsesIff. |
| Shell.Parser.Simple | sh.c:426-445 | parseexec's argument loop computes its specification, including both panics. |
| Shell.Parser.ExecCmd | sh.c:415-446 | parseexec computes its specification. |
| Shell.Parser.Block | sh.c:399-413 | parseblock computes its specification, including the missing parenthesis. |
| Shell.Parser.Pipeline | sh.c:361-372 | parsepipe computes its specification and terminates. |
| Shell.Parser.Line | sh.c:344-359 | parseline computes its specification and terminates on every input. |
| Shell.LineTokens | sh.c:265-446 | Whatever the line, every word of the tree is a maximal run of plain characters, and no command has more than nine. |
| Shell.NulTerminate | sh.c:449-493 | Exactly the positions just after the tree's words become NUL. |
| Shell.CutText | sh.c:449-493 | After termination every word, read as a C string, is its token: no word is cut by another's terminator. |
| Shell.Parsecmd | sh.c:327-342 | On success every word of the tree in the terminated buffer is its token; a syntax error leaves the buffer alone. |
| Shell.RoundTrip | sh.c:327-446 | Printing a well-formed tree, with parentheses where needed, and parsing the line gives back the same tree. |
| Shell.RoundTripIff | sh.c:327-446 | A tree comes back from its printed form if and only if it has at most nine words per command and all its words are non-empty and plain. |
| Shell.ParsedReprints | sh.c:327-446 | Whatever the line, if it parses, printing its tree and parsing again gives the same tree. |
| Grammar.ParsesIff | sh.c:265-446 | The parser is the grammar: parsecmd accepts a line with a tree if and only if the tree is derived from the line's tokens by rules stated without the parser. Tokens are maximal runs of plain characters and the operators, with >> one of them; a redirection is an arrow and the word after it, input exactly for <, output for > and >>; words and redirections keep their order; pipes and lists associate to the right. |
| Grammar.LexIsToken | sh.c:265-308 | gettoken yields exactly the tokens of that definition. |

## Left out

- Device and boot code (ide.c, lapic.c, ioapic.c, uart.c, kbd.c, mp.c, bootmain.c, assembly): hardware access; a disk write is its effect.
- spinlock.c: a critical section is a step, without memory ordering; SleepLock.dfy has the two spin locks as explicit steps.
- console.c, syscall.c, sysproc.c, exec.c, user programs other than sh.c and grep.c, and usertests: I/O or thin wrappers.
- sysfile.c and the directory layer of fs.c (dirlookup, dirlink, namex, link counts), ialloc, iget, iput and the inode cache.
- The FCFS, PBS and round-robin configurations of the scheduler, and claims about fairness.
- runcmd() in sh.c and the buffering loop of grep(): only parsing and matching are modelled.
- The class methods run one at a time; interleavings are in GroupCommit.dfy (calls, commits, crashes), SleepLock.dfy (processes) and, for the pipe and the rings, in invariants that every critical section keeps.
- Inodes.Fs.Readi: for files without holes, which writei and itrunc keep all files to (NoHoles in Inodes.dfy); a hole would make bmap allocate. Device inodes (T_DEV) are not modelled.
- Inodes.Fs.Writei: for files without holes; device inodes are not modelled, and inode numbers and sizes stay in memory-sized records.
- Inodes.Fs.Iupdate: on-disk inodes are a table here; their bytes are in Dinodes.dfy, without type, device numbers and link count, and Volume.Volume.PutBlock writes them.
- Volume.Volume.Write: a call's blocks are passed to the log when its file-system part is through, each once with its final contents; two calls do not interleave inside writei or itrunc.
- Volume.Volume.Truncate: on disks with so many bitmap blocks that itrunc could exceed MAXOPBLOCKS nothing is promised; nor is there a check in the source.
- Files.OpenFile.Write: the inode branch for a writable file; the pipe branch is Pipe.dfy.
- Log.Logger.Commit: readers may hold buffers meanwhile, as fileread (file.c:97-113) does without begin_op, but not the buffer of a log block or of a logged block: there commit would wait, and waiting is not modelled. The same holds for Log.Logger.Transfer, WriteHead, WriteLog, InstallTrans and EndOp.
- Journal.Journal.Write: changing the data and log_write are one step; that a call holds the buffer in between is not.
- BufferCache.Bcache.Brelse: a holder that changed the data has logged or written it by then, as all callers have.
- Journal.Journal.Hold: as for BufferCache.Bcache.Bread, waiting for a buffer lock is not modelled.
- BufferCache.Bcache.Bread: waiting for another holder of the buffer's sleep lock is SleepLock.dfy's subject; the disk interrupt is the effect of iderw.
- Vm.PhysMem.MapRange: the loop of mappages for the kernel part; user pages are mapped one at a time, as all callers do, by Vm.PhysMem.MapOne.
- Vm.PhysMem.Kfree: a page that is not on the list already; freeing one twice would make the list cyclic, and Vm's invariant excludes it for every caller modelled.
- Vm.PhysMem.DeallocUvm: for sizes up to KERNBASE, which all callers keep to.
- Vm.PhysMem.CopyUvm: for sizes up to KERNBASE; inituvm, loaduvm, copyout, clearpteu and the hardware's TLB are not modelled.
- Umalloc.Heap.Malloc: sizes whose unit arithmetic does not overflow 32 bits, and an sbrk that returns memory above the program's data and not handed out before.
- Mlfq.WaitxTimes: tick counters are unbounded, without 32-bit wrap-around; kernel stacks and contexts of allocproc are not modelled.
- Pipe.PipeBuf.WriteRun: what happens between two wake-ups; the wake-ups themselves and the freeing of the pipe's page are not modelled.
- Shell.Parser.Simple: running out of memory for tree nodes is not modelled; `ret`'s alias into the command being filled is modelled by keeping arguments and redirections apart until the end.
