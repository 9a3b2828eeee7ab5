# A verified model of the xv6 kernel's core

xv6 is a small Unix-like kernel for RISC-V. This project models the parts of it whose correctness depends on more than
one function at a time, and proves what they promise for every input, every interleaving of threads and every crash:

- **The log and the buffer cache** (`kernel/log.c`, `kernel/bio.c`). `LogMachine` has one step for each access that
  another thread, or a power failure, can come between. `LogInvariant` shows what every step keeps, `LogTheorems` what
  follows for every run: crash atomicity, cache coherence, the reservation, the commit protocol and `sys_sync`.
  `LogOverflow` shows that the bound on the blocks an operation may log is exact, `LogImage` that a property of the
  disk which groups of operations keep survives every crash. `LogCode` and `Bio` are the two files as they are written,
  loops and linked list included.
- **The file system's blocks and inodes** (`kernel/fs.c`, `mkfs/mkfs.c`). `FsState` says who owns each block, `FsDisk`
  how the inodes on disk lag behind those in memory, `FsCode` is the code over bitmap bytes, block bytes and both kinds
  of inodes, `FsContents` and `FsTrunc` what it does to files, and `MkfsCode` the image it starts from. `DirNames` and
  `DirCode` are paths and directories as bytes. `InodeTable` is the table of in-memory inodes as an interleaved machine,
  `InodeCode` the functions over it that a single caller runs, with path lookup and orphan reclaim.
- **Page tables and the page allocator** (`kernel/vm.c`, `kernel/kalloc.c`, `kernel/riscv.h`). `Vm` is the code over
  page-table entries in memory; `VmState` ties it to a finite map from virtual pages to frames and to a partition of
  memory into free pages, tables and user frames.
- **Processes** (`kernel/proc.c`, `kernel/spinlock.c`, `kernel/sleeplock.c`). `SchedMachine` interleaves CPUs, kernel
  threads, interrupts and locks handed across a context switch; `WaitMachine` is fork, exit and wait; `SleepLock` the
  sleep locks.
- **The user heap** (`user/umalloc.c`). `Heap` and `HeapGrowth` are the heap as blocks, `Umalloc` the code over headers.
- **The disk driver** (`kernel/virtio_disk.c`). `VirtioMachine` interleaves the driver with the device of sections 2.6
  and 5.2 of virtio v1.1; `VirtioCode` is the descriptor allocation as written.

A false return value (`ok`) of a modelled function stands for its `panic`, unless the comment says otherwise. Ghost
state, such as `g` in `Vm.Memory` and `FsCode.FileSystem`, is the abstract state the concrete fields refine.

## What turned out to need a condition

- **Log reservation.** `kernel/param.h:9` allows an operation ten blocks. `LogOverflow.ReservationExact`: `log_write`
  never panics if and only if operations log fewer than ten distinct blocks. With exactly ten, three operations fill
  the thirty entries, and logging one of those blocks once more reaches the test in `kernel/log.c:223`; the log would
  also be one block longer than the area `mkfs/mkfs.c:104-107` reserves. The other log theorems are for operations
  below ten.
- **malloc.** A request is met by growing the heap through `free`, which gives the top of the heap back to the kernel
  when it has grown to 1024 units. `HeapGrowth.SearchEnds`: the search ends if and only if something fits already, or
  the request is below 768 units, or the top free block and the request together stay below 1024 units. A first request
  for 1024 units or more loops for ever (`HeapGrowth.FirstTooLarge`), and one malloc and one free reach a heap in which
  768 units do (`Umalloc.NeverMet`).
- **The root directory's size.** `mkfs` rounds it up to the next multiple of the block size, a whole block more if it
  is one already. `MkfsCode.Mount`: the directory then has no hole if and only if its size was not a multiple. With 64
  entries it is one (`MkfsCode.HoleInRoot`).
- **Reading a hole.** `readi` gives a hole a block, and does not write the inode back (`kernel/fs.c:512-537`), although
  `kernel/fs.c:227-228` asks for that after every change. On disk the bitmap then has a block that no inode names. `FsCode.FileSystem.Readi`: if before the read a bit on disk was set
  exactly for metadata and for blocks in some place, that holds after it if and only if the disk was full, or no slot
  of the inode itself, direct or indirect, was missing for the bytes read; an entry of an indirect block that is there
  is logged, and safe. The root directory of 64 entries is such an input (`MkfsCode.ReadInRoot`), and the block is lost
  once the inode has left memory. `Writei`, `Itrunc`, `Iput`, `Ialloc` and `Ireclaim` keep it always, `Namex` if no directory has a slot missing.
  Blocks can be lost in this way, but no byte is: every file reads the same from the disk as from memory
  (`FsCode.FileSystem.Restart`).
- **Buffers.** The cache has thirty buffers and panics when it needs one more. `BufferLimit.NoBuffersIff`: that is so
  exactly when the distinct blocks logged or referred to by a thread are as many as the buffers. A commit by itself
  leaves one, even of 29 blocks (`BufferLimit.CommitFits`); but nothing in the cache prevents it
  (`BufferLimit.Exhausted`), and its clients have to hold few at a time.
- **Interrupts.** Each process thread finds its own interrupt state again after it has moved to another CPU
  (`SchedTheorems.OwnBit`). The scheduler's own thread does not save it across the switch, and sets it afresh each round.

## Model

| member | source | states |
|---|---|---|
| LogFormat.WriteHeader | kernel/log.c:104-116 | writing a header and reading it back gives the same block numbers |
| LogFormat.InstallEffect | kernel/log.c:67-85 | after n writes of install_trans exactly the first n logged blocks are at home, with the log's contents |
| LogFormat.InstallKeepsRecoverable | kernel/log.c:67-85 | copying a committed block home changes nothing about what recovery will give |
| LogFormat.BootRecovers | kernel/log.c:118-125 | wherever recovery is cut off, the disk still recovers to the same contents; if it is not, they are in place and the header is empty |
| LogFormat.Boots | kernel/log.c:54-125 | a series of interrupted boots leaves a disk that recovers to the same contents |
| LogFormat.RepeatedCrashes | kernel/log.c:54-125 | any number of crashes during recovery followed by one that completes gives the committed contents and an empty header |
| LogInvariant.BgetHitInv | kernel/bio.c:64-72 | finding a cached block keeps the invariant of log, cache and disk |
| LogInvariant.BgetRecycleInv | kernel/bio.c:74-86 | recycling never loses an update: an unreferenced buffer is neither pinned nor changed |
| LogInvariant.ReadDiskInv | kernel/bio.c:91-102 | a block read from disk is the last value written |
| LogInvariant.ReleaseSleepInv | kernel/bio.c:116-122 | releasing a buffer whose changes are logged keeps the invariant |
| LogInvariant.DropRefInv | kernel/bio.c:124-136 | dropping the reference keeps the count exact |
| LogInvariant.LogWriteInv | kernel/log.c:217-238 | log_write does not panic, keeps the invariant, and leaves the changed block logged and pinned |
| LogInvariant.BeginOpInv | kernel/log.c:128-144 | admitting an operation keeps room for what all active operations may still log |
| LogInvariant.EndOpInv | kernel/log.c:148-178 | ending an operation keeps the invariant, whether or not it starts the commit |
| LogInvariant.CopyToLogInv | kernel/log.c:181-194 | write_log puts the last value written of each logged block into the log, and no home block changes |
| LogInvariant.WriteHeadInv | kernel/log.c:104-116 | from the header write on the disk recovers to everything written |
| LogInvariant.InstallOneInv | kernel/log.c:67-85 | each turn of install_trans keeps the disk recoverable to the committed contents and unpins the block |
| LogInvariant.RecoverOneInv | kernel/log.c:67-85 | the same during recovery, when nothing is pinned |
| LogInvariant.ClearHeadInv | kernel/log.c:196-206 | the emptied header commits nothing new and loses nothing |
| LogInvariant.FinishCommitInv | kernel/log.c:168-177 | the end of a commit leaves an empty log and everything written on disk |
| LogInvariant.CrashInv | kernel/log.c:54-64 | a power failure in any state leaves a disk that recovery turns into the committed contents |
| LogInvariant.StepInv | kernel/log.c:54-252 | every step of every thread, and a crash, keeps the invariant |
| LogTheorems.RunInv | kernel/log.c:54-252 | the invariant holds in every state of every run |
| LogTheorems.CrashRecovery | kernel/log.c:54-125 | from any state of any run, crashes and recoveries end with exactly the committed contents at home and an empty header |
| LogTheorems.CommitIsAtomic | kernel/log.c:196-206 | the committed contents change in one step only, the header write, with no operation in progress, to everything written |
| LogTheorems.LastFrozen | kernel/log.c:157-178 | while a group commits nobody else writes |
| LogTheorems.AllOrNothing | kernel/log.c:148-206 | until a group's commit is complete a crash gives everything the group wrote or nothing of it |
| LogTheorems.Coherence | kernel/bio.c:57-153 | a block has at most one buffer; refcnt is holders plus one if logged; bread returns the last value written; an unlocked buffer that differs from disk is logged and pinned |
| LogTheorems.Reservation | kernel/log.c:128-144 | entries plus unused reservations never exceed the log; it fits the blocks on disk; its entries are distinct; log_write never panics |
| LogTheorems.CommitProtocol | kernel/log.c:128-178 | committing means no operation is in progress; idle means the log is empty and home; a sleeper in begin_op has someone to wake it |
| LogTheorems.DurableWitness | kernel/log.c:240-252 | what counts as durable was all committed in some earlier state |
| LogTheorems.SyncIsDurable | kernel/log.c:240-252 | sys_sync returns only after every operation ended before the call has been committed |
| LogOverflow.Overflow | kernel/log.c:217-238 | from a freshly made image, operations of exactly MAXOPBLOCKS blocks reach the panic in log_write |
| LogOverflow.ReservationExact | kernel/param.h:9-10 | log_write never panics, from any power-on, if and only if operations log fewer than MAXOPBLOCKS distinct blocks |
| LogCode.NextInstall | kernel/log.c:67-85 | the next block install_trans copies is the committed value, and the disk recovers as before |
| LogCode.Log.LogWrite | kernel/log.c:217-238 | absorbs a block already logged, appends it otherwise; an operation within its reservation never panics, and leaves the others theirs |
| LogCode.Log.WriteLog | kernel/log.c:181-194 | each cached block is in its log slot; after every write the home blocks and the empty header are untouched |
| LogCode.Log.WriteHead | kernel/log.c:104-116 | the header on disk reads back as the one in memory, after one block write that changes no other block and no word past the header |
| LogCode.Log.InstallTrans | kernel/log.c:67-85 | the loop computes Install, and the disk recovers to the same contents after each of its writes |
| LogCode.Log.ReadHead | kernel/log.c:88-99 | the in-memory header is the one on disk |
| LogCode.Log.RecoverFromLog | kernel/log.c:118-125 | the code computes Boot, leaves the goal in place, and may be cut off after any write |
| LogCode.Log.WriteLogAndHead | kernel/log.c:199-201 | up to the header write a crash gives the old home contents; that write is the commit point |
| LogCode.Log.Commit | kernel/log.c:196-206 | every disk before the commit point recovers to the old contents and every one from it on to all that was written |
| LogCode.Log.BeginOp | kernel/log.c:128-144 | an operation that starts has room for ten entries of its own beside all that the others may still add; one that waits has a commit or an operation to wait for |
| LogCode.Log.EndOp | kernel/log.c:148-178 | what the operation did not use is free for others; the last operation to end commits the group, atomically; any other changes nothing on disk |
| Bio.Unlink | kernel/bio.c:128-129 | the two stores take a buffer out of the doubly linked list and keep the order of the rest |
| Bio.Front | kernel/bio.c:130-133 | the four stores put a buffer at the front |
| Bio.Bcache.constructor | kernel/bio.c:35-52 | all buffers are on the list, the last one initialised first |
| Bio.Bcache.Bget | kernel/bio.c:57-88 | finds the block's buffer if there is one, else the least recently used unreferenced one; fails only if all are referenced; takes the step of the machine |
| Bio.Bcache.Brelse | kernel/bio.c:116-137 | panics exactly without the lock; the last reference makes the buffer most recently used; takes the two steps of the machine |
| Bio.Bcache.Bpin | kernel/bio.c:139-145 | one more reference to the buffer: what the step of the machine for log_write does to the cache when it adds the block to the log |
| Bio.Bcache.Bunpin | kernel/bio.c:147-153 | one reference less: what the step of the machine for a turn of install_trans does to the cache, besides the data |
| BufferLimit.NoBuffersIff | kernel/bio.c:74-87 | in every run the buffers left are all of them less one for each distinct block that is logged or referred to; bget finds none if and only if those blocks are as many as the buffers |
| BufferLimit.CommitFits | kernel/log.c:181-194 | while no thread has a buffer the log leaves thirty less the blocks pinned, which is at least one |
| LogImage.CommittedOk | kernel/log.c:148-206 | if every group of operations keeps a property of what is written, the committed contents have it in every state of every run, crashes included |
| LogImage.Survives | kernel/log.c:54-206 | then any crashes and recoveries leave a disk with that property, if it looks at home blocks only |
| BufferLimit.Exhausted | kernel/bio.c:74-87 | from a freshly made image, a thread that holds thirty buffers leaves none for the next block |
| FsBitmap.SetBit | kernel/fs.c:80-82 | setting or clearing a bit of a byte changes that bit and no other |
| FsBitmap.BitUpdate | kernel/fs.c:70-110 | updating the byte of block b changes the bit of b and of no other block |
| FsBitmap.Position | kernel/fs.h:47-51 | bitmap block, byte and bit determine the block |
| FsState.WordPut | kernel/fs.c:448-454 | an entry stored in an indirect block reads back, and the others are as before |
| FsState.AllocOk | kernel/fs.c:70-93 | a free block marked in use and zeroed keeps block ownership |
| FsState.FreeOk | kernel/fs.c:96-110 | a block taken out of its place and freed keeps block ownership |
| FsState.PutDirectOk | kernel/fs.c:429-437 | an allocated block put into an empty direct slot belongs to it alone |
| FsState.PutIndOk | kernel/fs.c:440-447 | the same for the indirect block, all of whose entries are empty |
| FsState.PutEntryOk | kernel/fs.c:448-458 | the same for an entry of the indirect block |
| FsState.GrownTrans | kernel/fs.c:423-462 | allocation steps compose: only the places named are filled, and no data block moves or changes |
| FsState.PlacesOf | kernel/fs.c:70-110 | a block is in use if and only if it is metadata, in some place, or in hand; never two of these, and never in two places |
| FsState.NoAddrs | kernel/fs.c:203-224 | an inode that holds no block has no address to lose when it is wiped |
| FsCode.FileSystem.ScanBlock | kernel/fs.c:79-88 | finds the first clear bit of a bitmap block; all before it are set |
| FsCode.FileSystem.Balloc | kernel/fs.c:70-93 | returns the lowest free block, zeroed and marked, or 0 exactly when every block is in use |
| FsCode.FileSystem.Bfree | kernel/fs.c:96-110 | clears the bit of that block and of no other; panics exactly if it is clear already |
| FsCode.FileSystem.Ownership | kernel/fs.c:70-110 | between calls a bit of the bitmap is set if and only if the block is metadata, in some place, or lost; a data block is in one place only, in memory and on disk the same |
| FsCode.FileSystem.DiskOwnedIff | kernel/fs.c:232-247 | on disk a bit is set exactly for metadata and blocks in some place if and only if no block is lost and no inode in memory is ahead of the disk |
| FsDisk.OwnedIff | kernel/fs.c:232-247 | the same of the abstract state |
| FsDisk.GrownBehind | kernel/fs.c:423-462 | what bmap changes in an inode leaves the disk behind by slots filled in memory only |
| FsDisk.SlotsNext | kernel/fs.c:512-537 | one block further, a read has changed the inode in memory exactly if a slot on the way was missing and the disk was not full |
| FsDisk.LostIff | kernel/fs.c:306-321 | reading an inode from disk loses blocks exactly if the copy in memory was ahead |
| FsDisk.ReloadedFiles | kernel/fs.c:306-321 | and it loses no byte: what the disk lacks is zeroes, which a hole reads as |
| FsDisk.LagSync | kernel/fs.c:230-247 | writing an inode to disk keeps that what the disk lacks is zeroes |
| FsCode.FileSystem.constructor | kernel/fs.c:44-52 | a disk whose bitmap agrees with its contents and that has lost no block satisfies the invariant and ownership on disk |
| FsCode.FileSystem.Iupdate | kernel/fs.c:230-247 | the disk is up to date with inode i, and behind by no more than before elsewhere |
| FsCode.FileSystem.Reload | kernel/fs.c:306-321 | the inode is as on disk, and no byte of any file changes; the blocks only the copy in memory had are in use and in no place, and there are some exactly if the two differed |
| FsCode.FileSystem.Restart | kernel/fs.c:186-195 | after a reboot the inodes are those on disk, and every file reads as before; the agreement of the disk with its bitmap is as before |
| FsCode.FileSystem.Release | kernel/fs.c:96-110 | a block taken out of its place is freed without a panic |
| FsCode.FileSystem.Bmap | kernel/fs.c:423-462 | the number of block bn, allocated and zeroed if missing; 0 only if the disk is full; ownership holds even if balloc runs out between indirect block and data block; what the disk lacks is still zeroes |
| FsCode.FileSystem.Readi | kernel/fs.c:512-537 | returns the bytes of the file from off on, clipped to its size; without holes nothing is allocated and nothing is missing; a hole reads as zeroes, and a read is short only if it would need a block of a full disk; ownership on disk is kept if and only if the disk was full or no direct or indirect slot was missing for these bytes |
| FsCode.FileSystem.Writei | kernel/fs.c:546-582 | the first r bytes of src are spliced into the file at off; r is short only if the disk is full; -1 exactly if off is past the end or the end past the maximum; the inode on disk is the one in memory, and ownership on disk is kept |
| FsCode.FileSystem.TruncDirects | kernel/fs.c:473-478 | exactly the direct blocks become free |
| FsCode.FileSystem.TruncIndirect | kernel/fs.c:480-490 | exactly the indirect block and the blocks it names become free |
| FsCode.FileSystem.Itrunc | kernel/fs.c:466-494 | exactly the blocks of the inode become free, its size is 0, and no other block or inode changes; the panic in bfree is not reached; the inode on disk is the one in memory, and ownership on disk is kept |
| FsCode.FileSystem.Ifree | kernel/fs.c:335-343 | an emptied inode becomes allocatable, in memory and on disk; free inodes still hold no block, and ownership on disk is kept |
| FsCode.FileSystem.Wipe | kernel/fs.c:211-216 | wiping a free inode loses no block: every place holds what it held, and ownership on disk is kept |
| FsContents.WroteBlock | kernel/fs.c:557-572 | one turn of writei changes the bytes it writes and no other byte of any file |
| FsContents.SplicedOk | kernel/fs.c:546-582 | writing and then setting the size is a splice, and leaves no hole |
| FsContents.SplicedFile | kernel/fs.c:546-582 | the file as a byte sequence has bytes off to off + n replaced, is longer if they reach past its end, and is otherwise the same |
| FsContents.OtherFile | kernel/fs.c:546-582 | every other file is the same byte sequence as before |
| FsContents.GrownByte | kernel/fs.c:423-462 | bmap changes no byte of any file |
| FsContents.GrownFills | kernel/fs.c:512-537 | bmap of one block fills at most that hole, with zeroes, and changes no byte |
| FsTrunc.DropDirectOk | kernel/fs.c:473-478 | clearing a direct slot takes exactly its block out of use |
| FsTrunc.DropIndOk | kernel/fs.c:480-490 | clearing the indirect slot takes out exactly the indirect block and what it names |
| FsTrunc.AllBlocks | kernel/fs.c:466-494 | the direct blocks, the indirect block and its entries are all the blocks of the inode |
| FsTrunc.TruncatedOk | kernel/fs.c:466-494 | with all its blocks dropped and size 0 the inode is truncated and nothing else has changed |
| MkfsCode.BlankOk | mkfs/mkfs.c:113-120 | the zeroed image, with the metadata blocks in use, satisfies block ownership |
| MkfsCode.Image.MapBlock | mkfs/mkfs.c:273-290 | the block of a file is found or taken, and belongs to that place alone; exactly the missing blocks are taken |
| MkfsCode.Image.constructor | mkfs/mkfs.c:113-120 | the image starts out with no file, no block in hand and every inode free |
| MkfsCode.Image.Ialloc | mkfs/mkfs.c:227-239 | the next inode, empty and with one link |
| MkfsCode.MissingBlocks | mkfs/mkfs.c:273-290 | the blocks taken for m more bytes are the difference in blocks between the sizes |
| MkfsCode.Image.Iappend | mkfs/mkfs.c:259-301 | the bytes go at the end of the file, which has exactly the blocks its new size calls for; no other file changes |
| MkfsCode.Image.Balloc | mkfs/mkfs.c:241-255 | the bitmap written has exactly the bits of the blocks in use |
| MkfsCode.Mount | mkfs/mkfs.c:170-177 | the image satisfies the invariant the kernel keeps and ownership on disk; a file has a hole if and only if it is a root directory whose size was a multiple of BSIZE |
| MkfsCode.RootRounding | mkfs/mkfs.c:170-175 | rounding the size of a file that has exactly its blocks leaves no hole if and only if the size is not a multiple of BSIZE |
| MkfsCode.Image.FixRoot | mkfs/mkfs.c:170-175 | the root directory has a hole afterwards if and only if its size was a multiple of BSIZE; no other file has one |
| MkfsCode.HoleInRoot | mkfs/mkfs.c:122-177 | a root directory of 64 entries is mounted with a hole in it, on a disk that is not full |
| MkfsCode.ReadInRoot | kernel/fs.c:512-537 | reading in that hole and then the inode from disk leaves a block in use that no inode names |
| InodeTable.LockIsFree | kernel/fs.c:352-381 | the sleep lock iput acquires for the last reference of an unlinked inode is free |
| InodeTable.NotDying | kernel/fs.c:352-381 | an inode being given up is neither named by a directory nor free for ialloc, so iget is not called for it |
| InodeTable.StepInv | kernel/fs.c:251-381 | every step of every process keeps the invariant of the inode table |
| InodeTable.TableSafety | kernel/fs.c:251-381 | in every run an inode is in at most one entry in use, ref is the number of references, and iput never waits for the sleep lock |
| InodeTable.FreedWhenGone | kernel/fs.c:335-381 | in every run a referenced inode is allocated, so ilock finds a type; ifree frees only an unlinked inode nobody refers to |
| InodeCode.CountUpdate | kernel/fs.c:251-293 | changing one entry changes the number of references to its inode and to no other |
| InodeCode.ReclaimedOne | kernel/fs.c:391-411 | one orphan more reclaimed frees its blocks and changes no other inode |
| InodeCode.Itable.Iget | kernel/fs.c:251-282 | one more reference to inum and to nothing else; fails only if every entry is in use |
| InodeCode.Itable.Idup | kernel/fs.c:286-293 | one more reference to the same inode |
| InodeCode.Itable.constructor | kernel/fs.c:186-195 | at boot no inode is in memory and no entry is in use |
| InodeCode.Itable.Ilock | kernel/fs.c:297-322 | the entry becomes valid, with the inode as on disk if it was not; panics exactly if the inode on disk is free; no file reads differently, and the disk is as before |
| InodeCode.Itable.Ialloc | kernel/fs.c:203-224 | a reference to the first inode free on disk, wiped; no block of any file is lost and ownership, on disk as well, is kept; none exactly if every inode is allocated |
| InodeCode.Itable.Iput | kernel/fs.c:352-381 | one reference less; exactly when it was the last one of a valid, unlinked inode, its blocks and then the inode are freed, on disk as well, and ownership on disk is kept |
| DirNames.NameCmp | kernel/fs.c:586-590 | two name fields match exactly if they are the same string, of at most 14 bytes |
| DirNames.SkipElem | kernel/fs.c:667-690 | the first of the non-empty parts between slashes, cut to 14 bytes, goes into name; there is none exactly if the path has none; the rest is empty exactly if it was the last |
| DirNames.ElementsAt | kernel/fs.c:674-677 | the bytes up to a slash or the end are the first element of a path |
| DirCode.Dirlookup | kernel/fs.c:592-618 | returns the first entry in use whose name matches, 0 exactly if there is none; panics only if it is no directory, its size is not a multiple of 16 or a hole needs a block of a full disk; no file reads differently |
| DirCode.Dirlink | kernel/fs.c:622-649 | the name is found afterwards with that inode number, every other name as before, and no other file changes; -1 only if the name is there, the disk is full or the directory has its maximal size, and then no file has changed |
| DirCode.OtherName | kernel/fs.c:622-649 | an entry written over a free one or at the end leaves every other name as it was |
| DirCode.NewName | kernel/fs.c:622-649 | and its own name, not there before, is found |
| DirCode.LookupSame | kernel/fs.c:592-618 | directories that read the same give the same for every name |
| InodeCode.ResolveSame | kernel/fs.c:694-731 | file systems that read the same resolve every path alike |
| InodeCode.Itable.Dirlookup | kernel/fs.c:592-618 | one more reference to the inode the directory has for the name, -1 exactly if it has none |
| InodeCode.Itable.Namex | kernel/fs.c:694-731 | returns what the path names, one level early for nameiparent, then with its last element, and one more reference to it and none gained or lost elsewhere; panics only if the table is full, a directory's size is not a multiple of 16 or the disk is full; if no directory has a slot missing ownership on disk is kept |
| InodeCode.Itable.Ireclaim | kernel/fs.c:391-411 | after boot-time reclaim no inode is allocated without links; exactly the blocks of those that were are free, nothing else has changed, and ownership on disk is kept |
| Sv39.PteRoundTrip | kernel/riscv.h:402-406 | an entry made from an address and permissions gives back the page and the flags |
| Sv39.ClearUserBit | kernel/vm.c:334-341 | clearing the user bit leaves the page and the other flags |
| Sv39.PxIsShift | kernel/riscv.h:409-411 | the three indices are the nine-bit fields of the address |
| Sv39.PxDetermines | kernel/riscv.h:409-417 | below MAXVA the three indices determine the page |
| PageTable.AddTableOk | kernel/vm.c:73-92 | a zeroed page linked in below an empty entry keeps the tables a forest and changes no mapping |
| PageTable.SetLeafEffect | kernel/vm.c:109-137 | storing a leaf entry changes the mapping of one page of one address space |
| PageTable.FollowEntry | kernel/vm.c:73-92 | a present interior entry leads to the table below it, an absent one to none |
| PageTable.PathBroken | kernel/vm.c:73-92 | without a table on the way there is no leaf entry |
| VmState.ReadPte | kernel/vm.c:95-106 | the entry in the tree is present exactly if the page is mapped, with its frame and flags |
| VmState.WithTableOk | kernel/vm.c:73-92 | a free page made a table changes no mapping, no frame and no byte in use |
| VmState.MapPageOk | kernel/vm.c:109-137 | mapping a page keeps the refinement and the partition of memory |
| VmState.UnmapPageOk | kernel/vm.c:171-187 | unmapping keeps them, and a user frame is then in no use |
| VmState.NoUserOk | kernel/vm.c:334-341 | clearing the user bit keeps them |
| VmState.PopOk | kernel/kalloc.c:68-82 | a page taken from the free list is in no other use |
| VmState.PushOk | kernel/kalloc.c:46-63 | a page in no use can go on the free list |
| VmState.WithRootOk | kernel/vm.c:140-149 | a free page made a page table is a new, empty address space |
| VmRanges.RangeMapAt | kernel/vm.c:109-137 | n pages mapped from v on to consecutive frames |
| VmRanges.OwnerFollows | kernel/vm.c:109-137 | the user frames in use are exactly those the user mappings name |
| VmRanges.ClearTracked | kernel/vm.c:171-187 | unmapping one more page frees its frame and changes nothing else |
| VmFill.PopulateOne | kernel/vm.c:190-215 | one more page of an address space filled from a frame of its own; no page of memory is lost |
| VmFill.PopulateUndone | kernel/vm.c:190-227 | unmapping the pages added gives back every frame taken and leaves every mapping as it was |
| VmFree.WithoutTableOk | kernel/vm.c:311-324 | a table with nothing mapped below it can be taken out of its tree |
| VmFree.NoLeaf | kernel/vm.c:311-324 | with nothing mapped below a table freewalk finds no leaf |
| VmFree.AllFreed | kernel/vm.c:311-324 | when the entries are done and the table freed, exactly the tables below it are on the free list |
| VmFree.TreeReleased | kernel/vm.c:326-332 | freeing the tree of an empty address space releases all of it and nothing else |
| VmFree.CreateUndone | kernel/proc.c:598-618 | an address space created and then released leaves memory as it was |
| VmAccount.ReleasedConserves | kernel/proc.c:620-626 | releasing an address space loses no page of memory |
| VmAccount.ClearedConserves | kernel/vm.c:171-187 | unmapping and freeing loses no page of memory |
| VmAccount.CreatedConserves | kernel/proc.c:598-618 | creating an address space loses no page of memory |
| VmAccount.MappedCounts | kernel/vm.c:109-137 | mapping user pages puts exactly the frames mapped to use, of those handed out |
| VmAccount.NoPageLost | kernel/kalloc.c:26-82 | in every run from kinit on, of walk, mappages, uvmalloc, uvmcopy, uvmunmap, uvmfree, uvmcreate, uvmclear, copyout, kalloc and kfree by what each ensures, every page of memory is free, a table, a user frame or handed out, and just one of these |
| VmUser.ReadsPage | kernel/vm.c:257-277 | part of a page read from its frame is what user memory holds there |
| VmUser.WrotePage | kernel/vm.c:230-254 | part of a frame overwritten changes those bytes of user memory and no other, in any address space |
| VmUser.WroteJoin | kernel/vm.c:230-254 | consecutive writes are one write |
| VmUser.RoundTrip | kernel/vm.c:230-277 | copyout then copyin gives the same bytes, across pages |
| VmUser.NoString | kernel/vm.c:280-308 | if the bytes read have no NUL and no more may be read, there is no string |
| Vm.CopyToNul | kernel/vm.c:292-302 | copies through the first NUL, or all n bytes if there is none |
| Vm.ChainPush | kernel/kalloc.c:46-63 | linking a page in at the head adds it to the free list and to nothing else |
| Vm.ChainTail | kernel/kalloc.c:68-82 | unlinking the head leaves the rest of the list |
| Vm.Memory.Kfree | kernel/kalloc.c:46-63 | the page goes to the head of the list; panics exactly outside memory or off a page boundary |
| Vm.Memory.Kalloc | kernel/kalloc.c:68-82 | the page freed last, in no other use; 0 exactly if there is none |
| Vm.Memory.Freerange | kernel/kalloc.c:33-40 | exactly the whole pages of the range go on the list |
| Vm.Memory.Kinit | kernel/kalloc.c:26-31 | every page after the kernel and below PHYSTOP is free |
| Vm.Memory.Walk | kernel/vm.c:73-92 | finds the leaf entry of va if its table exists or can be made; no mapping changes, also when memory runs out; panics exactly from MAXVA on |
| Vm.Memory.MapPages | kernel/vm.c:109-137 | the first `done` pages are mapped and nothing else changes; panics exactly on bad arguments, MAXVA or a page already mapped; fails only when memory has run out |
| Vm.Memory.UvmUnmap | kernel/vm.c:171-187 | exactly the pages of the range are unmapped, and their frames freed if asked; panics exactly on misalignment or at MAXVA |
| Vm.Memory.UvmCreate | kernel/vm.c:140-149 | a new empty address space, or 0 exactly if there is no memory |
| Vm.Memory.UvmAlloc | kernel/vm.c:190-215 | zeroed pages from oldsz to newsz, each with its own frame and the permissions asked for, or every frame given back |
| Vm.Memory.UvmDealloc | kernel/vm.c:218-227 | exactly the pages above newsz are unmapped and freed |
| Vm.Memory.UvmCopy | kernel/vm.c:344-372 | every mapped page below sz has a copy with the same bytes and flags in a frame of its own, or every frame is given back |
| Vm.Memory.FreeWalk | kernel/vm.c:311-324 | every table of the tree goes on the free list once; the panic on a leaf is not reached |
| Vm.Memory.UvmFree | kernel/vm.c:326-332 | every page of the address space, frames and tables, is free, and all else is as before |
| Vm.Memory.UvmClear | kernel/vm.c:334-341 | the page loses its user bit and nothing else changes |
| Vm.Memory.ProcPagetable | kernel/proc.c:598-618 | a page table with trampoline and trapframe and nothing else, or 0 with every page given back |
| Vm.Memory.ProcFreePagetable | kernel/proc.c:620-626 | every page of the address space is freed exactly once, without reaching a panic |
| Vm.Memory.WalkAddr | kernel/vm.c:95-106 | the frame's address exactly for user-accessible pages, else 0 |
| Vm.Memory.CopyOut | kernel/vm.c:230-254 | writes the bytes up to the first page that cannot be written, and no other byte |
| Vm.Memory.CopyIn | kernel/vm.c:257-277 | reads the bytes up to the first that cannot be read |
| Vm.Memory.CopyInStr | kernel/vm.c:280-308 | succeeds exactly if a string with its NUL can be read within max bytes; copies that string, never more than max |
| SchedInvariant.HoldsIt | kernel/spinlock.c:80-86 | a thread that holds a lock, also one handed to it across a switch, passes holding() on the CPU it is on |
| SchedInvariant.HoldingIsHeld | kernel/spinlock.c:80-86 | holding() is true exactly of the locks the thread holds |
| SchedInvariant.SchedChecks | kernel/proc.c:855-872 | all four checks of sched hold when it is called |
| SchedInvariant.SwitchOutInv | kernel/proc.c:855-872 | the switch to the scheduler, with p->lock held across it, keeps the invariant |
| SchedInvariant.SwitchInInv | kernel/proc.c:834-853 | the switch to a process, on whatever CPU, keeps the invariant |
| SchedInvariant.StepInv | kernel/proc.c:834-928 | every step of every thread passes the checks the code makes and keeps the invariant |
| SchedTheorems.RunInv | kernel/proc.c:834-928 | the invariant holds in every state of every run |
| SchedTheorems.NoPanic | kernel/spinlock.c:21-116 | no check of acquire, release, push_off, pop_off or sched fails in any run |
| SchedTheorems.HandOff | kernel/proc.c:834-872 | with p->lock free, p is RUNNING if and only if some CPU has it as its process, and no two CPUs do |
| SchedTheorems.OwnBit | kernel/spinlock.c:92-116 | noff is the number of outstanding push_offs, and a process finds the interrupt bit of its outermost one wherever it runs |
| SchedTheorems.BaseKept | kernel/spinlock.c:92-103 | that bit is recorded only at the outermost push_off |
| SchedTheorems.PastRelease | kernel/proc.c:902-915 | whoever gets lk after sleep(chan, lk) was called finds the caller already marked or past it |
| SchedTheorems.FoundAndWoken | kernel/proc.c:917-928 | a sleeper on chan when wakeup starts is no longer asleep when it returns |
| SchedTheorems.NoLostWakeup | kernel/proc.c:902-928 | for every interleaving, a wakeup(chan) by a thread that acquired lk after sleep(chan, lk) was called leaves that sleep woken |
| SchedTheorems.WakesAll | kernel/proc.c:902-928 | sleep and wakeup act as single steps: with lk free every sleeper on it is past its release of lk, and a wakeup by a thread that acquired lk leaves none of them asleep |
| WaitProtocol.StepInv | kernel/proc.c:731-832 | every step of fork, exit and wait keeps the invariant |
| WaitProtocol.LeadsToInit | kernel/proc.c:763-772 | parent links lead to initproc |
| WaitProtocol.AtRest | kernel/proc.c:763-832 | with wait_lock free, no parent is UNUSED or a ZOMBIE, links lead to initproc, and nobody sleeps in kwait with a ZOMBIE child |
| WaitProtocol.ReapedOnce | kernel/proc.c:796-832 | each exited child is reaped at most once, by its parent at that time |
| SleepLock.StepInv | kernel/sleeplock.c:21-51 | every step of every process keeps the invariant of the lock |
| SleepLock.MutualExclusion | kernel/sleeplock.c:21-51 | in every run at most one process has the lock, holdingsleep tells whether the caller does, and nobody sleeps on a free lock |
| Heap.InsertInv | user/umalloc.c:32-47 | putting a block back keeps the list ordered and coalesced and the heap tiled |
| Heap.TrimInv | user/umalloc.c:48-53 | giving back the top touches no live block |
| Heap.Released | user/umalloc.c:24-54 | free removes exactly that block from the live ones; all others keep place and size |
| Heap.ReleasedAt | user/umalloc.c:24-54 | the result does not depend on where the search started |
| Heap.TakeInv | user/umalloc.c:95-107 | malloc's block is new, has the size asked for, and overlaps nothing |
| HeapGrowth.GrowIsFree | user/umalloc.c:56-80 | growing the heap is freeing the new block; it keeps the invariant and all live blocks |
| HeapGrowth.GrowSizes | user/umalloc.c:56-80 | growth changes the top free block only |
| HeapGrowth.TwoGrowths | user/umalloc.c:82-112 | below 768 units two growths are enough |
| HeapGrowth.StuckForever | user/umalloc.c:82-112 | a request whose growth is trimmed away each time is never met |
| HeapGrowth.SearchEnds | user/umalloc.c:82-112 | exactly when malloc's loop ends |
| HeapGrowth.FirstTooLarge | user/umalloc.c:82-112 | a program whose first request is for 1024 units or more loops for ever |
| HeapGrowth.FirstGivenBack | user/umalloc.c:48-53 | with 256 units free at the top a request for 768 is never met and one for 767 is |
| Umalloc.ChainSplice | user/umalloc.c:32-46 | the pointers still run round the ring when those of the changed places are right |
| Umalloc.StoredIsInsert | user/umalloc.c:32-47 | free's stores to the headers are the insertion into the ring |
| Umalloc.Scan | user/umalloc.c:93-111 | finds the first block large enough after freep, or passes every block once |
| Umalloc.Allocator.Place | user/umalloc.c:28-31 | from anywhere on the ring the search ends at the block's place in address order |
| Umalloc.Allocator.Link | user/umalloc.c:28-47 | the headers refine the heap with the block put back |
| Umalloc.Allocator.Free | user/umalloc.c:24-54 | free on headers refines Released |
| Umalloc.Allocator.AddHeaptop | user/umalloc.c:56-80 | growth refines Grow; a refused growth changes nothing |
| Umalloc.Allocator.TakeFirst | user/umalloc.c:93-107 | takes the first block that fits, going round from the block after freep, or nothing fits |
| Umalloc.Allocator.Malloc | user/umalloc.c:82-112 | a new block of the size asked for, all live blocks as before; null only if the kernel refused and nothing fits; at most two growths below 768 units |
| Umalloc.NeverMet | user/umalloc.c:82-112 | one malloc and one free reach a heap in which 768 units are searched for for ever |
| VirtioInvariant.Pigeons | kernel/virtio_disk.c:271-277 | fewer than NUM requests are in a ring when one more is offered |
| VirtioInvariant.StepInv | kernel/virtio_disk.c:215-327 | every step of driver and device finds what it needs and keeps the invariant |
| VirtioInvariant.RingSafety | kernel/virtio_disk.c:215-327 | in every run requests in flight have disjoint descriptors, and neither ring overwrites an entry before it is consumed, across wrap-around |
| VirtioInvariant.CompletionClears | kernel/virtio_disk.c:294-327 | a completion clears the flag of exactly the buffer whose request was returned |
| VirtioInvariant.FinishFreesThree | kernel/virtio_disk.c:169-197 | free_chain frees exactly the request's three descriptors, and by then disk and buffer hold what was to be transferred |
| VirtioCode.Disk.AllocDesc | kernel/virtio_disk.c:156-166 | the first free descriptor, no longer free, or -1 exactly if there is none |
| VirtioCode.Disk.FreeDesc | kernel/virtio_disk.c:169-182 | frees and clears it; panics exactly out of range or if it is free |
| VirtioCode.Disk.FreeChain | kernel/virtio_disk.c:185-197 | follows the chain and frees exactly its three descriptors |
| VirtioCode.Disk.Alloc3Desc | kernel/virtio_disk.c:201-213 | three descriptors, exactly if three are free; otherwise none are taken |

## Left out

- kernel/file.c, kernel/pipe.c, kernel/sysfile.c: not part of the build (`Makefile:4-28`).
- kernel/exec.c, kernel/trap.c, kernel/start.c, kernel/main.c, kernel/plic.c, assembly: loading, registers and boot; a context switch is a change of thread on one CPU.
- kernel/console.c, kernel/uart.c, kernel/printf.c, kernel/string.c and the user programs: would only add easier members; memmove, memset and strncpy are used by what they do, and strncmp is `DirNames.NameCmp`.
- kernel/sysproc.c: system call stubs; `blocktest`, which writes a block outside the log, is no client of the cache invariant.
- Memory ordering: everything is sequentially consistent, and fences are left out; disk writes are atomic, durable and in order.
- One device with a nonzero number is assumed; log_write compares only block numbers.
- LogCode.Log.Commit: works on a cache that returns the last value written, which LogTheorems.Coherence proves of the machine; locks and sleeping are in the machine only.
- FsCode.FileSystem: blocks are read and written as the current transaction sees them, so that the disk of ownership on disk is the one the transaction commits; the place of an inode on disk (IBLOCK, IPB) is left out.
- FsCode.FileSystem.Readi: copies that fail on a bad user address are left out, as in writei; the inode is one that ilock has found a type in.
- MkfsCode.Image.Iappend: requires that the image has the blocks the new size calls for, which mkfs does not check.
- MkfsCode.Image.Balloc: one bitmap block, as mkfs itself asserts.
- InodeCode.Itable.Ilock: the inode number is below the number of inodes, which neither iget nor ilock checks.
- LogImage.Survives: the property is any predicate on disk contents; decoding ownership of blocks from the bytes of inode and bitmap blocks is left out, so that a group keeps it is the hypothesis.
- InodeCode.Itable.Namex: runs alone; that a directory with links names only inodes that are allocated and linked is a condition on the state. Directories are not changed meanwhile.
- DirCode.Dirlink: the reference that dirlookup takes to an entry found, and drops again, is left out.
- InodeTable.TableSafety: that a directory names only allocated inodes with links is a condition on iget's callers, and so is that ilock is called with a reference.
- Vm.Memory: pages are named by their numbers, and the bytes of page tables are their entries; user frames are mapped at one place each below the trapframe, which is how the kernel uses mappages.
- Vm.Memory.MapPages: permissions are below 1024; kvmmake, kvmmap, uvmfirst and growproc are left out.
- Vm.Memory.Kfree: a page in memory that is given back is one that is in no use, as its callers see to.
- Vm.Memory.UvmUnmap: frames are freed exactly where the address space owns them, which is how its callers pass do_free.
- Vm.Memory.UvmAlloc: nothing is mapped yet where it grows, and it stays below the trapframe, as its callers see to.
- Vm.Memory.UvmFree: requires that nothing is mapped at or above sz, as its callers see to.
- Umalloc.Allocator.Malloc: sizes are unbounded; the truncation of a request of 2^27 units or more to 32 bits is left out. Only this allocator moves the break.
- SchedMachine: the callers' duties are part of a step's condition: sleep is called with exactly lk held, exit with wait_lock, wakeup with interrupts off, and handlers do not nest.
- WaitMachine: sleeping and waking in kwait are single steps, justified by SchedTheorems.WakesAll; pids, file descriptors, prompt wakeup after kkill and the memory of the process are left out.
- SleepLock: sleeping and waking are single steps for the same reason; releasesleep is called by the holder.
- VirtioMachine: initialisation and the device's error status are left out; a block's contents are one value; requests in flight are for different buffers and blocks, as the cache sees to.
