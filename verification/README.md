# xv6-riscv in Dafny

A model of the hard parts of the xv6-riscv kernel and of three of its user programs, with proofs:

- **The crash-safe file system.** `LogFormat` is the on-disk redo log as a sequence of block writes, cut short at
  any point. `Log` is the code of log.c over an array and a disk, proved to issue exactly those writes.
  `LogAdmission` is begin_op/end_op/log_write over every interleaving of operations. `LogSystem` puts the buffer
  cache, the log and the disk together as one transition system, and `LogRace` says for which sizes of
  the log region and the cache it is safe. `Bio` is the linked LRU ring. `FsLayout`,
  `FsOwnership` and `FsContents` say what a well-formed file system is, `FsSpace` how many blocks a write needs, `Fs` and `File` are the code of fs.c and
  filewrite over it, and `MkFs` builds the image it starts from.
- **Processes and pipes.** `Proc` is fork, exit, wait, sleep, wakeup, kill and the scheduler over any number of
  processes and CPUs, one step between two lock operations. `Pipe` is the ring and the code that moves bytes;
  `PipeSystem` is readers, writers and closers interleaved, with sleep and wakeup taken apart, and `PipeCalls` says
  what each call has moved.
- **Virtual memory.** `VmTree` is the Sv39 tree (section 4.4 of the RISC-V Privileged Architecture, version 1.11)
  against a flat map from page to entry; `Vm`, `VmUser`, `VmFork` and `VmCopy` are the code over a heap of pages.
- **The heap allocator** of umalloc.c (`Umalloc`), over a map of header words.
- **The virtio disk** (sections 2.6 and 5.2 of VIRTIO 1.1): `Virtio` is the descriptor table, `VirtioSystem` the
  driver, device and interrupt handler interleaved.
- **Parsers and formats.** `Sh`, `ShParser`, `ShRoundTrip` and `ShGrammar` are the shell's parser, its loops, its
  printer, and the grammar it parses;
  `Checksum` and `Net` the Internet checksum (RFC 1071) and the IP and UDP paths (RFC 791, RFC 768); `Grep` the
  matcher and the line loop.

`Machine` holds bytes, words, blocks and the constants of param.h and fs.h. Integers are unbounded; 16-bit and
32-bit wrap-around is written out where the code relies on it (pipe counters, virtio indices, checksum
accumulator, directory and inode fields). One block write is atomic, and a crash is any prefix of the writes
followed by the loss of memory. Locks exclude each other; a step of a transition system is what a thread does
between two lock operations. I/O, interrupts, `sbrk`, user copies that fail and the choice of the next thread are
parameters or steps.

Where the code does less than a reader may expect, the model keeps the code and the project says exactly when
the expectation holds:

- log_write tests for room before it takes log.lock. The log header has room in every run all the same
  (`LogSystem.HeaderFits`), but in a log region of LOGSIZE blocks, as mkfs makes it, racing operations can list one
  block more than it has slots (`LogRace.ListFitsRegionIff`). Whether that harms the file system depends on the
  buffers. With no more of them than the region has blocks, write_log finds none for its first slot and bget
  panics before anything is written (`LogSystem.SlotNeedsBuffer`); with one more, the last slot goes over a home
  block (`LogRace.Overwrite`). So the file system is safe in every run exactly when the region is larger than
  LOGSIZE, or has at least as many blocks as there are buffers, or is too small to log anything
  (`LogRace.SafeIff`). Below this is called a roomy log. The kernel's is roomy: NBUF and nlog are both LOGSIZE.
- An operation within its budget never meets log_write's panic on a new block exactly when the region is larger
  than LOGSIZE (`LogAdmission.NeverTooBig`). On a block that is listed already it does meet it, in any region,
  because the test comes before absorption (`LogAdmission.RelogPanics`); in a large region exactly when all budgets
  are spent (`LogAdmission.PanicsWhenFull`).
- A commit needs a buffer for the log slot besides those it has pinned. There is one exactly when the transaction
  has fewer blocks than the cache has buffers, and NBUF is LOGSIZE (`LogSystem.CommitFindsBuffer`).
- The root directory that mkfs rounds up has a hole exactly when its size before rounding is a multiple of the
  block size (`MkFs.RoundedRoot`, `MkFs.MkFs.Build`), as it is with 62 files (`MkFs.HoleyImage`).
- A reader can sleep with data waiting if a writer is killed between storing a byte and the end of its loop while a
  reader waits (`PipeSystem.BadKillLosesWakeup`, `PipeSystem.LostWakeup`); in runs without such a kill it cannot
  (`PipeSystem.NoSleepingReader`).
- init can sleep in wait() with an exited child: when reparent gives it one that has exited, or when one that was
  given to it in the middle of exit() exits, after init has looked at it (`Proc.InitMissesGift`,
  `Proc.InitMissesExit`, `Proc.InitSleepsOnZombie`). In runs without such a step it cannot
  (`Proc.NoZombieIfTimely`), and no other process ever can (`Proc.NoZombieWhileWaiting`).
- in_cksum is exact for all buffers of n words exactly when n is at most 65537 (`Checksum.ExactIff`).
- grep prints all matching lines exactly when every finished line fits its buffer and holds no NUL
  (`Grep.CompleteIff`); otherwise it stops at the first line that does not (`Grep.Grep`).

## Model

| member | source | states |
|---|---|---|
| LogFormat.CommitPasses | kernel/log.c:194-203 | a commit writes the log slots, then the header, then the home blocks, then the cleared header, in that order |
| LogFormat.RecoverAt | kernel/log.c:117-123 | recovery copies every logged slot to its home block, touches no other home block, and leaves an empty log |
| LogFormat.CommitComplete | kernel/log.c:194-203 | after all its writes the disk holds the whole transaction and an empty log |
| LogFormat.CommitCrashAtomic | kernel/log.c:69-123 | power loss after any prefix of a commit's writes, then recovery, leaves the home blocks all old up to the header write and all new from it on |
| LogFormat.RecoveryPasses | kernel/log.c:117-123 | recovery's writes are the home copies and then the cleared header |
| LogFormat.RecoveryCrashAtomic | kernel/log.c:117-123 | recovery cut short anywhere leaves a log whose recovery gives the same home blocks |
| LogFormat.RebootsPreserve | kernel/log.c:117-123 | any number of recoveries, each cut anywhere, change nothing about what a complete one restores |
| LogFormat.CrashAnywhere | kernel/log.c:69-203 | commit cut anywhere, then any number of cut recoveries, then a complete one: all old or all new, and an empty log |
| Log.Log.constructor | kernel/log.c:55-65 | boot: whatever valid log the last run left is recovered, by exactly the writes of the abstract recovery, and no transaction is open |
| Log.Log.ReadHead | kernel/log.c:87-97 | the in-memory block list is the one the header on disk names |
| Log.Log.WriteHead | kernel/log.c:103-114 | one write: the header that names the current blocks |
| Log.Log.WriteLog | kernel/log.c:179-191 | issues exactly the slot writes, with the cached contents |
| Log.Log.InstallTrans | kernel/log.c:69-83 | issues exactly the home writes, with what the slots hold, and unpins unless recovering |
| Log.Log.Commit | kernel/log.c:194-203 | issues exactly the writes of the abstract commit, the ones proved crash-atomic, and leaves the home blocks updated and the log empty; nothing for an empty transaction |
| Log.Log.RecoverFromLog | kernel/log.c:117-123 | issues exactly the writes of the abstract recovery and leaves its result |
| Log.Log.LogWrite | kernel/log.c:215-235 | panics exactly when the log is full or no operation is open; otherwise each block is listed once and its contents are the last logged |
| Log.Log.BeginOp | kernel/log.c:127-142 | waits exactly when committing or when MAXOPBLOCKS per open operation might not fit |
| Log.Log.EndOp | kernel/log.c:147-175 | the last operation out commits everything logged since the previous commit; an earlier one writes nothing |
| LogAdmission.InvStep | kernel/log.c:127-235 | every step, log_write being a test and later an append, keeps logged blocks plus unspent reservations within LOGSIZE, and no operation open during a commit |
| LogAdmission.ReservationsHold | kernel/log.c:127-235 | the same over every run |
| LogAdmission.IndexInBounds | kernel/log.c:222-232 | in every run, for every size of the log region, a new block is entered inside the header's array, although the test was made before the lock |
| LogAdmission.NeverTooBig | kernel/log.c:214-220 | no operation within its budget meets the panic on a block that is not listed yet, in any run, if and only if the log region is larger than LOGSIZE |
| LogAdmission.PanicsWhenFull | kernel/log.c:214-220 | in a region larger than LOGSIZE the panic on any block, listed or not, comes exactly when LOGSIZE blocks are logged, and then every operation has spent its budget |
| LogAdmission.RelogPanics | kernel/log.c:214-232 | whatever the size of the region, some run panics on logging again a block that is listed already |
| LogAdmission.SlotsFitIff | kernel/log.c:214-220 | every run lists fewer blocks than the log region has if and only if the region is larger than LOGSIZE, or too small for any transaction |
| LogSystem.StepKeeps | kernel/bio.c:58-151 | with a roomy log, every step of cache, log and disk together keeps the invariant that the disk, the log and the pinned buffers spell one logical disk |
| LogSystem.DiskCurrent | kernel/log.c:69-83 | a block that is not pinned has its current contents on disk |
| LogSystem.CrashRestoresCommitted | kernel/log.c:69-203 | with a roomy log, at every point of every run a crash and any sequence of recoveries restore exactly the committed disk |
| LogSystem.CommittedIsQuiescent | kernel/log.c:147-175 | with a roomy log, the committed disk is the logical disk of an earlier moment with no operation open, so no operation is ever half restored |
| LogSystem.CommitPoint | kernel/log.c:194-203 | the header write is the one step that moves the committed disk, and it moves it to the logical disk |
| LogSystem.DurableAtFinish | kernel/log.c:147-175 | when a commit finishes, everything logged is committed |
| LogSystem.BreadReturnsLastLogged | kernel/bio.c:93-103 | with a roomy log, a locked, filled buffer of a caller that logs its changes holds the last logged contents of its block |
| LogSystem.HomeUntouchedBeforeCommit | kernel/log.c:214-235 | with a roomy log, no home block changes on disk before the header write of its commit |
| LogSystem.PinsBalance | kernel/bio.c:139-151 | with a roomy log, a buffer of a logged block is never free to recycle, and with no transaction and no holder every reference count is zero |
| LogSystem.NoUnderflow | kernel/bio.c:116-151 | with a roomy log, brelse and bunpin never take a count below zero, and once a commit has written anything its slots are inside the region |
| LogSystem.HeaderFits | kernel/log.c:127-235 | in every run, for every size of the log region, at most LOGSIZE blocks are listed, and nobody is inside log_write during a commit |
| LogSystem.SlotNeedsBuffer | kernel/log.c:179-191 | a commit writes its first slot only if it has fewer blocks than there are buffers, so a transaction as large as the cache writes nothing |
| LogSystem.CommitFindsBuffer | kernel/param.h:9-11 | with a roomy log, when a commit starts and nobody holds a buffer, bget finds one for the log slot if and only if the transaction has fewer blocks than the cache has buffers |
| LogRace.Overrun | kernel/log.c:214-235 | for every region of 2 to LOGSIZE blocks and at least as many buffers, a run of the whole system in which operations within their budgets list as many blocks as the region has |
| LogRace.ListFitsRegionIff | kernel/log.c:127-235 | every run of the whole system lists fewer blocks than the region has if and only if the region is larger than LOGSIZE, or too small for any transaction |
| LogRace.Overwrite | kernel/log.c:147-191 | with such a region and one more buffer, the run goes on through end_op and every slot write to a disk that has lost a committed home block, which recovery does not bring back |
| LogRace.SafeIff | kernel/log.c:55-235 | home blocks stay as committed until the header write, and a crash brings back the committed file system, in every state of every run, if and only if the log is roomy |
| Bio.Unlinks | kernel/bio.c:117-137 | the two pointer writes take one buffer out of the ring and leave the others in order |
| Bio.PushesFront | kernel/bio.c:117-137 | the four pointer writes put a buffer at the front of the ring |
| Bio.Requeues | kernel/bio.c:117-137 | both together move a buffer to the front, and change nothing but links |
| Bio.ReferencedKeepsOrder | kernel/bio.c:59-89 | taking a buffer keeps the ring and its order by idle time |
| Bio.MovedToFront | kernel/bio.c:117-137 | a buffer released last goes to the front of the order by idle time |
| Bio.Bcache.constructor | kernel/bio.c:37-53 | one ring of all buffers, all unreferenced, in block 0 of device 0 |
| Bio.Bcache.Lookup | kernel/bio.c:65-73 | finds the cached buffer of a block or shows there is none |
| Bio.Bcache.Victim | kernel/bio.c:75-87 | the unreferenced buffer whose count reached zero longest ago, or none when all are referenced |
| Bio.Bcache.Bget | kernel/bio.c:59-89 | the cached buffer with its contents, or the longest idle one with its contents dropped, or panic; at most one buffer per block, all others untouched |
| Bio.Bcache.Brelse | kernel/bio.c:117-137 | one reference less; the last one moves the buffer to the front of the ring |
| Bio.Bcache.Bpin | kernel/bio.c:140-144 | one reference more, nothing else |
| Bio.Bcache.Bunpin | kernel/bio.c:147-151 | one reference less, nothing else; the order by idle time survives while another is held |
| FsLayout.PutBitAt | kernel/fs.c:74-76 | setting or clearing one bit of a byte leaves every other bit |
| FsLayout.MarkUsed | kernel/fs.c:65-103 | marking one block in the bitmap changes the state of that block only |
| FsOwnership.NoSharing | kernel/fs.c:378-405 | no block is in two inodes or at two positions |
| FsOwnership.AllocKeeps | kernel/fs.c:65-86 | a block with a clear bit is owned by nobody, and taking it keeps the bitmap exact |
| FsOwnership.FreeKeeps | kernel/fs.c:90-103 | giving back a disowned block finds its bit set and keeps the bitmap exact |
| FsOwnership.AttachAddrKeeps | kernel/fs.c:383-393 | storing an allocated block in addrs keeps ownership |
| FsOwnership.AttachEntryKeeps | kernel/fs.c:394-401 | storing an allocated block in the indirect table keeps ownership |
| FsOwnership.DetachAddrKeeps | kernel/fs.c:416-421 | clearing an address disowns exactly its block |
| FsOwnership.DetachIndirectKeeps | kernel/fs.c:423-433 | clearing the indirect address disowns exactly the table and what it lists |
| FsOwnership.UnusedCount | kernel/fs.c:65-86 | the free blocks number exactly what metadata and files leave, and balloc fails exactly when that is none |
| FsSpace.GotIff | kernel/fs.c:378-405 | allocations that fail only on a full disk all succeed if and only if there was a free block for each position that was empty |
| FsSpace.LacksCount | kernel/fs.c:378-405 | those positions, counted over the owners, are the missing data blocks of the range and the indirect block if it is missing and needed |
| FsSpace.LacksAtMost | kernel/fs.c:378-405 | at most one for each block spanned and one more |
| FsSpace.FilledIff | kernel/fs.c:487-517 | the same for a range of bytes: its blocks could all be had if and only if as many blocks were free as it lacks |
| FsContents.DataBlockWrite | kernel/fs.c:487-517 | writing a data block changes those bytes of that file, and no byte of any other |
| FsContents.PutDinodeAt | kernel/fs.c:222-237 | storing one inode in its block keeps the others of the block |
| FsContents.IupdateSyncs | kernel/fs.c:222-237 | after iupdate the on-disk inode is the in-memory one, and the others are as they were |
| FsContents.ContentsOverwritten | kernel/fs.c:487-517 | the bytes written and the size rule amount to replacing that stretch of the contents |
| FsContents.WriteContents | kernel/fs.c:487-517 | the contents after a full write and the prefix kept by a short one |
| FsContents.TruncOthers | kernel/fs.c:410-437 | freeing one file's blocks leaves every other file's contents |
| FsContents.CountTotal | kernel/fs.c:487-517 | the blocks one write touches are at most two per block spanned and two more, one fewer if it starts inside a block |
| FsContents.OverwriteTwice | kernel/file.c:168-185 | two adjoining overwrites are one |
| FsContents.ReadTurn | kernel/fs.c:466-476 | the bytes copied from one block are the contents at that offset |
| Fs.Fs.FirstFree | kernel/fs.c:71-75 | the lowest clear bit below size, or none |
| Fs.Fs.Balloc | kernel/fs.c:65-86 | takes the lowest free block, zeroed and marked, and fails only when every bit is set; logs its bitmap block and itself |
| Fs.Fs.Bfree | kernel/fs.c:90-103 | panics exactly on a free block, else clears its bit only |
| Fs.Fs.MapAddr | kernel/fs.c:383-393 | a block in addrs, found or allocated, its position and no other filled; no byte of any file changes; fails only when every block is in use; every block it changes is logged |
| Fs.Fs.MapEntry | kernel/fs.c:396-401 | the same for an entry of the indirect table; every block it changes is logged |
| Fs.Fs.MapIndirect | kernel/fs.c:390-403 | the same for table and entry together; every block it changes is logged |
| Fs.Fs.Bmap | kernel/fs.c:378-405 | the block of that position; a mapped one costs nothing, and otherwise exactly the missing positions are filled, the contents of every file stay and ownership holds; fails exactly beyond MAXFILE or when fewer blocks are free than are missing; every block it changes is logged |
| Fs.Fs.WriteChunk | kernel/fs.c:497-506 | one turn changes only its stretch of that file, to the given bytes; every block it changes is logged, but for one whose new bytes could not be copied |
| Fs.Fs.WriteLoop | kernel/fs.c:497-506 | all turns together: how far they got, how many blocks they logged, and that exactly the blocks of the bytes they got to are there; fails only on a full disk; every block it changes is logged, but for one whose new bytes could not be copied |
| Fs.Fs.Iupdate | kernel/fs.c:222-237 | the inode reaches the disk; no contents change; exactly its block changes, and is logged |
| Fs.Fs.Writei | kernel/fs.c:487-517 | a full write turns contents c into c[..off] + data + c[off+n..]; a short one keeps the prefix it reports; -1 exactly when off or the end is out of range; no other file changes; the bound on logged blocks; balloc panics exactly when fewer blocks were free than the bytes it gets to lack; every block it changes is logged, but for one whose new bytes could not be copied |
| Fs.Fs.FreeDirect | kernel/fs.c:416-421 | the direct blocks and nothing else go back to the bitmap, without panic; every block it changes is logged |
| Fs.Fs.FreeIndirect | kernel/fs.c:423-433 | the listed blocks and the table go back, without panic; every block it changes is logged |
| Fs.Fs.Itrunc | kernel/fs.c:410-437 | the file is empty, exactly its blocks are free again, no panic, and every other file is as it was; every block it changes is logged |
| Fs.Fs.ReadLoop | kernel/fs.c:466-476 | the bytes of the contents in order; nothing is allocated |
| Fs.Fs.Readi | kernel/fs.c:456-477 | the bytes of the contents from off, as many as were asked for or are left, whichever is less; -1 exactly when the destination fails before that; the file system is unchanged |
| Fs.Fs.Iput | kernel/fs.c:333-358 | one reference less; the last one to a valid, unlinked inode frees its blocks, its type and the cached copy, and any other changes nothing; every block it changes is logged |
| File.ChunkFitsTransaction | kernel/file.c:160-166 | any chunk filewrite cuts, at any offset, stays within MAXOPBLOCKS blocks |
| File.ChunkIsLargest | kernel/file.c:160-166 | the chunk size cannot be raised by one byte: the count meets MAXOPBLOCKS exactly, and passes it for a longer chunk |
| File.WriteTransaction | kernel/file.c:169-178 | one chunk between begin_op and end_op logs at most MAXOPBLOCKS blocks and writes what writei does; every other file as it was; fails exactly for lack of free blocks; every block changed since begin_op is in the transaction, but for one whose new bytes could not be copied |
| File.FileWrite | kernel/file.c:146-198 | all chunks together overwrite the file at f->off with the source, or keep a prefix of it; the length is returned exactly when it is 0 or the source is readable and the range fits, and -1 otherwise; every other file as it was; every transaction within MAXOPBLOCKS; balloc panics exactly when fewer blocks were free than the bytes the chunks get to lack; every block that changed is in one of the transactions, with the same exception |
| MkFs.FirstBitsAt | mkfs/mkfs.c:246-259 | balloc's bitmap has exactly the first n bits set |
| MkFs.PictureUsed | mkfs/mkfs.c:246-259 | with that bitmap a block is used exactly when it is below freeblock |
| MkFs.PictureAlloc | mkfs/mkfs.c:264-305 | counting freeblock up is the kernel's balloc on the image with that bitmap |
| MkFs.RoundedRoot | mkfs/mkfs.c:166-173 | rounding the root's size up leaves it without holes if and only if the size was not a multiple of the block size |
| MkFs.FrontIsClean | mkfs/mkfs.c:110-116 | with the superblock in block 1 and zero blocks after it, the kernel's recovery finds an empty log where the superblock says |
| MkFs.SuperSays | mkfs/mkfs.c:93-103 | the superblock has the magic number and says where log, inodes and bitmap are and how large |
| MkFs.RootEntry | mkfs/mkfs.c:118-158 | read as directory entries, the root names itself as . and .. and then each file with its inode number |
| MkFs.MkFs.constructor | mkfs/mkfs.c:93-116 | zero blocks but for the superblock, an empty log, no inodes, and freeblock at the end of the metadata |
| MkFs.MkFs.MapAddr | mkfs/mkfs.c:279-287 | an entry of addrs gets the next free block if it had none; fails exactly when it had none and none is left |
| MkFs.MkFs.MapEntry | mkfs/mkfs.c:288-293 | the same for an entry of the indirect block |
| MkFs.MkFs.MapBlock | mkfs/mkfs.c:277-294 | the block of a position, direct or indirect, and how many blocks it took; fails exactly when those do not fit or the position is beyond MAXFILE |
| MkFs.MkFs.Rinode | mkfs/mkfs.c:206-216 | reads back the inode last written |
| MkFs.MkFs.Winode | mkfs/mkfs.c:192-203 | that inode is on disk, no other changes, no contents change |
| MkFs.MkFs.Ialloc | mkfs/mkfs.c:232-243 | a new empty inode with the next number; every other file as it was |
| MkFs.MkFs.AppendLoop | mkfs/mkfs.c:274-301 | all turns together; fails exactly when the blocks the new bytes need do not fit |
| MkFs.MkFs.Append | mkfs/mkfs.c:264-305 | the file's contents grow by exactly the data, across the direct and indirect blocks, and freeblock by exactly the blocks needed; every other file as it was; fails exactly when they do not fit |
| MkFs.MkFs.BitmapOf | mkfs/mkfs.c:246-259 | the bitmap block with the first bits set |
| MkFs.MkFs.Copy | mkfs/mkfs.c:160-161 | a file read in pieces of any size is stored whole, on as many blocks as if in one piece; fails exactly when they do not fit |
| MkFs.MkFs.MakeRoot | mkfs/mkfs.c:118-129 | the root directory with its two entries |
| MkFs.MkFs.AddFile | mkfs/mkfs.c:131-164 | one more file stored and named in the root, exactly when inodes and blocks for it are left |
| MkFs.MkFs.RoundRoot | mkfs/mkfs.c:166-171 | the rounded root keeps its entries; no file changes |
| MkFs.MkFs.Build | mkfs/mkfs.c:68-176 | succeeds exactly when the files fit; then the image satisfies the kernel's ownership invariant, holds every file and its entry, the superblock and an empty log, uses exactly the blocks counted, and has no holes if and only if the root's size is not a multiple of the block size |
| MkFs.HoleyImage | mkfs/mkfs.c:166-171 | 62 empty files make an image with a hole |
| Pipe.LenCases | kernel/pipe.c:77-130 | with counters that wrap at 32 bits, the full and empty tests are exact |
| Pipe.StoreAppends | kernel/pipe.c:95 | a store with room appends to the queue |
| Pipe.RemoveTakesFirst | kernel/pipe.c:123 | a removal takes the queue's first byte |
| Pipe.Pipe.constructor | kernel/pipe.c:23-56 | an empty pipe, both ends open |
| Pipe.Pipe.WriteTurn | kernel/pipe.c:83-98 | the queue grows by exactly the bytes taken from the source, and why it stopped |
| Pipe.Pipe.ReadTurn | kernel/pipe.c:120-126 | returns the front of the queue, as much as asked, there and writable; a failed copyout loses one byte |
| PipeSystem.ActFifo | kernel/pipe.c:77-130 | each step of a reader, writer or closer keeps what was removed a prefix of what was stored |
| PipeSystem.ActOk | kernel/pipe.c:77-130 | and keeps what that thread knows at its place in the code |
| PipeSystem.ActWakes | kernel/proc.c:563-608 | a step that gives a sleeper a reason to wake stays committed to waking it |
| PipeSystem.StepKeeps | kernel/pipe.c:59-130 | every step of every thread keeps the invariant of the whole pipe |
| PipeSystem.InOrder | kernel/pipe.c:59-130 | in every run the bytes removed are in order a prefix of those stored, and at most PIPESIZE are inside |
| PipeSystem.NoSleepingWriter | kernel/pipe.c:59-130 | in every run, kills included, while pi->lock is free no writer sleeps with room or with the read end closed |
| PipeSystem.NoSleepingReader | kernel/pipe.c:59-130 | in every run without a kill that hits a writer with unannounced bytes while a reader waits, no reader sleeps with data waiting or with the write end closed |
| PipeSystem.BadKillLosesWakeup | kernel/pipe.c:84-87 | after any run, every such kill can leave any waiting reader asleep with data waiting and the lock free |
| PipeSystem.LostWakeup | kernel/pipe.c:84-87 | a run from an empty pipe that ends so |
| PipeCalls.StepKeepsHistory | kernel/pipe.c:77-130 | every step keeps what is recorded of each call: what it has put in or taken out, how far it says it has got, and what it returned |
| PipeCalls.WritesArePrefixes | kernel/pipe.c:77-102 | in every run, kills, faults and sleeps included, what a write call has put into the pipe is the beginning of what it was given, as much as it says, and all of it when it returns unless a byte could not be copied, the read end is closed or it is killed |
| PipeCalls.CallsInOrder | kernel/pipe.c:77-102 | in every run the bytes from one process are in the order of its calls |
| PipeCalls.OneWriter | kernel/pipe.c:77-102 | so with one writer, what went in is what its calls passed, one after the other |
| PipeCalls.ReadsAreStretches | kernel/pipe.c:105-130 | in every run a read call takes out one unbroken stretch and returns how many bytes of it it handed over; fewer than asked for only when it found the pipe empty or a byte could not be copied, and none only with the write end closed |
| PipeCalls.EndsClosed | kernel/pipe.c:58-74 | in every run an end of the pipe is closed only by a call that closes that end, and is closed once such a call has returned |
| Proc.StepKeeps | kernel/proc.c:266-620 | every step of every thread and scheduler keeps the invariant of the process table |
| Proc.OneCpuEach | kernel/proc.c:464-537 | in every run a RUNNING process is on a CPU, and on no other |
| Proc.ParentsLive | kernel/proc.c:313-400 | in every run no process has an exited parent, and every process but init has one |
| Proc.ReapedOnceByParent | kernel/proc.c:405-454 | a process is reaped exactly once per exit, by its parent of that moment, off its CPU, and a slot is freed in no other way |
| Proc.WaitReturns | kernel/proc.c:405-454 | after any run, a thread inside wait(), asleep or not, leaves it only by reaping an exited child, by failing to copy its status out, or at the end of a scan that found no child, or none that had exited while it is killed |
| Proc.SleeperHasChild | kernel/proc.c:440-453 | in every run a process asleep in wait() has a child |
| Proc.ParentChanges | kernel/proc.c:266-454 | after any run, a parent changes only by fork, to the caller, by an exiting parent, to init, or when the slot is reaped; and a slot comes to life only by a fork of its parent |
| Proc.SleeperWakes | kernel/proc.c:563-643 | after any run, a sleeper becomes RUNNABLE exactly by a kill, by a wakeup of its channel, or, in wait(), by the exit of a process that took it for its parent, and init by the start of any exit |
| Proc.SleepsAndKills | kernel/proc.c:563-643 | after any run, a process falls asleep only by its own sleep(), on the channel it names, or in wait(), on itself, and keeps that channel while it sleeps; it becomes killed exactly by a kill and stays so until it is reaped |
| Proc.NoZombieWhileWaiting | kernel/proc.c:340-454 | no process but init sleeps in wait() with an exited child |
| Proc.NoZombieIfTimely | kernel/proc.c:313-454 | nor does init, its lock being free, in runs without a step that leaves it with an exited child it has looked at and wakes another process |
| Proc.InitMissesGift | kernel/proc.c:313-334 | after any run, a child that has exited when reparent gives it to a sleeping init leaves init asleep |
| Proc.InitMissesExit | kernel/proc.c:361-400 | after any run, so does the exit of a child that was given to init after it had read its parent |
| Proc.InitSleepsOnZombie | kernel/proc.c:361-400 | a run from boot that ends so |
| Proc.RunnableIsOff | kernel/proc.c:480-496 | in every run a RUNNABLE process whose lock is free is off its CPU with a context to switch to, which the scheduler does not test |
| Umalloc.Apart | user/umalloc.c:25-90 | two blocks never overlap |
| Umalloc.Conserved | user/umalloc.c:25-90 | every unit obtained is in a free block or in a live one, and no other unit is |
| Umalloc.AbsorbNext | user/umalloc.c:33-35 | merging with the upper neighbour keeps the blocks |
| Umalloc.MergeIntoPrev | user/umalloc.c:38-40 | merging into the lower neighbour keeps the blocks |
| Umalloc.Enlist | user/umalloc.c:36-42 | linking a block that touches neither neighbour keeps the list ordered and coalesced |
| Umalloc.Unlist | user/umalloc.c:76-77 | unlinking a block makes it live |
| Umalloc.SplitOff | user/umalloc.c:78-82 | the tail of a free block becomes live, the rest stays free |
| Umalloc.Grow | user/umalloc.c:47-61 | a fresh region becomes one live block |
| Umalloc.FreeLinks | user/umalloc.c:33-43 | free's pointer writes give the list its new order, in all four cases |
| Umalloc.FreeBlocks | user/umalloc.c:25-44 | free keeps the blocks apart, ordered and coalesced, in all four cases |
| Umalloc.Allocator.constructor | user/umalloc.c:21-22 | nothing obtained yet |
| Umalloc.Allocator.FindPlace | user/umalloc.c:30-32 | the search ends, from wherever freep is, at the greatest list block below the given one |
| Umalloc.Allocator.Free | user/umalloc.c:25-44 | exactly that block stops being live, no unit is lost, the list stays circular, ordered and coalesced, and some free block holds what was given back |
| Umalloc.Allocator.Scan | user/umalloc.c:74-89 | one turn round the list ends: a block that is large enough, or none is |
| Umalloc.Allocator.Take | user/umalloc.c:76-84 | a live block of exactly the size asked for, no unit lost |
| Umalloc.Allocator.Morecore | user/umalloc.c:47-61 | after sbrk succeeds some free block is large enough, even if it merged into freep |
| Umalloc.Allocator.Malloc | user/umalloc.c:64-90 | a new block that holds its header and nbytes with less than a unit to spare, apart from every live one; 0 exactly when nothing fits and sbrk fails; units come only from sbrk, and only when nothing fits |
| VmTree.DistinctSlots | kernel/vm.c:92-109 | two pages never share an entry |
| VmTree.HardwareAgrees | kernel/vm.c:92-109 | for every page, the level-by-level translation of Sv39 finds exactly the valid entry that the flat map gives |
| VmTree.SetLeaf | kernel/vm.c:149-168 | writing one entry changes the translation of that page only |
| VmTree.AddNode | kernel/vm.c:97-107 | hanging a new table page into the tree changes no translation |
| VmTree.PruneTree | kernel/vm.c:278-293 | freeing a subtree and clearing its entry leaves a tree |
| VmTree.AllUnderRoot | kernel/vm.c:278-293 | every table page of the tree is below its root, so freeing the root's subtree frees all |
| Vm.Memory.Kalloc | kernel/kalloc.c:69-82 | a page that was free and no longer is; fails exactly when none is |
| Vm.Memory.Kfree | kernel/kalloc.c:47-63 | exactly that page becomes free |
| Vm.Memory.Descend | kernel/vm.c:97-107 | one level down, allocating if asked, no translation changed |
| Vm.Memory.Walk | kernel/vm.c:92-109 | the entry of the page, no translation changed; allocating, it fails exactly when fewer pages are free than tables are missing, and otherwise exactly without a table |
| Vm.Memory.MapOne | kernel/vm.c:157-161 | maps one page; remap panic exactly when it was mapped, failure exactly when fewer pages are free than tables are missing |
| Vm.Memory.Mappages | kernel/vm.c:149-168 | exactly the pages of the range are mapped, in order, if and only if none was mapped and the free pages cover the tables missing; panics if and only if one was and they cover those before it; otherwise no page is left free and a prefix is mapped |
| Vm.Memory.UnmapOne | kernel/vm.c:183-195 | exactly that page is unmapped, and its memory freed if asked; panics exactly when it was not mapped with some flag besides V |
| Vm.Memory.Uvmunmap | kernel/vm.c:174-197 | exactly the range is unmapped and exactly its pages freed; panics exactly when a page of it was not mapped |
| Vm.Memory.Freewalk | kernel/vm.c:278-293 | ends; each table page of the subtree is freed once, nothing else is touched, no panic on a tree without leaves |
| Vm.Memory.FreeEntry | kernel/vm.c:282-290 | one entry of it |
| VmFill.FilledNext | kernel/vm.c:232-255 | one page more: fresh, unlike the others, with the given bytes and flags |
| VmFill.Undo | kernel/vm.c:262-273 | unmapping what was filled gives back every data page and restores every translation |
| VmFill.PagesAtMost | kernel/vm.c:92-109 | filling n pages takes at most 3n, the tables included |
| VmUser.AddPage | kernel/vm.c:242-252 | a fresh page with the given bytes mapped at an unmapped address, or nothing mapped and no data page lost; fails exactly when the free pages do not cover the page and the tables missing |
| VmUser.Uvmdealloc | kernel/vm.c:262-273 | exactly the pages above the new size go; the new size |
| VmUser.Uvmalloc | kernel/vm.c:232-255 | success, exactly when the free pages cover the new pages and the tables missing: the new pages are mapped to distinct zeroed pages that were free and nothing else changes; failure: translations and data pages exactly as before; every byte up to newsz is the user's to read and write, and reads 0 |
| VmUser.GiveUp | kernel/vm.c:243-252 | the error paths of uvmalloc restore |
| VmUser.Uvmcopy | kernel/vm.c:312-339 | success, exactly when the free pages cover the copies and the tables missing: the child maps the same addresses with the same flags to distinct fresh pages with equal bytes, the parent unchanged; failure: the child's translations and data pages exactly as before; panics only on a hole; every byte below sz reads the same in the child, under the same flags, from a page of its own |
| VmUser.Abandon | kernel/vm.c:336-337 | the error path of uvmcopy restores |
| VmFork.Uvmcreate | kernel/vm.c:202-210 | an empty address space, or nothing changed because no page was free |
| VmFork.Uvmfree | kernel/vm.c:298-303 | every user page and every table page of the space is free again, nothing else changes, no panic |
| VmFork.ProcPagetable | kernel/proc.c:165-193 | a space with just the trampoline and the trapframe, the last two pages below MAXVA and neither of them the user's (FixedIs), exactly when three pages are free; otherwise memory exactly as before |
| VmFork.Allocproc | kernel/proc.c:100-138 | a trapframe page and such a space, exactly when four pages are free; otherwise memory exactly as before |
| VmFork.Freeproc | kernel/proc.c:144-160 | undoes allocproc exactly |
| VmFork.ForkCopy | kernel/proc.c:278-286 | fork from uvmcopy on: the copy, or freeproc and memory as it was before allocproc |
| VmFork.Fork | kernel/proc.c:266-308 | success, exactly when the free pages cover the trapframe, the tables and the copies: a full copy on fresh pages, and free, child's and parent's pages account for every page; failure: exactly the same free pages, tables and contents as before; every byte below sz reads the same in the child, under the same flags, from a page of its own |
| VmCopy.Walkaddr | kernel/vm.c:115-132 | succeeds exactly on a user address below MAXVA, with its page |
| VmCopy.Copyin | kernel/vm.c:384-403 | succeeds exactly when every byte's page is user-mapped, and then equals byte by byte translation |
| VmCopy.Copyout | kernel/vm.c:358-377 | succeeds exactly when every byte's page is user-mapped; changes exactly the bytes written, and on failure the ones before the bad page |
| VmCopy.FirstNul | kernel/vm.c:425-437 | the first NUL of a chunk |
| VmCopy.Copyinstr | kernel/vm.c:410-446 | succeeds exactly when a NUL comes within max with every byte up to it user-mapped, and returns the string with its NUL |
| Virtio.Disk.constructor | kernel/virtio_disk.c:136-138 | all descriptors free |
| Virtio.Disk.AllocDesc | kernel/virtio_disk.c:145-154 | the lowest free descriptor, or none |
| Virtio.Disk.FreeDesc | kernel/virtio_disk.c:158-170 | panics exactly on a bad or a free index, else frees that one |
| Virtio.Disk.Alloc3Desc | kernel/virtio_disk.c:190-201 | three distinct free descriptors, or all as before because fewer were free |
| Virtio.Disk.GiveBack | kernel/virtio_disk.c:194-198 | what was taken is given back |
| Virtio.Disk.FreeChain | kernel/virtio_disk.c:174-185 | frees exactly the descriptors of the chain, without panic |
| VirtioSystem.StepKeeps | kernel/virtio_disk.c:145-315 | every step of requesters, device and interrupt handler keeps the invariant of the rings |
| VirtioSystem.NextCompletion | kernel/virtio_disk.c:300-312 | the next used entry names the chain of a request that still waits |
| VirtioSystem.DescriptorsPartitioned | kernel/virtio_disk.c:145-280 | in every run each descriptor is free, with the requester allocating it, or at one place of one chain |
| VirtioSystem.ChainsLinked | kernel/virtio_disk.c:227-256 | in every run the next links from the head of a request that is written down lead through its header, data and status descriptors, none of them free, as free_chain needs; and they say what was asked for: the sector and the direction, the buffer and its length, which way the device moves the data, and where the status goes |
| VirtioSystem.FinishFreesOwn | kernel/virtio_disk.c:174-185 | following those links frees and clears exactly the requester's three descriptors, and leaves every other as it is |
| VirtioSystem.AvailSlotFree | kernel/virtio_disk.c:259-265 | no avail slot is overwritten before the device has taken it |
| VirtioSystem.UsedSlotFree | kernel/virtio_disk.c:300-312 | no used slot is overwritten before the handler has seen it |
| VirtioSystem.IndicesTell | kernel/virtio_disk.c:300-311 | 16-bit indices that wrap still tell exactly whether anything is pending |
| VirtioSystem.ClearedOncePerRequest | kernel/virtio_disk.c:204-315 | each request's disk flag is cleared exactly once, and is set until then |
| VirtioSystem.CompletionIsOwn | kernel/virtio_disk.c:283-315 | a completion clears the flag of its own request's buffer and never panics |
| VirtioSystem.NoLostWakeup | kernel/virtio_disk.c:158-315 | in every run, kills included, a requester asleep on its buffer has its flag up and its request on the way; one asleep for descriptors finds fewer than three free, and while the lock is free another has a request out |
| Sh.GetToken | user/sh.c:266-308 | a token lies inside the input and, unless at its end, consumes some |
| Sh.ParseLine | user/sh.c:345-359 | defined on every input, so parsing ends, and moves forward |
| ShParser.GetTokenAt | user/sh.c:266-308 | the scanning loops compute the token function |
| ShParser.PeekAt | user/sh.c:311-320 | skips white space and looks at one character |
| ShParser.ParseRedirsAt | user/sh.c:375-397 | the loop computes the redirection grammar, wrapping outwards in order |
| ShParser.AddWordInside | user/sh.c:431-440 | a word found after redirections goes to the exec node inside them |
| ShParser.ParseArgsAt | user/sh.c:429-442 | the loop adds words and wraps redirections as it meets them, which comes to the grammar's words and redirections, and panics exactly where it has no parse |
| ShParser.ParseExecAt | user/sh.c:416-446 | computes the grammar's command |
| ShParser.ParseBlockAt | user/sh.c:400-413 | computes the grammar's block |
| ShParser.ParsePipeAt | user/sh.c:362-372 | computes the grammar's pipeline |
| ShParser.ParseLineAt | user/sh.c:345-359 | computes the grammar's line |
| ShParser.ParseCmdAt | user/sh.c:328-342 | computes the grammar's parse of the whole input, panics on leftovers |
| ShRoundTrip.Printed | user/sh.c:345-359 | wherever a printed command stands, followed by a stop, parseline returns it and stops right after it |
| ShRoundTrip.ParseInvertsPrint | user/sh.c:328-446 | for every command tree with legal words and fewer than MAXARGS arguments, parsing its printing returns the tree and consumes all input |
| ShGrammar.Accepts | user/sh.c:328-446 | a line that reads as the tokens of a sentence, with any white space, parentheses and redirections between words, is parsed to the tree the sentence means |
| ShGrammar.OnlyAccepts | user/sh.c:328-446 | what is accepted reads as such a sentence and means the tree returned |
| ShGrammar.ParsesIff | user/sh.c:328-342 | so parsing succeeds exactly on the lines of the grammar |
| ShGrammar.LineMeans | user/sh.c:328-446 | every tree has a sentence with parentheses only around what could not stand there otherwise |
| ShGrammar.ParseInvertsFlat | user/sh.c:328-446 | and parsing that sentence returns the tree, for every legal tree |
| ShParser.LineLexemes | user/sh.c:345-446 | every word of a parsed line is a whole lexeme of the input |
| ShParser.Nulterminate | user/sh.c:450-493 | the walk over the tree writes a NUL after every word and nowhere else |
| ShParser.WordsAreCStrings | user/sh.c:328-493 | after it every argument and file name, read as a C string, is the token that was lexed |
| Checksum.OnesSumIs | kernel/net.c:130-160 | the one's-complement sum is the plain sum reduced modulo 65535 |
| Checksum.SumWords | kernel/net.c:142-151 | the loop computes the word sum modulo 2^32, odd byte included |
| Checksum.FoldedIs | kernel/net.c:154-155 | two folds reduce any 32-bit sum exactly |
| Checksum.InCksum | kernel/net.c:130-160 | sum, folds and complement together |
| Checksum.CksumExact | kernel/net.c:130-160 | up to 65537 words the result is the complement of the one's-complement sum |
| Checksum.TooManyWords | kernel/net.c:130-160 | for every larger number of words some buffer gets a wrong sum |
| Checksum.ExactIff | kernel/net.c:130-160 | so it is exact for all n-word buffers if and only if n is at most 65537 |
| Checksum.VerifiesToZero | kernel/net.c:130-160 | storing the result in its zero field makes the checksum of the whole zero |
| Net.IpHeaderReads | kernel/net.c:182-199 | the header net_tx_ip writes passes every test of net_rx_ip and reads back its fields |
| Net.UdpRoundTrip | kernel/net.c:286-317 | net_rx_udp takes back what net_tx_udp wrote, whatever padding follows |
| Net.RoundTrip | kernel/net.c:164-374 | a frame built for local_ip, with any padding, is delivered with the same payload, source and ports |
| Net.OnlyGoodDelivered | kernel/net.c:286-374 | a frame is delivered only if it says IP, version 4 without options or fragment, a header checksum of zero, this host and UDP, with lengths that agree; and then the payload, address and ports are the bytes at their places |
| Net.MbufAlloc | kernel/net.c:66-80 | an empty packet after the headroom; none exactly when the headroom does not fit or no page is free |
| Net.Mbuf.Pull | kernel/net.c:21-29 | drops the front, or refuses when too short |
| Net.Mbuf.Push | kernel/net.c:33-40 | grows the front, panics exactly without headroom |
| Net.Mbuf.Trim | kernel/net.c:56-62 | drops the end, or refuses when too short |
| Net.Mbuf.TxEth | kernel/net.c:164-178 | the packet with its Ethernet header in front |
| Net.Mbuf.TxIp | kernel/net.c:182-199 | the packet with its IP header and checksum in front |
| Net.Mbuf.TxUdp | kernel/net.c:203-217 | the whole frame of the payload |
| Net.Mbuf.RxUdpPacket | kernel/net.c:286-317 | decides as the packet format says and leaves the payload |
| Net.Mbuf.RxIpPacket | kernel/net.c:321-352 | the same from the IP header on |
| Net.Mbuf.RxFrame | kernel/net.c:356-374 | the same from the Ethernet header on |
| Grep.MatchHereMeans | user/grep.c:83-94 | matches exactly when a prefix of the text is in the pattern's language, all of it for a final $ |
| Grep.MatchStarMeans | user/grep.c:97-104 | matches exactly when some run of the starred character leaves a match of the rest |
| Grep.MatchAnywhereMeans | user/grep.c:71-80 | matches exactly when some suffix starts with a word of the language |
| Grep.MatchMeans | user/grep.c:71-80 | match holds exactly when some substring, with ^ an initial one, is in the language |
| Grep.MatchText | user/grep.c:71-80 | the do-while computes match |
| Grep.MatchStarText | user/grep.c:97-104 | the do-while computes matchstar |
| Grep.Pieces | user/grep.c:11-34 | output for input in two pieces is the output of the first and of what it left with the second |
| Grep.Lines | user/grep.c:20-28 | the inner loop writes the matching lines of the buffer and leaves the rest |
| Grep.Grep | user/grep.c:11-34 | however read() splits the input, the output is the matching lines in order up to the first line that does not fit or holds a NUL |
| Grep.CompleteIff | user/grep.c:11-34 | that is all the matching lines, for every pattern, if and only if every finished line fits and holds no NUL |

## Left out

- Memory ordering, interrupts being off, and the insides of kernel/spinlock.c and kernel/sleeplock.c: locks exclude each other.
- Assembly, traps, boot, timer, PLIC, PCI: swtch is a hand-over of a lock and a CPU.
- kernel/e1000.c, kernel/sysnet.c and ARP: sockrecvudp is the delivery end of Net, and the mbuf its transmit end.
- Console, UART, printf, system call arguments, exec and the small user programs: no state that more than one function keeps consistent.
- Directories, path names, inode allocation and the inode cache of fs.c (dirlookup, namex, ialloc, iget, ilock): they would repeat the style of balloc and bget.
- Device files and pipes behind filewrite and fileread: one dispatch each.
- The kernel page table, uvminit, uvmclear and growproc: instances of mappages and uvmalloc.
- kinit and freerange: a loop of kfree.
- runcmd and getcmd of the shell, and grep's main: process plumbing.
- Pids, exit status values, open files and the current directory in fork, exit and wait.
- pipealloc's and pipeclose's file and page handling: the ends and the ring are modelled, kfree of the pipe is not.
- Contents of a block after a copy that failed part way: a failed chunk is only known to change bytes inside its own stretch, and as in the code that block is not logged.
- Proc.WaitReturns: that the scan found no child is tied to the processes there are for every process but init, to which children can be given meanwhile.
- PipeCalls.ReadsAreStretches: what pipeclose returns and the values copied to the user are not recorded.
- LogSystem.StepKeeps: with a roomy log, as for the run theorems that rest on it; without one LogRace.SafeIff shows that they fail.
- LogRace.SafeIff: of a region with room for LOGSIZE + 1 block numbers after it, where the run it builds logs; bget's panic is a commit that takes no further step.
- Fs.Fs.Writei: a balloc that finds no block panics in the code, here `ok == false`.
- Bio.Bcache.Bunpin: of a referenced buffer; whether the order by idle time survives the last bunpin is not stated.
- Vm.Memory.Mappages: of a range that is not empty and ends at or below MAXVA, as every caller passes.
- Proc.NoZombieIfTimely: also excludes such a step while init is in its scan, past the child, though init may then find another one and not sleep.
- VirtioSystem.CompletionIsOwn: the device completes with status 0, so the handler's panic on another status is not reached.
- VirtioSystem.NoLostWakeup: going to sleep and letting go of vdisk_lock are one step, and so is a wakeup; PipeSystem takes them apart.
- File.ChunkIsLargest: a matter of the count of blocks; a disk with four bitmap blocks on which a chunk logs exactly MAXOPBLOCKS is not built.
- LogSystem.BreadReturnsLastLogged: for callers that log a change before brelse, as the kernel's do; a buffer changed and not logged is excluded.
- LogFormat.CommitCrashAtomic: assumes home blocks outside the log region, as the file system's layout gives.
- Vm.Memory.Kalloc: the free list is a sequence field; that the links are stored inside the free pages, and the junk that kalloc and kfree fill pages with, are not modelled.
- Log.Log.LogWrite: of a home block, outside the log region, as every caller in fs.c passes.
- Vm.Memory.Uvmunmap: takes page numbers, so the panic on a misaligned address is not modelled; with do_free the pages of the range are distinct data pages.
- Vm.Memory.Walk: pages are table pages or data pages, not bytes seen both ways; addresses at or above MAXVA, where the code panics, are excluded.
- VmUser.Uvmcopy: requires that the child's range is empty and that present entries of the parent are leaves over data pages, as fork's callers have it.
- VmUser.Uvmalloc: requires the range above oldsz to be unmapped, as growproc and exec have it.
- VmFork.Fork: of a parent whose pages below sz are all present, below the trapframe, as uvmalloc keeps them.
- VmCopy.Copyout: requires that no two user pages share memory, as fork and uvmalloc give.
- Umalloc.Allocator.Malloc: sbrk is a parameter that returns failure or a region disjoint from all earlier ones, above `base`, with a size that fits its int; the loop is written as a scan, a morecore and a second scan.
- Umalloc.Allocator.Free: of a pointer malloc returned and not freed since, as C demands.
- Proc.ReapedOnceByParent: kstack, trapframe and page table of the slot are modelled in VmFork only.
- MkFs.MkFs.Build: for the constants of mkfs.c (FSSIZE 1000, 200 inodes); asserts that fail are `ok == false`, and so is running past FSSIZE or the inode blocks, which mkfs does not test for; what such an image holds is not described.
- Net.RoundTrip: payloads whose length fits the 16-bit length fields, more than an mbuf holds; mbufput's own bounds are not modelled.
- Checksum.VerifiesToZero: up to 65537 words, where the checksum is exact.
- Sh.ParseLine: pointers into the buffer are indices, and malloc in the constructors does not fail.
