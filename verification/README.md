# xv6 in Dafny

A Dafny 4.11 model of the parts of the xv6 kernel (RISC-V version) that are hardest to get right,
and proofs of what they promise.

* **The write-ahead log** (`Disk`, `LogDisk`, `LogMachine`, `LogCrash`, `LogCalls`, `Reservation`,
  `Buffers`, `BufferCache`, `LogState`, `WriteAheadLog`). A commit and a recovery are sequences of
  single-block writes. `LogMachine` takes them one at a time and may crash between any two,
  including inside recovery; `LogCrash` proves atomicity and durability over every run.
  `WriteAheadLog` is the code of `kernel/log.c` on a model of `kernel/bio.c`; it is proved to perform
  exactly those sequences. `Reservation` treats `begin_op`, `log_write` and `end_op` over all
  interleavings.
* **Files** (`Bytes`, `Ownership`, `FileSystem`). Free map, inodes and indirect blocks as bytes; no
  block belongs to two slots, the free map is exact, files have no holes, and a file is a sequence
  of bytes that `readi` and `writei` read and overwrite. Nothing changes that is not logged.
* **Memory** (`Pages`, `PageTables`, `Frames`, `Subtrees`, `VirtualMemory`, `UserMemory`). Page tables
  as trees in physical pages that refine one finite map, every page with one owner, the free list
  threaded through the free pages; above them user memory as bytes, where lazily allocated pages
  cannot be told from pages that are there.
* **`malloc`** (`Umalloc`), **the shell's parser** (`ShellParser`, `ShellGrammar`), **sleep locks** (`SleepLock`),
  **pipes** (`Pipes`), **time accounting** (`Accounting`), **open files** (`FileRefs`, `FileTable`) and
  **the virtio block driver** (`VirtioRings`, `Virtio`).

Integers are unbounded in Dafny; where the source relies on a width (32-bit offsets and counters,
16-bit ring indices, 64-bit sizes), the wrap-around is written out. A panic is an outcome or a
result, and where a panic cannot happen that is proved. Division by a constant is written with
`Bytes.Quot` and `Bytes.Rem`, which are proved to be `/` and `%`.

`dafny verify dfyconfig.toml` checks the whole project.

## Findings

Two promises of the source are not kept. In each case the model gives a run that breaks the
promise and the exact condition under which it is kept.

* **A full log makes `end_op` panic.** `LOGBLOCKS` and `NBUF` are both 30 (`kernel/param.h:11-12`), and
  `log_write` pins a buffer for each logged block. A commit needs one more buffer to copy a block to
  the log, and `bget` panics when there is none. `Log.FullLogPanics` is a run from boot, on any disk
  with thirty blocks after the log: three operations that each stay within their reservation, and
  the last `end_op` panics. `Log.EndOp` states that `end_op` panics if and only if it commits a log that
  is not empty while no buffer is unused, and `Log.PanicIffAllPinned` that, when nobody else holds
  a buffer, this is so if and only if the log is full.
* **`log_write` can panic although it would add nothing.** It tests for a full log before it looks
  whether the block is already there (`kernel/log.c:219-229`). `Reservation.FullBudgetCanPanic` is a
  run in which every operation stays within `MAXOPBLOCKS` blocks and a repeated `log_write` panics;
  `Reservation.LogPanicsIffFull` is the exact condition, and `Reservation.BlockBudgetSuffices` proves that no
  call panics if each is made after fewer than `MAXOPBLOCKS` different blocks.
  `Fs.Filewrite` keeps to that.

## Model

| member | source | states |
|---|---|---|
| `LogCrash.CrashAtomicity` | kernel/log.c:87-124 | in every reachable state of every run with crashes, recovery would give the initial home blocks with exactly the committed transactions applied as wholes, in order |
| `LogCrash.Durability` | kernel/log.c:194-204 | a transaction is committed from the header write on, and nothing that happens later, crashes included, takes it back |
| `LogCrash.RecoveryTerminates` | kernel/log.c:117-124 | after any run that crashed, booting without another crash ends idle, on the recovered disk |
| `LogCrash.RecoverPrefix` | kernel/log.c:66-84 | a crash after any number of the writes of recovery leaves a disk from which recovery gives the same |
| `LogCrash.RecoverIdempotent` | kernel/log.c:117-124 | recovering twice is recovering once |
| `LogCrash.CommitPrefix` | kernel/log.c:179-204 | a crash after any prefix of the writes of a commit recovers to the disk before it or with all of it, and which one depends only on whether the header was written |
| `LogCrash.CommitComplete` | kernel/log.c:194-204 | a whole commit leaves the log empty and every home block as the transaction has it |
| `LogCrash.InstallAt` | kernel/log.c:66-84 | installing gives every logged block its logged contents and leaves every other block alone |
| `LogDisk.HeadRoundTrip` | kernel/log.c:87-115 | read_head after write_head gives the same block numbers |
| `LogCalls.LastCall` | kernel/param.h:10-10 | an operation that passes fewer than MAXOPBLOCKS different blocks, and one more at the end, stays within its budget at every call |
| `Reservation.ReservationSafety` | kernel/log.c:127-236 | over all interleavings no call panics, the log has room for what the operations inside may still add, entries are distinct, and nobody is inside during a commit |
| `Reservation.StepKeepsInv` | kernel/log.c:127-176 | each call keeps the reservation invariant and does not panic |
| `Reservation.BlockBudgetSuffices` | kernel/log.c:203-236 | operations that count the different blocks they pass, not the entries they add, stay within their reservation whatever the others do |
| `Reservation.IdleAdmits` | kernel/log.c:127-143 | begin_op is admitted whenever nobody is inside and no commit is under way |
| `Reservation.AdmissionBound` | kernel/log.c:127-143 | at most LOGBLOCKS / MAXOPBLOCKS operations are inside at once |
| `Reservation.AdmittedIffFits` | kernel/log.c:127-143 | begin_op is admitted if and only if no commit is under way and the log has room for the reservations of all inside and one more |
| `Reservation.LogPanicsIffFull` | kernel/log.c:215-223 | log_write panics exactly when the log is full, also for a block that is in it |
| `Reservation.FullBudgetCanPanic` | kernel/log.c:219-223 | a run that stays within MAXOPBLOCKS entries each and still panics |
| `BufferCache.Bcache.constructor` | kernel/bio.c:36-53 | one ring of all the buffers, none in use, and a cache that agrees with the disk |
| `BufferCache.Bcache.FindCached` | kernel/bio.c:64-73 | finds the one buffer of a block, if and only if there is one |
| `BufferCache.Bcache.FindVictim` | kernel/bio.c:75-88 | the unused buffer that was released longest ago, if and only if one is unused |
| `BufferCache.Bcache.Bget` | kernel/bio.c:58-89 | panics exactly when the block is not cached and every buffer is in use; otherwise one buffer is taken and the others are untouched |
| `BufferCache.Bcache.Bread` | kernel/bio.c:92-103 | the block as its last holder left it, whether or not it had to be read from disk |
| `BufferCache.Bcache.SetData` | kernel/bio.c:92-103 | a holder's change is what every later reader of the block gets |
| `BufferCache.Bcache.Bwrite` | kernel/bio.c:106-112 | exactly one block write, of the buffer's contents |
| `BufferCache.Bcache.Brelse` | kernel/bio.c:116-137 | the last user's release makes the buffer the most recently used one; the ring stays one ring |
| `BufferCache.Bcache.Bpin` | kernel/bio.c:139-144 | one more reference, which keeps the buffer from being recycled |
| `BufferCache.Bcache.Bunpin` | kernel/bio.c:146-151 | one reference less, never below the other users' count |
| `Buffers.MoveToFront` | kernel/bio.c:128-134 | relinking next and prev moves one buffer to the front of one doubly linked ring |
| `WriteAheadLog.Log.constructor` | kernel/log.c:53-63 | a kernel just booted on a disk: empty cache, nothing logged |
| `WriteAheadLog.Log.FillHead` | kernel/log.c:103-115 | the header block that is written: count, numbers, and the rest as it was |
| `WriteAheadLog.Log.WriteHead` | kernel/log.c:103-115 | one block write, of the header for the blocks given; nothing else on disk changes |
| `WriteAheadLog.Log.ReadHead` | kernel/log.c:87-98 | the log header in memory is what the disk says |
| `WriteAheadLog.Log.LogOne` | kernel/log.c:179-192 | one logged block as clients last left it goes to its place in the log, and pins are kept |
| `WriteAheadLog.Log.WriteLog` | kernel/log.c:179-192 | exactly the log writes of the transaction, in order; panics if and only if no buffer is unused |
| `WriteAheadLog.Log.InstallOne` | kernel/log.c:66-84 | one home block gets its logged contents and, unless recovering, loses its pin |
| `WriteAheadLog.Log.InstallTrans` | kernel/log.c:66-84 | exactly the home writes of the transaction, in order |
| `WriteAheadLog.Log.Commit` | kernel/log.c:194-204 | performs exactly CommitWrites, empties the log and releases every pin; home blocks read as before |
| `WriteAheadLog.Log.RecoverFromLog` | kernel/log.c:117-124 | performs exactly RecoverWrites, so that the disk becomes Recover of what it was, and leaves no buffer in use |
| `WriteAheadLog.Log.Start` | kernel/log.c:53-63 | after recovery the log is valid, empty and idle, on the recovered disk |
| `WriteAheadLog.Log.Read` | kernel/bio.c:92-103 | a client reads what was last written to the block by anyone; fails exactly when there is no buffer for it |
| `WriteAheadLog.Log.Modify` | kernel/log.c:206-214 | a holder's change is remembered as not logged yet |
| `WriteAheadLog.Log.FindLogged` | kernel/log.c:224-227 | the place of a block in the log, or its end if and only if it is not there |
| `WriteAheadLog.Log.LogWrite` | kernel/log.c:215-236 | a step of the reservation machine: absorbs a block already logged, else appends it and pins its buffer; the disk does not change |
| `WriteAheadLog.Log.Release` | kernel/bio.c:116-137 | a block whose changes are logged can be released: nothing is lost |
| `WriteAheadLog.Log.BeginOp` | kernel/log.c:127-143 | one step of the reservation machine, or sleep |
| `WriteAheadLog.Log.EndOp` | kernel/log.c:147-176 | the last operation commits, with exactly the writes that the crash machine takes, after which the home blocks on disk are what clients see; panics if and only if it must commit and no buffer is unused |
| `WriteAheadLog.Log.CrashBetween` | kernel/log.c:117-124 | a crash between transactions loses nothing that is on disk |
| `WriteAheadLog.Log.CrashDuringCommit` | kernel/log.c:194-204 | a crash after k writes of end_op's commit recovers to the disk before the transaction or to what clients saw |
| `WriteAheadLog.Log.PanicIffAllPinned` | kernel/param.h:10-12 | when only the log holds buffers, none is unused if and only if the log is full |
| `WriteAheadLog.Log.Update` | kernel/log.c:206-236 | bread, change, log_write and brelse of a block not logged yet: within the reservation none of them panics, and only the log holds buffers afterwards |
| `WriteAheadLog.Log.FullLogPanics` | kernel/log.c:147-176 | a run from boot, within all reservations, whose last end_op panics |
| `Bytes.QuotIsDivision` | kernel/fs.h:42-51 | the quotient and remainder used throughout are those of division |
| `Bytes.LittleRoundTrip` | kernel/fs.c:425-437 | a little-endian word reads back as it was written |
| `Bytes.PutWordAt` | kernel/fs.c:425-437 | writing one word of a block changes that word only |
| `Ownership.MarkAt` | kernel/fs.c:66-106 | setting or clearing a bit of the free map changes the state of that block and of no other |
| `Ownership.BitPlace` | kernel/fs.h:48-51 | different blocks have different bits |
| `Ownership.InodeInBlock` | kernel/fs.h:42-45 | byte k of inode i, counted from the start of the inode blocks, is in block IBLOCK(i), which is one of them, at offset 64 * (i % 16) + k |
| `Ownership.MarkOwn` | kernel/fs.c:66-106 | balloc and bfree keep the ownership invariant, with the block in nobody's slot |
| `Ownership.AttachOwn` | kernel/fs.c:405-420 | entering an allocated block in an inode keeps ownership exact |
| `Ownership.AttachIndirectOwn` | kernel/fs.c:424-440 | so does entering it in an indirect block, and no other address changes |
| `Ownership.DetachIndirectOwn` | kernel/fs.c:458-472 | dropping an indirect block detaches exactly it and what it addresses |
| `Ownership.EntriesDistinct` | kernel/fs.c:461-468 | an indirect block never names a block twice, nor itself |
| `FileSystem.Fs.constructor` | mkfs/mkfs.c:236-250 | the file system mkfs starts from: the metadata blocks are in use and no others, every inode is empty, and the invariant holds |
| `FileSystem.Fs.FindFree` | kernel/fs.c:66-89 | the first free block; none if and only if all are in use |
| `FileSystem.Fs.Balloc` | kernel/fs.c:66-89 | the first free block, marked and zeroed; 0 if and only if the disk is full |
| `FileSystem.Fs.Bfree` | kernel/fs.c:92-106 | one bit cleared, and its block logged |
| `FileSystem.Fs.Iupdate` | kernel/fs.c:226-242 | the inode on disk is the one in memory, and its block is logged |
| `FileSystem.Fs.Bmap` | kernel/fs.c:405-444 | the block of a file, allocated if need be: ownership stays exact, addresses in use do not move, new blocks are zero, what changed is logged, and 0 means that the disk is full |
| `FileSystem.Fs.BmapInvisible` | kernel/fs.c:405-444 | allocating a block changes no byte of any file |
| `FileSystem.Fs.Readi` | kernel/fs.c:494-519 | exactly the bytes of the file in the range, cut at its end; nothing changes, and 32-bit overflow of the range gives none |
| `FileSystem.Fs.WritePiece` | kernel/fs.c:536-549 | one block's worth of bytes is overwritten and logged, no other byte of any file changes |
| `FileSystem.Fs.Writei` | kernel/fs.c:528-562 | the file becomes Overwrite of what it was, other files do not change, every block that changed is logged, the inode's last of all; short only if the disk is full; -1 if and only if the range is not allowed |
| `FileSystem.Fs.Itrunc` | kernel/fs.c:448-476 | the file is empty and owns nothing, its blocks are free, no other file changes, no bfree panics, and every block that changed is logged |
| `FileSystem.Fs.Filewrite` | kernel/file.c:134-179 | the bytes written are a prefix of the source, in place; the result is n or -1; it stops short only if the disk is full, the offset is beyond the end, or the next chunk would pass the largest size; each transaction's log_write calls stay within their budget |
| `FileSystem.Fs.WriteChunk` | kernel/file.c:155-170 | one transaction of filewrite: within the budget at every log_write, nothing changed that is not logged, -1 if and only if the range is not allowed, and short only if the disk is full |
| `FileSystem.ChunkBound` | kernel/file.c:148-154 | three blocks is the longest chunk that fits MAXOPBLOCKS wherever it starts |
| `FileSystem.Fs.WidestChunk` | kernel/file.c:148-154 | a chunk that logs MAXOPBLOCKS different blocks, from a condition on the file and the free map |
| `FileSystem.OverwriteTwice` | kernel/file.c:155-170 | writing two pieces one after the other is writing them as one |
| `Pages.StoreLoad` | kernel/vm.c:97-115 | storing an entry changes that entry of the page and no other |
| `Pages.PteParts` | kernel/riscv.h:364-369 | an entry gives back the page number and the flags it was made of |
| `Pages.PxIsShift` | kernel/riscv.h:371-374 | PX is the 9-bit field of the address |
| `Pages.PxInjective` | kernel/riscv.h:371-380 | addresses below MAXVA with the same three indices are in the same page |
| `PageTables.LookupIsGet` | kernel/vm.c:84-115 | the hardware walk through the tree in memory finds exactly what the finite map says |
| `PageTables.AddTable` | kernel/vm.c:97-115 | adding an empty table changes no translation in any page table |
| `PageTables.SetEntry` | kernel/vm.c:145-174 | writing one leaf entry changes one translation in one page table |
| `PageTables.DataWrite` | kernel/vm.c:342-375 | writing a data page changes no translation |
| `Frames.Rollback` | kernel/vm.c:224-238 | unmapping what was added gives back every translation and every page, except tables that were added |
| `Subtrees.RemoveTable` | kernel/vm.c:262-278 | a table without valid entries can go: everything else keeps its place and translation |
| `VirtualMemory.Vm.constructor` | kernel/kalloc.c:26-41 | the free list holds every page of the pool once |
| `VirtualMemory.Vm.Kalloc` | kernel/kalloc.c:57-69 | a page that was free and is nobody else's; none if and only if the list is empty |
| `VirtualMemory.Vm.Kfree` | kernel/kalloc.c:43-55 | panics exactly on an address that is not a page of the pool; else the page is free again, filled with junk and linked to the old list |
| `VirtualMemory.Vm.CountFree` | kernel/kalloc.c:71-84 | PGSIZE times the number of free pages |
| `VirtualMemory.Vm.Walk` | kernel/vm.c:97-115 | the entry for an address, with tables added if asked; no translation changes, and it fails only without memory |
| `VirtualMemory.Vm.Mappages` | kernel/vm.c:145-174 | maps exactly the range, consecutively, up to where it fails; panics if and only if the range is not aligned, is empty, leaves the address space or meets a page already mapped |
| `VirtualMemory.Vm.Uvmcreate` | kernel/vm.c:178-187 | a new empty page table; nothing else changes; fails only if no page is free |
| `VirtualMemory.Vm.Uvmunmap` | kernel/vm.c:192-212 | exactly the range is unmapped, pages owned in it are freed if asked, and holes are skipped; panics if and only if va is not aligned or the range leaves the address space |
| `VirtualMemory.Vm.Uvmalloc` | kernel/vm.c:216-240 | new zero pages for exactly the new part, with the permissions asked for; or everything as it was, and then no more free pages are left than the range has pages |
| `VirtualMemory.Vm.Uvmdealloc` | kernel/vm.c:246-258 | exactly the pages above the new size are freed |
| `VirtualMemory.Vm.Freewalk` | kernel/vm.c:262-278 | every table below is freed and nothing else; panics only if a leaf is left |
| `VirtualMemory.Vm.Uvmfree` | kernel/vm.c:282-288 | the page table and what it owns is gone; panics if and only if something was mapped beyond the size |
| `VirtualMemory.Vm.Uvmcopy` | kernel/vm.c:296-324 | the child has its own copy of every page that is mapped, with the same permissions, and nothing else; or everything as it was, and then no more free pages are left than the parent's size has pages |
| `VirtualMemory.Vm.ProcPagetable` | kernel/proc.c:185-215 | exactly trampoline and trapframe are mapped; on failure nothing has changed, and no more than four pages were free |
| `VirtualMemory.Vm.ProcFreepagetable` | kernel/proc.c:219-225 | all of the process's pages and tables are free; panics if and only if a stray leaf was mapped |
| `VirtualMemory.Vm.Walkaddr` | kernel/vm.c:120-138 | the physical address for a user page, 0 if and only if it is not mapped for the user |
| `VirtualMemory.Vm.Ismapped` | kernel/vm.c:475-486 | whether the map has an entry |
| `UserMemory.Proc.Allocate` | kernel/proc.c:109-151 | a process with a valid memory of size 0; or nothing changed, and no more than four pages were free |
| `UserMemory.Proc.Release` | kernel/proc.c:164-181 | freeing the memory of any valid process cannot panic, and gives everything back |
| `UserMemory.Proc.Vmfault` | kernel/vm.c:452-473 | a fault below the size on a page that is not mapped is served, unless memory runs out, by one new page, writable and zero; nothing else is mapped, and nobody's memory changes as seen by the user |
| `UserMemory.Proc.Copyout` | kernel/vm.c:342-375 | the bytes copied are a prefix of the source, at their place, and no other byte of any process changes; if every page is mapped writable, or is not mapped and below the size, it succeeds unless memory runs out, and it succeeds only then |
| `UserMemory.Proc.Copyin` | kernel/vm.c:380-403 | reads exactly the process's bytes and changes none; if every page is mapped, or is not mapped and below the size, it succeeds unless memory runs out, and it succeeds only then |
| `UserMemory.CopyBack` | kernel/vm.c:342-403 | what copyout wrote, copyin reads |
| `UserMemory.Proc.Growproc` | kernel/proc.c:245-264 | growing maps every new page writable and changes no byte, shrinking clears and frees exactly what it gives up; the size is the new one or unchanged, and a failure means that the new size is too large or memory ran out |
| `UserMemory.Proc.Sbrk` | kernel/sysproc.c:41-67 | the old size, or -1 with nothing changed; lazy growth takes no page and fails if and only if it would pass TRAPFRAME; eager growth maps every new page, and fails only for that or without memory |
| `Umalloc.Heap.constructor` | user/umalloc.c:22-27 | an empty heap |
| `Umalloc.Heap.Free` | user/umalloc.c:24-44 | exactly that allocation ends, its units are free, and the free list stays one address-ordered, coalesced ring |
| `Umalloc.Heap.Morecore` | user/umalloc.c:46-61 | the new units are on the free list in a block that is large enough; allocations are untouched |
| `Umalloc.Heap.Malloc` | user/umalloc.c:63-90 | a new allocation of the size asked for that overlaps no other; 0 only if nothing fits and there is no more memory; the heap grows only if nothing fits |
| `Umalloc.OneRing` | user/umalloc.c:70-90 | from any free block the links reach every other |
| `Umalloc.JoinTiles` | user/umalloc.c:29-41 | joining neighbours keeps the blocks a partition of the heap |
| `Umalloc.SplitTiles` | user/umalloc.c:74-82 | so does splitting one |
| `ShellParser.Cursor.Gettoken` | user/sh.c:271-314 | the next token and its ends, as the token function says |
| `ShellParser.Cursor.PeekAt` | user/sh.c:316-326 | whether the next character that is not blank is one of those given |
| `ShellParser.Cursor.Parseredirs` | user/sh.c:380-403 | all redirections that follow, the last outermost |
| `ShellParser.Cursor.Parseexec` | user/sh.c:421-452 | words and redirections in any order, the first redirection innermost; a block if there is a parenthesis |
| `ShellParser.Cursor.Parseblock` | user/sh.c:405-419 | a parenthesised line and its redirections, or panic |
| `ShellParser.Cursor.Parsepipe` | user/sh.c:367-378 | pipelines, to the right |
| `ShellParser.Cursor.Parseline` | user/sh.c:350-365 | background commands and lists |
| `ShellParser.LineOk` | user/sh.c:350-365 | every word of a parsed command is a span of the line that ends before a blank or a symbol, so that a NUL there ends it |
| `ShellParser.Buffer.Nulterminate` | user/sh.c:455-499 | exactly the ends of the words become NUL |
| `ShellParser.Parsecmd` | user/sh.c:333-348 | parses the whole line or panics, and as C strings after termination the words mean what they meant as spans |
| `ShellGrammar.SentenceParsed` | user/sh.c:333-499 | every line whose tokens are a sentence of the grammar, with words and redirections in any order, parses to the meaning of the sentence: redirections nest in their order, pipes and lists to the right |
| `ShellGrammar.Accepts` | user/sh.c:333-348 | a line is accepted if and only if its tokens are a sentence; on every other line the parser panics |
| `ShellGrammar.LexJoin` | user/sh.c:271-314 | tokens written one after another, with any blanks between them that keep words apart, are read back as they were |
| `ShellGrammar.ParseJoin` | user/sh.c:333-499 | so that a sentence written with any such blanks parses to its meaning |
| `ShellGrammar.ParsePrint` | user/sh.c:333-499 | every command tree that can be written parses back to itself from its printed form |
| `ShellGrammar.SentenceMeans` | user/sh.c:333-499 | parse and terminate any line whose tokens are a sentence: the strings in memory spell the meaning of the sentence |
| `SleepLock.MutualExclusion` | kernel/sleeplock.c:21-52 | in every reachable state at most one process has the lock, and the lock says which |
| `SleepLock.NoLostWakeup` | kernel/proc.c:558-605 | when a release has finished its wakeup, no process is still waiting for it, in any interleaving of the steps of acquire, sleep, wakeup and release |
| `SleepLock.FreeMeansAwake` | kernel/sleeplock.c:21-41 | whenever the lock is free and nobody is inside it, no process sleeps on it |
| `SleepLock.LocksGivenBack` | kernel/proc.c:558-605 | in every reachable state, another process holds p->lock of a process only while it is between acquiring and releasing that lock in wakeup |
| `SleepLock.NoDeadlock` | kernel/sleeplock.c:21-52 | in every reachable state in which a process is inside acquiresleep or releasesleep, some process can go on, unless the sleep lock is with a process that has left acquiresleep and has not called releasesleep yet |
| `SleepLock.StepKeeps` | kernel/proc.c:558-605 | each atomic step keeps the invariant of lock, process states and program counters |
| `Pipes.Pipe.constructor` | kernel/pipe.c:22-56 | an empty pipe with both ends open |
| `Pipes.Pipe.Put` | kernel/pipe.c:96-97 | the byte is accepted; the ring still holds everything accepted and not consumed, across wrap-around of the counter |
| `Pipes.Pipe.Get` | kernel/pipe.c:119-126 | the oldest byte comes out |
| `Pipes.Pipe.Write` | kernel/pipe.c:76-103 | exactly the bytes from i0 to i are accepted, in order; which of the five ways the stretch ends is determined by the state at its end |
| `Pipes.Pipe.MustWait` | kernel/pipe.c:112-118 | a reader sleeps if and only if the pipe is empty and can still be written |
| `Pipes.Pipe.Read` | kernel/pipe.c:119-134 | exactly the oldest bytes, as many as there are, are wanted and can be copied; -1 only if the first cannot be |
| `Pipes.CountersTell` | kernel/pipe.c:86-90 | 32-bit counters that wrap round tell empty from full |
| `Accounting.AgeBound` | kernel/proc.c:454-464 | waiting and sleeping time never exceed a process's age, and with running and set-up time they are its age |
| `Accounting.ProcTable.Allocproc` | kernel/proc.c:109-159 | the first unused entry, newly born; none if and only if all are in use |
| `Accounting.ProcTable.Start` | kernel/proc.c:268-319 | the process begins to wait, and its set-up time is counted |
| `Accounting.ProcTable.Dispatch` | kernel/proc.c:454-464 | the wait is over and is counted once |
| `Accounting.ProcTable.Yield` | kernel/proc.c:508-517 | a new wait begins, and running time is counted |
| `Accounting.ProcTable.Sleep` | kernel/proc.c:558-585 | a sleep begins, and running time is counted |
| `Accounting.ProcTable.Wakeup` | kernel/proc.c:589-605 | exactly the sleepers on the channel become runnable, their sleep counted |
| `Accounting.ProcTable.Kill` | kernel/proc.c:610-631 | the process is marked, and if it slept it is runnable with its sleep counted; -1 if and only if there is none |
| `Accounting.ProcTable.Exit` | kernel/proc.c:339-379 | a zombie, with its accounts closed |
| `Accounting.ProcTable.Freeproc` | kernel/proc.c:164-181 | the entry is unused, with no pid, channel or kill mark |
| `Accounting.ProcTable.Tick` | kernel/trap.c:183-190 | time passes and every account still adds up |
| `FileTable.Ftable.constructor` | kernel/file.c:22-26 | no files, no descriptors, no pipes |
| `FileTable.Ftable.Filealloc` | kernel/file.c:29-44 | an unused file with one reference; none if and only if all are in use |
| `FileTable.Ftable.Filedup` | kernel/file.c:47-56 | one more reference; panics if and only if there was none |
| `FileTable.Ftable.Fileclose` | kernel/file.c:59-83 | one reference less, of a reference that is held it cannot panic; the last clears the file and closes its end of its pipe, and no other file or pipe changes |
| `FileTable.Ftable.Pipeclose` | kernel/pipe.c:58-74 | the page is freed if and only if the other end is closed already |
| `FileTable.Ftable.Fdalloc` | kernel/sysfile.c:39-52 | the first empty descriptor below the limit takes over the reference; -1 if and only if none is empty |
| `FileTable.Ftable.Argfd` | kernel/sysfile.c:21-35 | the file of an open descriptor, with a count above 0; none if and only if the number is out of range or the descriptor empty |
| `FileTable.Ftable.Dup` | kernel/sysfile.c:54-66 | a second descriptor for the same file, in the first empty place; -1 with nothing changed if and only if the descriptor is not open or no place is empty |
| `FileTable.Ftable.Close` | kernel/sysfile.c:97-108 | that descriptor and one reference go and nothing else; -1 if and only if it was not open |
| `FileTable.Ftable.Open` | kernel/sysfile.c:353-370 | the first empty descriptor, for a file that was not in use, readable and writable as the mode says; no other file or process changes; -1 with everything as it was if and only if no file or no descriptor is left |
| `FileTable.Ftable.Pipealloc` | kernel/pipe.c:22-56 | two new files that are the read end and the write end of one new pipe; fails, with no file and no page kept, if and only if there is no page or not two unused files |
| `FileTable.Ftable.SysPipe` | kernel/sysfile.c:486-514 | the two lowest empty descriptors, for the read end and the write end; fails, with no descriptor and no reference left over on any error path, if and only if there is no page, there are not two files or two descriptors left, or the numbers cannot be copied out |
| `FileTable.Ftable.Fork` | kernel/proc.c:295-299 | the child has the parent's descriptors, each counted; what is open, and how, does not change |
| `FileTable.Ftable.Exit` | kernel/proc.c:339-360 | no descriptor is left, every reference is given back, and other processes' descriptors are untouched |
| `FileRefs.SlotChange` | kernel/sysfile.c:39-52 | one descriptor changes the count of all descriptors by one out and one in |
| `Virtio.Vdisk.constructor` | kernel/virtio_disk.c:61-153 | all descriptors free, both rings empty |
| `Virtio.Vdisk.AllocDesc` | kernel/virtio_disk.c:156-166 | the first free descriptor; -1 if and only if none is |
| `Virtio.Vdisk.FreeDesc` | kernel/virtio_disk.c:169-182 | of a descriptor that is held it cannot panic |
| `Virtio.Vdisk.FreeChain` | kernel/virtio_disk.c:185-197 | frees exactly the three descriptors of a chain |
| `Virtio.Vdisk.Alloc3Desc` | kernel/virtio_disk.c:201-213 | three different descriptors; or everything as it was, if and only if there are not three free ones |
| `Virtio.Vdisk.Submit` | kernel/virtio_disk.c:215-275 | a new chain for the buffer, the block and the direction asked for, in the next place of the available ring, which always has room; its descriptors are formatted for that direction and are in no other chain; the buffer's flag is up; fails if and only if there are not three free descriptors |
| `Virtio.Vdisk.Take` | kernel/virtio_disk.c:258-267 | the device finds the requests in the order in which they were submitted, across wrap-around of the index, each with its own header, buffer, status byte and direction |
| `Virtio.Vdisk.Complete` | kernel/virtio_disk.c:294-327 | completion in any order: the used ring always has room, and the flag stays up |
| `Virtio.Vdisk.IntrOne` | kernel/virtio_disk.c:309-325 | the next completed request's own buffer, whose flag was up, has it taken down; panics if and only if its status is not 0 |
| `Virtio.Vdisk.Intr` | kernel/virtio_disk.c:294-327 | every completion that is there is handled, once, in order |
| `Virtio.Vdisk.Finish` | kernel/virtio_disk.c:277-292 | a request whose flag is down has been completed and handled: its three descriptors, and no others, are free again, without a panic |
| `VirtioRings.RoomInRing` | kernel/virtio_disk.c:215-275 | a ring of NUM entries is never overrun, because chains have different heads |
| `VirtioRings.FreeIffUnused` | kernel/virtio_disk.c:185-197 | while no allocation is under way a descriptor is free if and only if no request has it, so that none is lost |

## Left out

- Directories, paths, inode allocation and reference counts of inodes (`dirlookup`, `namex`, `ialloc`, `iget`, `iput`): the model has a fixed table of inodes, each a file.
- The byte format of inodes on disk: `dinodes` holds inodes as records, next to the blocks.
- One view of a block: the log sees a block as 256 words, the file system as 1024 bytes, and the two models are joined by the lists of blocks passed to `log_write`, not by their contents.
- One disk: the buffer cache has one device number besides 0.
- WriteAheadLog.Log.EndOp: requires that nobody holds a logged block locked when the last operation ends; that the source's callers release their buffers before `end_op` is not proved.
- WriteAheadLog.Log.Read: requires that the caller does not meet a buffer locked by itself or another, because sleeping until it is released is not modelled here (sleep locks are modelled in `SleepLock`).
- FileSystem.Fs.Writei: the source is kernel memory; a copy from user memory that fails in the middle is not modelled.
- FileSystem.Fs.Readi: the destination is kernel memory; a copy to user memory that fails in the middle is not modelled.
- FileSystem.Fs.Itrunc: no bound on the number of blocks it logs, which depends on the size of the free map.
- VirtualMemory.Vm.Mappages: requires a permission with R, W or X, as all callers give; a leaf entry without one would be taken for a table.
- VirtualMemory.Vm.Freewalk: for a subtree, a panic is proved only to imply a leaf in it; `Uvmfree` and `ProcFreepagetable` state both directions.
- VirtualMemory.Vm.Kfree: requires that a page in range is in use; freeing a free page again, which the source does not detect, is not modelled.
- VirtualMemory.Vm.Uvmalloc: requires that nothing is mapped in the new range, where the source panics in `mappages`; so does Uvmcopy for the child.
- VirtualMemory.Vm.Uvmunmap: when it frees, requires that the range maps only pages of its own, as the callers guarantee; so do Uvmdealloc and Uvmfree.
- UserMemory.Proc.Vmfault: the page table is that of the current process, and so in Copyout and Copyin.
- Umalloc.Heap.Malloc: requires a size below 0x70000000, above which the source's 32-bit unit count overflows, and memory from `sbrk` above all earlier memory.
- Pipes.Pipe.Write: that a sleeping reader or writer is woken up is not proved for pipes (it is for sleep locks).
- Accounting.ProcTable.Tick: `ticks` does not wrap round.
- FileTable.Ftable.Open: starts where the inode has been found; `O_TRUNC` is left to `Itrunc`.
- FileTable.Ftable.Exit: closes each descriptor with the operation of `sys_close`, which clears it before `fileclose`; the source clears it after.
- Bit operations on flags, page-table entries and the free map are written as arithmetic on bits.
- Traps, the scheduler's choice, `exec`, `copyinstr`, the console, resource limits as such, and the boot code.
- The lengths in the virtio descriptors, which are constants.
- Reads and writes of the device's memory are single steps; memory barriers are not modelled.
