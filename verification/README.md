# Verified models of xv6 and of the thread examples

A Dafny model of the parts of this repository whose correctness is least visible from their code, with
proofs of what they promise. The kernel and user programs are those of `xv6-rev11/expansion`; the thread
programs are those of `threads-cv` and `threads-sema`. `dafny verify dfyconfig.toml` checks everything.

| files | what they model |
|---|---|
| `Blocks`, `Ranges`, `RedoLog`, `CrashMachine`, `CrashSafety`, `Log`, `LogSpace` | log.c: the redo log. `RedoLog` says what each single-block write leaves on the disk, `CrashMachine` is every run with crashes and repeated recoveries, `CrashSafety` holds the theorems over whole runs, `Log` is the program, proved to take the machine's steps with the machine's crash points, and `LogSpace` says when what begin_op() reserves is there |
| `FsLayout`, `FsBytes`, `FsOwnership`, `LogCalls`, `Fs`, `FileWrite` | fs.c and filewrite(): the bitmap, the inode table and the pointers as bytes of disk blocks, with the invariant that each data block has exactly one owner |
| `FsCrash`, `FsLog` | the log and the file system together: which files there are after a crash, and the running system whose transactions, crashes and boots make the histories that this is about |
| `BufRing`, `Bio`, `LogCache` | bio.c over memide.c's disk: the cache as a map from blocks to contents, its LRU list, and the cache as what log.c runs on |
| `FreeList`, `Umalloc` | umalloc.c: headers in memory, the circular free list they form, and the heap it covers |
| `Proc`, `SleepLock`, `Pipe` | fork/exit/wait, sleep locks over sleep() and wakeup(), and pipes |
| `PageTable`, `Kalloc`, `AddressSpace`, `Mmu`, `Vm` | vm.c and kalloc.c: two-level page tables in physical memory, the free list threaded through free pages, an owner for every page, and which accesses the processor then allows |
| `ShellGrammar`, `ShellLexer`, `ShellLanguage`, `ShellRoundTrip`, `ShellParser`, `Shell` | sh.c's parser against the language it accepts and a printer, and nulterminate() in the buffer |
| `Grep` | grep.c's matcher against the language of its patterns |
| `Counting`, `ProducerConsumer`, `Zemaphore`, `RwLock`, `ZemRwLock` | the condition-variable and semaphore protocols, for any number of threads |

Conventions. A critical section is one method or one step; other processes run in between, so an
invariant is what holds whenever the lock is free. In vm.c the lock is held only inside kalloc() and
kfree(): there a method is a whole function, and its page counts hold when no other CPU allocates or frees
in between. A panic is a result (`None`, `false`, or a named outcome) or is proved unreachable; a method
that stands for a panic of balloc() says that the disk is full. Machine integers are written out where they
wrap: the pipe's counters, `off + n` in readi() and writei(), umalloc's sizes, page table entries. Disk,
clock and scheduler choices are parameters or choices of the run.

Where the code and its comments or its intent differ, the model follows the code:

- iupdate()'s comment calls the inode cache write-through and asks for a call after every change of a field
  that lives on disk, but bmap() fills in pointers without one and writei() calls it only when the file grew.
  `FileWrite.WriteThrough` gives the exact condition under which the inode table still holds the inode, and
  `FileWrite.HoleNotWrittenThrough` is a run where it does not. Such a file needs a hole that writei() never
  makes: files without holes stay so and are always written through (`FileWrite.WrittenHoleFree`,
  `FileWrite.HoleFreeWriteThrough`).
- A killed writer on a full pipe returns without waking readers. `Pipe.KilledWriterStrandsReader` is such a
  run, and the last clause of `Pipe.Pipe.PipeWrite` is the exact condition.
- begin_op() admits operations while LOGSIZE has room for ten blocks each, but log_write() keeps one block of
  the log on the disk for the header, and mkfs makes a log of LOGSIZE blocks. What begin_op() reserves is there
  if and only if that log has more than LOGSIZE blocks: `LogSpace.WriteWithinBudget` for the one direction, and
  `LogSpace.SmallLogPanics` for the other, a run of three admitted operations into the panic.
- umalloc's size arithmetic is right only up to 0x7FFFFFF0 bytes. Up to 0xFFFFFFF0 sbrk is asked for a
  negative amount, up to 0xFFFFFFF8 for 0, and from 0xFFFFFFF9 on malloc() returns a block of one unit, which
  has no room at all (`Umalloc.SbrkRequest`, `Umalloc.WrappedUnits`).
- When allocuvm() runs out of memory it gives back every user page, but the page tables of the pages it
  reached stay with the directory until freevm(). `Vm.GrowthLeavesTable` is such a run, and the contract of
  `Vm.PhysMem.Allocuvm` says exactly which stay and when none do.
- `>>` opens its file as `>` does, so the two give the same tree (`ShellRoundTrip.AppendIsTruncate`).

## Model

| member | source | states |
|---|---|---|
| `RedoLog.PutHead` | xv6-rev11/expansion/log.c:98-113 | the header block after the first k stores of write_head() reads back the count and those k block numbers; later words are untouched |
| `RedoLog.HeadRoundTrip` | xv6-rev11/expansion/log.c:84-113 | what read_head() reads is what write_head() wrote, for every list |
| `RedoLog.SealedDisk` | xv6-rev11/expansion/log.c:176-198 | at the commit point the log area lists exactly the new values and no home block has changed |
| `RedoLog.Installed` | xv6-rev11/expansion/log.c:69-82 | after k installs the first k listed blocks hold their log slots and every other block is unchanged |
| `RedoLog.InstalledLogUntouched` | xv6-rev11/expansion/log.c:69-82 | installing never changes the log area, so installing can be repeated |
| `RedoLog.RecoveredBlocks` | xv6-rev11/expansion/log.c:115-122 | recovery leaves an empty log, every logged value at its home and all other home blocks as they were |
| `RedoLog.CrashInRecovery` | xv6-rev11/expansion/log.c:69-122 | a crash after any single-block write of recovery leaves a disk that recovers to the same home blocks |
| `RedoLog.CrashInCommit` | xv6-rev11/expansion/log.c:176-202 | a crash after any single-block write of commit() recovers either to the home blocks before the commit or to those with every logged block replaced; the header write decides which |
| `RedoLog.CommitDone` | xv6-rev11/expansion/log.c:192-202 | a commit that runs to its end leaves every value at home and an empty log |
| `CrashSafety.RunInv` | xv6-rev11/expansion/log.c:124-233 | the invariant of the logging layer (durability, coherence of the buffers, reserved space, whole groups) holds in every state of every run with crashes anywhere |
| `CrashSafety.CrashAtomicity` | xv6-rev11/expansion/log.c:69-202 | in every state of every run the recovered home blocks are the effect of the committed groups, these hold whole operations only, and they include every group whose commit returned |
| `CrashSafety.NoGroupLost` | xv6-rev11/expansion/log.c:143-202 | a group past its commit point is in every later state, in its place |
| `CrashSafety.AllOrNothing` | xv6-rev11/expansion/log.c:124-202 | either no committed group holds a write of an operation, or exactly one does and it holds all of them in order |
| `CrashSafety.LostForGood` | xv6-rev11/expansion/log.c:115-174 | an operation lost in a crash never shows up later |
| `CrashSafety.RunningView` | xv6-rev11/expansion/log.c:204-233 | while the system runs, bread() shows the committed groups and then the open one, and no home block on the disk shows any part of the open group |
| `CrashSafety.ReservedSpace` | xv6-rev11/expansion/log.c:124-141 | logged block numbers are distinct home blocks and, with the unused budgets of outstanding operations, never exceed LOGSIZE |
| `CrashSafety.UnusedBounds` | xv6-rev11/expansion/log.c:132-139 | the unused budgets are between 0 and MAXOPBLOCKS per outstanding operation |
| `LogProgram.Log.constructor` | xv6-rev11/expansion/log.c:53-66 | after a reboot the memory is that of the crashed machine |
| `LogProgram.Log.Bwrite` | xv6-rev11/expansion/bio.c:108-116 | one single-block disk write that cleans the buffer and is recorded as a crash point |
| `LogProgram.Log.WriteLog` | xv6-rev11/expansion/log.c:176-190 | the disk goes through exactly the fill states of a commit, buffers unchanged |
| `LogProgram.Log.WriteHead` | xv6-rev11/expansion/log.c:98-113 | one write that puts the in-memory list into the header block |
| `LogProgram.Log.InstallTrans` | xv6-rev11/expansion/log.c:69-82 | the disk goes through exactly the install states and the listed buffers become clean |
| `LogProgram.Log.ReadHead` | xv6-rev11/expansion/log.c:84-96 | the in-memory list becomes the one of the header block |
| `LogProgram.Log.RecoverDisk` | xv6-rev11/expansion/log.c:115-122 | the writes of recovery are exactly the recovery states, in order, ending in the recovered disk |
| `LogProgram.Log.RecoverFromLog` | xv6-rev11/expansion/log.c:115-122 | is the machine's recovery step, and every disk it goes through is one a crash in recovery can leave |
| `LogProgram.Log.BeginOp` | xv6-rev11/expansion/log.c:124-141 | admits the operation if and only if no commit is running and the log has room for every outstanding budget; admission counts it and is the machine's begin step |
| `LogProgram.Log.LogWrite` | xv6-rev11/expansion/log.c:213-233 | log_write(): both panics exactly, the list and the pinned buffer exactly; for an operation within its budget it is a step of the machine |
| `LogProgram.Log.EndOpStart` | xv6-rev11/expansion/log.c:143-162 | the log.committing panic is unreachable; the last operation out starts the commit and any other is the machine's end step |
| `LogProgram.Log.CommitDisk` | xv6-rev11/expansion/log.c:192-200 | the four phases of a commit write exactly the commit states, in order |
| `LogProgram.Log.Commit` | xv6-rev11/expansion/log.c:192-202 | is the machine's commit step, and every disk it goes through is one a crash in commit can leave |
| `LogProgram.Log.EndOp` | xv6-rev11/expansion/log.c:143-174 | ends the operation; the group commits exactly when it was the last one outstanding |
| `LogProgram.ThreeAtOnce` | xv6-rev11/expansion/log.c:132 | an idle log admits three operations at once, and a fourth one sleeps |
| `LogSpace.BudgetFits` | xv6-rev11/expansion/log.c:124-141 | in every state of a run, an operation within its ten blocks finds the in-core list shorter than LOGSIZE |
| `LogSpace.WriteWithinBudget` | xv6-rev11/expansion/log.c:213-233 | log_write() of an admitted operation within its budget succeeds if and only if the log on disk has a block left besides the header, and always in a log of more than LOGSIZE blocks |
| `LogSpace.SmallLogPanics` | xv6-rev11/expansion/log.c:218 | in a log of LOGSIZE blocks or fewer, three admitted operations that write new blocks, each within its ten, run into the panic, at exactly which block |
| `LogProgram.CommitTraceSplit` | xv6-rev11/expansion/log.c:192-202 | the disks of the four phases of commit() are the crash states of a commit, one for each single-block write |
| `LogProgram.RecoverTraceSplit` | xv6-rev11/expansion/log.c:115-122 | the disks of recovery are its crash states, one for each single-block write |
| `FsLayout.MarkedBits` | xv6-rev11/expansion/fs.c:66-69 | setting or clearing one bitmap bit changes no other bit and no other block |
| `FsLayout.WithInoTable` | xv6-rev11/expansion/fs.c:222-237 | iupdate() stores this inode in the table and changes no other |
| `FsLayout.InoStored` | xv6-rev11/expansion/fs.c:227-236 | an inode written as words of a block reads back |
| `FsBytes.DInoBytes` | xv6-rev11/expansion/fs.h:29-42 | inode inum is the one whose fields stand at bytes 64*(inum mod 8) of block inodestart + inum/8: type, major, minor and nlink in two bytes each, size and thirteen addresses in four, little-endian; and no other inode is |
| `FsBytes.RootInode` | xv6-rev11/expansion/fs.h:29-36 | one inode block given as bytes, and the inode in it |
| `FsBytes.BitBytes` | xv6-rev11/expansion/fs.h:44-48 | block b is marked by bit b mod 8 of byte b/8 of the bitmap, counted on from block bmapstart |
| `FsBytes.FileBytes` | xv6-rev11/expansion/fs.c:374-401 | byte o of a file is byte o mod 512 of the block that addrs[o/512], or entry o/512-12 of the block addrs[12], names; zero where there is none |
| `FsOwnership.UniqueOwner` | xv6-rev11/expansion/fs.c:374-401 | two pointers to the same block are the same pointer of the same inode |
| `FsOwnership.ChangeUnowned` | xv6-rev11/expansion/fs.c:41-51 | blocks that no file uses can change without any effect on any file |
| `FsOwnership.LinkInInode` | xv6-rev11/expansion/fs.c:379-389 | storing a fresh zeroed block in an empty pointer of the inode keeps ownership and every byte of every file |
| `FsOwnership.IndirectEntry` | xv6-rev11/expansion/fs.c:391-394 | storing an entry of an indirect block changes that pointer and no other pointer of any inode |
| `FsOwnership.LinkInIndirect` | xv6-rev11/expansion/fs.c:390-397 | storing a fresh zeroed block in an empty indirect entry keeps ownership and every byte of every file |
| `FsProgram.BallocKeeps` | xv6-rev11/expansion/fs.c:55-78 | an unmarked block is never owned and never metadata; marking and zeroing it changes no file |
| `FsProgram.Fs.constructor` | xv6-rev11/expansion/fs.c:299-312 | blocks with the inodes in core and no transaction yet |
| `FsProgram.Fs.Begin` | xv6-rev11/expansion/log.c:124-140 | a new transaction starts with nothing logged |
| `FsProgram.Fs.LogWrite` | xv6-rev11/expansion/log.c:204-233 | one changed buffer: the calls so far lead from the blocks at the start of the transaction to those now and name exactly the blocks logged |
| `FsProgram.Fs.Bzero` | xv6-rev11/expansion/fs.c:41-51 | the block becomes zero and is logged |
| `FsProgram.Fs.Balloc` | xv6-rev11/expansion/fs.c:55-78 | the lowest unmarked block, now marked and zeroed; failure only when every block is marked |
| `FsProgram.Fs.Bfree` | xv6-rev11/expansion/fs.c:80-96 | clears the bit; the panic happens exactly for an unmarked block |
| `FsProgram.Fs.Iupdate` | xv6-rev11/expansion/fs.c:217-237 | the 64 bytes of the inode's place in its block are the fields of the in-core inode at the offsets of struct dinode, and no other byte of the disk changes; all files, pointers and other entries are unchanged |
| `FsProgram.Fs.IndirectBlock` | xv6-rev11/expansion/fs.c:390-397 | the entry's block, allocated if missing, with that pointer set and no other, files and inode table unchanged, the exact blocks logged, and failure only when no block is free |
| `FsProgram.Fs.InodeBlock` | xv6-rev11/expansion/fs.c:379-389 | the same for a pointer in the inode itself, direct or to the indirect block |
| `FsProgram.Fs.Bmap` | xv6-rev11/expansion/fs.c:374-401 | the block of the file at bn, from addrs[bn] or from bytes 4*(bn-12) of the indirect block, allocated if missing; bitmap and inodes still agree, no file's bytes change, what is logged is stated exactly, and it takes exactly the blocks that are missing or fails because fewer are free |
| `FsProgram.Fs.WriteBlock` | xv6-rev11/expansion/fs.c:500-504 | replaces exactly the chunk's bytes of that file |
| `FsProgram.Fs.WriteLoop` | xv6-rev11/expansion/fs.c:499-505 | after each round exactly the bytes so far are replaced and the footprint of logged blocks is bounded; it gets to the end if and only if enough blocks are free |
| `FsProgram.Fs.GrowTo` | xv6-rev11/expansion/fs.c:507-510 | the new size is in core and on disk, and no byte changes |
| `FsProgram.Fs.Writei` | xv6-rev11/expansion/fs.c:480-512 | exactly bytes [off, off+n) of the file are replaced, the size grows as needed, every other file is unchanged, bitmap and inodes agree; -1 exactly in the refused cases, and balloc()'s panic if and only if the absent blocks of the range and the indirect block it needs are more than the free ones |
| `FsProgram.RoomLeft` | xv6-rev11/expansion/fs.c:55-96 | free blocks and owned blocks add up to the data area |
| `FsProgram.Fs.Readi` | xv6-rev11/expansion/fs.c:451-477 | returns exactly the file's bytes of the range, cut at the size; on a file without holes it changes nothing and cannot panic |
| `FsProgram.Fs.FreePointer` | xv6-rev11/expansion/fs.c:416-419 | frees exactly that block; the freeing-free-block panic is unreachable |
| `FsProgram.Fs.FreeDirect` | xv6-rev11/expansion/fs.c:415-420 | frees exactly the direct blocks of the inode |
| `FsProgram.Fs.FreeIndirect` | xv6-rev11/expansion/fs.c:422-432 | frees exactly the indirect block and its entries |
| `FsProgram.Fs.Itrunc` | xv6-rev11/expansion/fs.c:403-436 | frees exactly the inode's blocks and never panics; all other files keep their bytes, the table entry is written, and it logs the inode's block and bitmap blocks only |
| `FsProgram.WriteDataBlock` | xv6-rev11/expansion/fs.c:500-503 | writing an owned data block changes that file at that block and nothing else |
| `FsProgram.DropPointer` | xv6-rev11/expansion/fs.c:416-419 | clearing a pointer releases its block from exactly that owner |
| `FsProgram.DropIndirect` | xv6-rev11/expansion/fs.c:422-432 | clearing the indirect pointer releases its block and all its entries |
| `FileWrite.WrittenHoleFree` | xv6-rev11/expansion/fs.c:480-512 | writei() leaves no hole in any file that had none |
| `FileWrite.WriteThrough` | xv6-rev11/expansion/fs.c:480-512 | writei() keeps the table entry equal to the in-core inode if and only if the file grew or no pointer of the inode was missing in the range |
| `FileWrite.HoleNotWrittenThrough` | xv6-rev11/expansion/fs.c:371-512 | a concrete run where it does not: one byte into the hole of a file of one absent block |
| `FileWrite.HoleFreeWriteThrough` | xv6-rev11/expansion/fs.c:480-512 | on a file without holes the table entry always equals the in-core inode afterwards |
| `FileWrite.TransactionFits` | xv6-rev11/expansion/file.c:127-145 | one chunk of filewrite() on a file without holes logs at most 10 distinct blocks: 4 data, 4 bitmap, 1 indirect, 1 inode |
| `FileWrite.TransactionBound` | xv6-rev11/expansion/file.c:127-145 | on a file with holes, which writei() never makes, the bound is 11 |
| `FileWrite.TruncFits` | xv6-rev11/expansion/fs.c:403-436 | what itrunc() may log fits a transaction when the disk has fewer than 36864 blocks |
| `FileWrite.WriteThenRead` | xv6-rev11/expansion/fs.c:451-512 | a readi() of the same range after a writei() returns what was written |
| `FileWrite.Transaction` | xv6-rev11/expansion/file.c:140-145 | one begin_op/end_op section of filewrite() on any inode: it keeps to the log budget, changes only blocks that it logs and replaces exactly its chunk, and each other outcome is characterised exactly |
| `FileWrite.Filewrite` | xv6-rev11/expansion/file.c:126-153 | the chunks together replace exactly the written prefix, there is one transaction for each 1536 bytes, every transaction keeps to the budget and no other block of the disk changes; failure is exactly at a chunk that writei() refuses and a panic only a full disk; a device's result is passed on |
| `FsCrash.WriteEffect` | xv6-rev11/expansion/fs.c:403-512 | a completed write or truncation takes a sound file system to a sound one whose files differ in exactly that operation |
| `FsCrash.TruncatedTable` | xv6-rev11/expansion/fs.c:403-436 | after itrunc() the inode table holds the in-core inodes, and no other file has lost a block |
| `FsCrash.TruncatedFiles` | xv6-rev11/expansion/fs.c:403-436 | the file is empty and every other file is as it was |
| `FsCrash.HomeEffect` | xv6-rev11/expansion/fs.c:403-512 | the same for the blocks outside the log, whatever the log holds |
| `FsCrash.DoesEffect` | xv6-rev11/expansion/file.c:127-145 | so does any sequence of operations |
| `FsCrash.HomeDecides` | xv6-rev11/expansion/log.c:53-66 | the files depend on blocks outside the log only |
| `FsCrash.WriteFile` | xv6-rev11/expansion/fs.c:480-512 | a completed writei() is such a write, the in-core inodes remain the inode table, and a chunk of filewrite() logs at most 10 blocks |
| `FsCrash.TruncFile` | xv6-rev11/expansion/fs.c:403-436 | an itrunc() is such an operation, and fits a transaction when the bitmap has at most 9 blocks |
| `FsLog.ApplyCalls` | xv6-rev11/expansion/log.c:204-233 | log_write() calls of an operation change the open group as they changed the buffers |
| `FsLog.CountedMore` | xv6-rev11/expansion/log.c:213-233 | each call is within the operation's budget when its calls name at most MAXOPBLOCKS blocks |
| `FsLog.WriteShows` | xv6-rev11/expansion/fs.c:403-512 | a completed writei() or itrunc() whose calls are logged is one more operation of the open group |
| `FsLog.PastCommit` | xv6-rev11/expansion/log.c:143-202 | a commit makes the file writes of the open group those of one committed group |
| `FsLog.PastCrash` | xv6-rev11/expansion/log.c:69-202 | a crash at any step or after any write of a commit leaves a history whose groups are a prefix |
| `FsLog.PastRecoveryCut` | xv6-rev11/expansion/log.c:115-122 | so does a crash after any write of a recovery |
| `FsLog.HistoryFiles` | xv6-rev11/expansion/log.c:69-202 | in every state of every history of the system, recovery gives a sound file system with exactly the file writes of the groups committed by then |
| `FsLog.CrashedFiles` | xv6-rev11/expansion/log.c:69-202 | after a crash anywhere the files hold a prefix of the groups, each write whole, and every group whose end_op() had returned |
| `FsLog.ShownFiles` | xv6-rev11/expansion/log.c:204-233 | while the system runs, the files that fs.c sees are those that bread() shows and hold the committed writes and then those of the open group |
| `FsLog.FreshDisk` | xv6-rev11/expansion/log.c:53-66 | a sound disk with an empty log starts a history without groups |
| `FsLog.Boot` | xv6-rev11/expansion/log.c:53-66 | initlog() on what a crash left: the file system is sound again and the history goes on |
| `FsLog.FileSystem.constructor` | xv6-rev11/expansion/log.c:53-66 | the system after a boot is idle and valid |
| `FsLog.FileSystem.Begin` | xv6-rev11/expansion/log.c:124-140 | admitted exactly when the log has space reserved for it; nothing visible changes |
| `FsLog.FileSystem.LogOne` | xv6-rev11/expansion/log.c:213-233 | one log_write() within the budget, or its panic when the log is full |
| `FsLog.FileSystem.LogAll` | xv6-rev11/expansion/log.c:213-233 | every log_write() of an operation is a step of the log, within the budget and at no other operation's cost; a panic only when the log is full |
| `FsLog.FileSystem.Write` | xv6-rev11/expansion/file.c:140-145 | one writei() in a transaction, others outstanding: the write joins the open group, or nothing changes, or the system stops with its history intact; the others' counts are unchanged, and with room in the log it panics if and only if too few blocks are free |
| `FsLog.FileSystem.Truncate` | xv6-rev11/expansion/fs.c:403-436 | one itrunc() in a transaction: the truncation joins the open group; a panic only when the log is full |
| `FsLog.FileSystem.End` | xv6-rev11/expansion/log.c:143-174 | the last operation out commits the open writes as one group and they are acknowledged |
| `FsLog.FileSystem.WriteAlone` | xv6-rev11/expansion/file.c:140-145 | transactions one after another: each completed write is one durable group; a panic if and only if too few blocks are free |
| `FsLog.FileSystem.TruncateAlone` | xv6-rev11/expansion/fs.c:333-353 | a truncation in a transaction of its own is one durable group |
| `FsLog.FileSystem.BeginBoth` | xv6-rev11/expansion/log.c:124-140 | two operations are admitted to an idle log |
| `FsLog.FileSystem.EndBoth` | xv6-rev11/expansion/log.c:143-174 | the first end_op() commits nothing, the second commits both operations as one group |
| `FsLog.FileSystem.WriteBoth` | xv6-rev11/expansion/log.c:124-174 | two overlapping transactions that both begin before either writes become one durable group of two file writes |
| `FsLog.WriteOnce` | xv6-rev11/expansion/file.c:117-156 | a run from a new disk to a durable write |
| `FsLog.SmallDiskReady` | xv6-rev11/expansion/log.c:53-66 | a disk that can be booted and written: sound, with an empty log |
| `BufRing.Unlink` | xv6-rev11/expansion/bio.c:132-133 | unlinking keeps a circular doubly linked list of the other buffers in order |
| `BufRing.PushFront` | xv6-rev11/expansion/bio.c:134-137 | insertion at the head keeps the list circular and puts the buffer first |
| `Bio.Recycled` | xv6-rev11/expansion/bio.c:78-91 | recycling an unreferenced clean buffer for an uncached block does not change any block's contents |
| `Bio.Modified` | xv6-rev11/expansion/bio.c:95-106 | changing a locked buffer changes that block and no other |
| `Bio.ReadIn` | xv6-rev11/expansion/bio.c:95-106 | reading an invalid buffer in is invisible |
| `Bio.WrittenBack` | xv6-rev11/expansion/bio.c:108-116 | writing a buffer back is invisible and cleans it |
| `Bio.BufCache.constructor` | xv6-rev11/expansion/bio.c:38-56 | the list holds every buffer once and none is in use |
| `Bio.BufCache.FindCached` | xv6-rev11/expansion/bio.c:66-76 | the buffer that caches the block, or proof that none does |
| `Bio.BufCache.FindFree` | xv6-rev11/expansion/bio.c:78-92 | the least recently released buffer among those with no reference and not dirty, or that every buffer is referenced or dirty |
| `Bio.BufCache.Bget` | xv6-rev11/expansion/bio.c:58-93 | at most one buffer per block; the cached one gains a reference, else the oldest with no reference and not dirty is recycled; the panic happens exactly when the block is not cached and every buffer is referenced or dirty; contents are unchanged |
| `Bio.BufCache.Lock` | xv6-rev11/expansion/sleeplock.c:22-32 | taking the sleep lock of a referenced buffer changes no contents |
| `Bio.BufCache.Iderw` | xv6-rev11/expansion/memide.c:35-60 | panics exactly in the listed cases; otherwise synchronises the buffer and the disk block in the direction of B_DIRTY |
| `Bio.BufCache.Fill` | xv6-rev11/expansion/bio.c:95-106 | the locked buffer shows the latest contents of its block, whichever of cache and disk held them |
| `Bio.BufCache.Modify` | xv6-rev11/expansion/bio.c:95-106 | changes the contents of that block only |
| `Bio.BufCache.Pin` | xv6-rev11/expansion/log.c:231-231 | a dirty buffer is never recycled; contents unchanged |
| `Bio.BufCache.Bwrite` | xv6-rev11/expansion/bio.c:108-116 | writes the buffer to its block: what was read stays visible, what was not read takes the place of its block; both panics exactly |
| `Bio.BufCache.Brelse` | xv6-rev11/expansion/bio.c:118-141 | the last reference moves the buffer to the front; the cache stays right if and only if the holder has logged or written what it changed; the panic exactly |
| `Bio.BufCache.ToFront` | xv6-rev11/expansion/bio.c:130-138 | the list stays a permutation of all buffers in order of last release |
| `Bio.MadeValid` | xv6-rev11/expansion/bio.c:95-106 | an invalid buffer that becomes valid changes its own block of the map only |
| `Bio.FirstGet` | xv6-rev11/expansion/bio.c:38-93 | on the cache that binit() leaves bget() has a buffer for every block |
| `LogCache.ShowsView` | xv6-rev11/expansion/bio.c:95-106 | the map that the buffers stand for is the disk overlaid with the blocks the log has pinned |
| `LogCache.Bread` | xv6-rev11/expansion/bio.c:95-106 | bread() under the log: the locked buffer shows the pinned contents or the disk's; pinned blocks and disk are unchanged; the panic exactly when the block is not cached and every buffer is referenced or dirty |
| `LogCache.LogBlock` | xv6-rev11/expansion/log.c:213-233 | a logged change pins the block with its new contents and nothing else; it fails exactly where bread() panics |
| `LogCache.WriteBlock` | xv6-rev11/expansion/bio.c:108-116 | a written change is on the disk and its block is no longer pinned; it fails exactly where bread() panics |
| `LogCache.CoupledRead` | xv6-rev11/expansion/log.c:69-122 | what log.c reads through the cache is what its own model reads; it fails exactly where bread() panics |
| `LogCache.CoupledBwrite` | xv6-rev11/expansion/log.c:69-122 | a bwrite() of log.c keeps its disk and pinned blocks those of the cache |
| `LogCache.CoupledLogWrite` | xv6-rev11/expansion/log.c:213-233 | so does a log_write() |
| `LogCache.AllPinned` | xv6-rev11/expansion/bio.c:78-92 | while no process holds a buffer, bread() panics if and only if the log has pinned as many blocks as there are buffers and the block is none of them |
| `FreeList.InsertUnits` | xv6-rev11/expansion/umalloc.c:33-42 | free()'s insertion with coalescing adds exactly the block's units |
| `FreeList.InsertSorted` | xv6-rev11/expansion/umalloc.c:29-42 | after insertion the list is ordered by address, disjoint, and no two blocks touch |
| `FreeList.CarveUnits` | xv6-rev11/expansion/umalloc.c:75-84 | malloc()'s carving splits the units into the block returned and the rest |
| `FreeList.CanonicalList` | xv6-rev11/expansion/umalloc.c:24-44 | a set of free units has exactly one such list |
| `Umalloc.SbrkRequest` | xv6-rev11/expansion/umalloc.c:52-69 | the 32-bit size computation asks sbrk for the intended amount if and only if nbytes is at most 0x7FFFFFF0; exactly when it asks for a negative amount and when for 0 |
| `Umalloc.WrappedUnits` | xv6-rev11/expansion/umalloc.c:69 | the block has room for nbytes if and only if nbytes is at most 0xFFFFFFF8; the sizes above wrap to one unit |
| `Umalloc.NUnits` | xv6-rev11/expansion/umalloc.c:69 | the least number of units that hold a header and nbytes |
| `Umalloc.FirstFits` | xv6-rev11/expansion/umalloc.c:74-88 | the block that the search stops at is the first past freep that is large enough, and gives up its last units |
| `Umalloc.FreeIsTheRest` | xv6-rev11/expansion/umalloc.c:24-90 | the free units are exactly what the live blocks leave of the heap |
| `Umalloc.Allocator.constructor` | xv6-rev11/expansion/umalloc.c:21-22 | before the first call the allocator is valid, with no list and no heap |
| `Umalloc.Allocator.Search` | xv6-rev11/expansion/umalloc.c:30-32 | terminates at the free block after which the block belongs, wherever freep points |
| `Umalloc.Allocator.Relink` | xv6-rev11/expansion/umalloc.c:33-43 | the header writes realise the insertion and touch no live block's header |
| `Umalloc.Allocator.Free` | xv6-rev11/expansion/umalloc.c:24-44 | the block's units move to the free list; list and live blocks stay disjoint and cover the heap |
| `Umalloc.Allocator.Morecore` | xv6-rev11/expansion/umalloc.c:46-61 | fails without effect, or adds exactly the new units as free memory, as many as asked for and at least 4096 |
| `Umalloc.Allocator.Take` | xv6-rev11/expansion/umalloc.c:75-84 | the carved block is live, at a fresh address, and the rest of the list is unchanged |
| `Umalloc.Allocator.InitList` | xv6-rev11/expansion/umalloc.c:70-73 | the first call makes the one-element circular list of base |
| `Umalloc.Allocator.Malloc` | xv6-rev11/expansion/umalloc.c:63-90 | 0 exactly when every free block is too small and sbrk fails; otherwise a fresh live block of the units computed, from the tail of the first block past freep that is large enough; at most one morecore(); the search ends |
| `Umalloc.MallocThenFree` | xv6-rev11/expansion/umalloc.c:24-90 | malloc() from an existing block followed by free() restores the very same free list |
| `Proc.MildKeeps` | xv6-rev11/expansion/proc.c:322-392 | scheduling, yielding, waking and killing keep every process's parent and every waiting parent's guarantee |
| `Proc.ExitParents` | xv6-rev11/expansion/proc.c:252-265 | after exit() every process but init still has a parent that can wait for it |
| `Proc.ExitZombies` | xv6-rev11/expansion/proc.c:252-265 | after exit() nobody is asleep in wait() with a zombie child |
| `Proc.ZombieReapable` | xv6-rev11/expansion/proc.c:227-312 | every zombie has a parent that can wait for it and is not asleep over it |
| `Proc.ProcTable.constructor` | xv6-rev11/expansion/proc.c:118-154 | the table after userinit() satisfies the invariant |
| `Proc.ProcTable.Wakeup1` | xv6-rev11/expansion/proc.c:456-465 | every process asleep on that channel becomes RUNNABLE, and nothing else in the table changes |
| `Proc.ProcTable.Wakeup` | xv6-rev11/expansion/proc.c:467-474 | the same under the lock, keeping the invariant |
| `Proc.ProcTable.Schedule` | xv6-rev11/expansion/proc.c:322-345 | only RUNNABLE becomes RUNNING |
| `Proc.ProcTable.Yield` | xv6-rev11/expansion/proc.c:384-392 | the running process becomes RUNNABLE |
| `Proc.ProcTable.SleepOn` | xv6-rev11/expansion/proc.c:415-452 | the process sleeps on that channel; the wait() guarantee is kept |
| `Proc.ProcTable.Kill` | xv6-rev11/expansion/proc.c:476-497 | the first process with that pid is marked, and RUNNABLE if it slept; nothing else changes; false exactly when there is none |
| `Proc.ProcTable.Exit` | xv6-rev11/expansion/proc.c:224-268 | every child's parent becomes init, sleepers on the parent's channel, and on init's if a child was a zombie, become RUNNABLE, the caller a zombie, and nothing else changes; init panics |
| `Proc.ProcTable.PassChildren` | xv6-rev11/expansion/proc.c:255-262 | each child of the caller passes to init, which is woken if one of them is a zombie |
| `Proc.ProcTable.Wait` | xv6-rev11/expansion/proc.c:270-312 | reaps a zombie child if and only if there is one, and clears exactly its entry; fails exactly without children or when killed, and otherwise sleeps with no zombie child |
| `Proc.ProcTable.AllocProc` | xv6-rev11/expansion/proc.c:73-92 | an unused entry becomes an embryo with a new pid |
| `Proc.ProcTable.SetParent` | xv6-rev11/expansion/proc.c:200-200 | an embryo's parent is the process that is making it |
| `Proc.ProcTable.ForkDone` | xv6-rev11/expansion/proc.c:215-219 | the embryo becomes RUNNABLE with a parent that can wait for it |
| `Proc.ProcTable.ForkFailed` | xv6-rev11/expansion/proc.c:192-198 | the entry is unused again and nothing else changed |
| `SleepLock.RunInv` | xv6-rev11/expansion/sleeplock.c:22-42 | the invariant of sleep locks over sleep() and wakeup() holds in every state of every run, with kill() at any time |
| `SleepLock.OneHolder` | xv6-rev11/expansion/sleeplock.c:22-42 | at most one process holds the lock, in every run |
| `SleepLock.SleepingMeansHeld` | xv6-rev11/expansion/proc.c:415-474 | with neither lock held by anyone, a sleeper on the sleep lock implies that it is held |
| `SleepLock.SleeperWillBeWoken` | xv6-rev11/expansion/proc.c:415-474 | even inside a release, a sleeper whose lock is free is about to be woken |
| `SleepLock.DeadlockFree` | xv6-rev11/expansion/sleeplock.c:22-42 | while some process is inside, some process can step |
| `Pipe.Pipe.constructor` | xv6-rev11/expansion/pipe.c:22-57 | the new pipe is empty and open at both ends |
| `Pipe.Pipe.Counters` | xv6-rev11/expansion/pipe.c:85-85 | the wrapping counters tell empty and full apart |
| `Pipe.Pipe.Put` | xv6-rev11/expansion/pipe.c:93-93 | the byte joins the unread bytes at the end, although the counter wraps at 2^32 |
| `Pipe.Pipe.Get` | xv6-rev11/expansion/pipe.c:116-116 | the byte taken is the oldest unread one |
| `Pipe.Pipe.PipeWrite` | xv6-rev11/expansion/pipe.c:77-98 | stores exactly a prefix of the bytes, sleeps only when the pipe is full and open for reading, and says exactly when sleeping readers stay justified |
| `Pipe.Pipe.PipeRead` | xv6-rev11/expansion/pipe.c:100-121 | returns the oldest bytes, sleeps exactly when the pipe is empty and open for writing, and wakes every writer |
| `Pipe.Pipe.PipeClose` | xv6-rev11/expansion/pipe.c:59-75 | closes one end and wakes the other; the pipe is freed exactly when both are closed |
| `Pipe.Pipe.Kill` | xv6-rev11/expansion/proc.c:476-497 | a killed sleeper leaves the pipe's queues |
| `Pipe.KilledWriterStrandsReader` | xv6-rev11/expansion/pipe.c:85-92 | a concrete run: a writer killed on a full pipe leaves a reader asleep over unread bytes |
| `ProducerConsumer.RunInv` | threads-cv/pc.c:26-77 | the invariant (ring contents, counters, and enough woken consumers for the full slots) holds in every state of every run, spurious wakeups included |
| `ProducerConsumer.NotAllAsleep` | threads-cv/pc.c:39-77 | the unfinished threads are never all asleep |
| `ProducerConsumer.DeadlockFree` | threads-cv/pc.c:39-77 | some thread can take a real step until all are done, for any buffer with a slot, any loop count, and any number of consumers or a buffer that holds everything |
| `ProducerConsumer.InOrder` | threads-cv/pc.c:26-77 | values leave in the order 0..loops-1 and then the markers |
| `ProducerConsumer.AllTaken` | threads-cv/pc.c:39-77 | at the end every consumer got exactly one marker and, if there are consumers, everything made was taken |
| `ProducerConsumer.RunEnds` | threads-cv/pc.c:26-77 | no run goes on forever but for spurious wakeups: its real steps are at most 8 for each value and marker, 2 for each thread and 2 for each spurious wakeup |
| `ProducerConsumer.Completes` | threads-cv/pc.c:39-77 | every run goes on to the end of all threads |
| `ProducerConsumer.Deadlocks` | threads-cv/pc.c:39-77 | in every other configuration with something to do there is a run into a deadlock |
| `Zemaphore.RefinesSemaphore` | threads-sema/zemaphore.h:16-29 | every step of every run is a step of an atomic counting semaphore |
| `Zemaphore.NoLostWakeup` | threads-sema/zemaphore.h:16-29 | with a thread asleep, at least value threads are awake to take what is there |
| `Zemaphore.Progress` | threads-sema/zemaphore.h:16-29 | while value is positive and a thread waits, some thread can step |
| `Zemaphore.StepStages` | threads-sema/zemaphore.h:16-29 | every step inside a call uses up one of the steps that are left before some call returns; a return gives back at most four and a spurious wakeup two |
| `RwLock.RunInv` | threads-sema/rwlock.c:21-49 | the invariant over both semaphores and the reader count holds in every state of every run |
| `RwLock.Exclusion` | threads-sema/rwlock.c:27-49 | a writer is never inside with a reader or another writer |
| `RwLock.ReadersShare` | threads-sema/rwlock.c:27-41 | while readers are inside, the write lock is taken once for all of them |
| `RwLock.DeadlockFree` | threads-sema/rwlock.c:27-49 | some thread can step until all are finished |
| `RwLock.RunEnds` | threads-sema/rwlock.c:27-49 | no run is longer than the rounds the threads have to go allow, without any fairness |
| `RwLock.Completes` | threads-sema/rwlock.c:27-49 | every run goes on to a state in which all threads are finished |
| `RwLock.ReadersTogether` | threads-sema/rwlock.c:27-33 | any number of readers can be inside at once: a run in which all are |
| `ZemRwLock.RunInv` | threads-sema/rwlock.c:21-49 | the lock on the two real semaphores: both their invariants and the lock's hold in every interleaving |
| `ZemRwLock.RefinesRwLock` | threads-sema/zemaphore.h:10-36 | every run of it is, through the counts, a run of the lock over atomic semaphores |
| `ZemRwLock.Exclusion` | threads-sema/rwlock.c:27-49 | a writer is never inside with a reader or another writer, with every step of Zem_wait and Zem_post interleaved |
| `ZemRwLock.DeadlockFree` | threads-sema/rwlock.c:27-49 | some thread can take a step that is not a spurious wakeup until all are finished |
| `ZemRwLock.RunEnds` | threads-sema/rwlock.c:21-49 | no run goes on forever but for spurious wakeups, with every step of Zem_wait and Zem_post counted |
| `ZemRwLock.Completes` | threads-sema/rwlock.c:21-49 | every run goes on to a state in which all threads are finished |
| `FreePages.Pushed` | xv6-rev11/expansion/kalloc.c:67-74 | a freed page joins the list and leaves its owner; free and owned pages still partition memory |
| `FreePages.Popped` | xv6-rev11/expansion/kalloc.c:89-91 | the page taken leaves the list and is owned |
| `FreePages.SameFree` | xv6-rev11/expansion/kalloc.c:59-95 | equal ownership means the same free pages, each listed once |
| `PageTable.EntryWritten` | xv6-rev11/expansion/vm.c:69-73 | writing one page table entry changes that entry of that directory and no other entry of any directory |
| `PageTable.MapPage` | xv6-rev11/expansion/vm.c:69-73 | mapping a held page keeps every page reached at most once |
| `PageTable.UnmapPage` | xv6-rev11/expansion/vm.c:266-276 | freeing a user page and clearing its entry changes that mapping only |
| `PageTable.AddTable` | xv6-rev11/expansion/vm.c:45-52 | a zeroed page as a new page table maps and unmaps nothing |
| `PageTable.DropDir` | xv6-rev11/expansion/vm.c:290-297 | freeing a directory without user pages leaves every other address space as it was |
| `AddressSpace.KmapEntries` | xv6-rev11/expansion/vm.c:103-115 | the rows of kmap[] write exactly the declared kernel mappings |
| `Vm.PhysMem.constructor` | xv6-rev11/expansion/kalloc.c:31-44 | before kinit every page past the kernel is allocated |
| `Vm.PhysMem.Kfree` | xv6-rev11/expansion/kalloc.c:59-77 | the page returns to the list, filled with bytes 1 after the link; its panics are unreachable for owned pages |
| `Vm.PhysMem.Kalloc` | xv6-rev11/expansion/kalloc.c:82-95 | a free page, now owned by the caller; 0 exactly when none is free |
| `Vm.PhysMem.Freerange` | xv6-rev11/expansion/kalloc.c:46-53 | frees exactly the whole pages in the range |
| `Vm.PhysMem.Walkpgdir` | xv6-rev11/expansion/vm.c:32-55 | the page table with the entry, added if asked; nothing is mapped or unmapped; every directory entry that is present permits user and write accesses; 0 exactly when missing and not allocatable |
| `Vm.PhysMem.NewTablePage` | xv6-rev11/expansion/vm.c:45-53 | one zeroed page table whose directory entry has the flags P, W and U, or nothing changes |
| `Vm.PhysMem.Mappages` | xv6-rev11/expansion/vm.c:57-80 | maps exactly the pages of the range, or exactly a prefix when no page is left for a page table or when the next page is mapped already, which is exactly when it panics; pages taken are exactly the page tables added |
| `Vm.PhysMem.Setupkvm` | xv6-rev11/expansion/vm.c:117-136 | a directory with exactly the kernel mappings if and only if 65 pages are free; through it a user reaches nothing, and the kernel reads all of physical memory and the devices and writes all but its text; otherwise 0 with every page back on the free list |
| `Vm.PhysMem.MapKernelRow` | xv6-rev11/expansion/vm.c:129-134 | one row of kmap[] mapped, or memory is short of what all rows need |
| `Vm.PhysMem.Allocuvm` | xv6-rev11/expansion/vm.c:219-249 | if and only if enough pages are free for the new pages and the missing page tables, every access to the new pages, a user's writes included, is allowed and finds them zero, every other access is as before, and exactly those pages are taken; otherwise exactly the page tables of the pages reached stay, all other pages are back, and nothing at all is left if and only if the directory had those page tables before |
| `Vm.PhysMem.GrowPage` | xv6-rev11/expansion/vm.c:233-247 | one round, with the exact state that each of its two failures leaves |
| `Vm.GrowthLeavesTable` | xv6-rev11/expansion/vm.c:219-249 | a concrete run: three free pages, eight asked for, and a page table stays |
| `AddressSpace.GivenUp` | xv6-rev11/expansion/vm.c:234-246 | what the failing call has given back and what stays |
| `AddressSpace.SameTables` | xv6-rev11/expansion/vm.c:219-249 | no page has a new owner if and only if the directory has no new page table |
| `Vm.PhysMem.Deallocuvm` | xv6-rev11/expansion/vm.c:251-279 | with its skip over missing page tables it unmaps and frees exactly the pages a page-by-page walk would, as many as were mapped; any access to them faults and every other access is as before |
| `Vm.PhysMem.Freevm` | xv6-rev11/expansion/vm.c:281-298 | frees exactly the directory, its page tables and its user pages; no other address space changes |
| `Vm.PhysMem.Copyuvm` | xv6-rev11/expansion/vm.c:313-345 | with m the first page below sz that the parent lacks: it panics if and only if there is such a page and memory suffices for the m before it, and succeeds if and only if there is none and memory suffices; then the child may read and write what the parent may, and finds the same contents in pages that were free, the parent is unchanged and the pages taken are counted exactly; on failure every page is back on the free list |
| `Vm.PhysMem.CopyPage` | xv6-rev11/expansion/vm.c:325-339 | one round: page v is copied, or the parent lacks it, or memory is short |
| `AddressSpace.CopyNeeds` | xv6-rev11/expansion/vm.c:313-345 | the pages copyuvm() takes: 65 for the kernel part, one per page and one per 1024 pages |
| `AddressSpace.KernelTablesCard` | xv6-rev11/expansion/vm.c:117-136 | the kernel mappings need the directory and 64 page tables |
| `AddressSpace.BudgetNoTable` | xv6-rev11/expansion/vm.c:69-70 | when a page is left but none for its page table, memory is short of what the whole range needs |
| `Vm.PhysMem.Discard` | xv6-rev11/expansion/vm.c:342-344 | freeing an unfinished copy restores ownership, contents and free pages |
| `Mmu.EntryDecides` | xv6-rev11/expansion/vm.c:32-55 | in every state of the page tables an access is decided by the page table entry alone, since no directory entry forbids it |
| `Mmu.KernelReached` | xv6-rev11/expansion/vm.c:102-124 | no user access to the kernel's pages; reads of all of them and writes outside the text and read-only data reach the physical page they should |
| `Mmu.CopyReached` | xv6-rev11/expansion/vm.c:313-345 | whatever access the parent has to a copied page the child has too, and it reaches a copy |
| `Mmu.GrownReached` | xv6-rev11/expansion/vm.c:219-249 | every access to a page added by allocuvm() is allowed and reaches a zero page; other pages as before |
| `Mmu.ShrunkReached` | xv6-rev11/expansion/vm.c:251-279 | every access to a page removed by deallocuvm() faults; other pages as before |
| `ShellLexer.LexExact` | xv6-rev11/expansion/sh.c:265-308 | these are the tokens of a line if and only if the line is these tokens with white space around them, where two words and two > do not touch |
| `ShellLexer.LexSpaced` | xv6-rev11/expansion/sh.c:265-308 | tokens written with any white space are read back |
| `ShellLexer.GapsOf` | xv6-rev11/expansion/sh.c:265-308 | every line is its tokens with white space around them |
| `ShellLanguage.ParseExact` | xv6-rev11/expansion/sh.c:327-446 | a line is accepted, with this tree, if and only if its tokens are those of a text of the language that means the tree: words and redirections in any order, at most 9 words, blocks with redirections after them, pipelines, & and ; |
| `ShellLanguage.LineAccepted` | xv6-rev11/expansion/sh.c:344-446 | every text of the language is accepted with its meaning |
| `ShellLanguage.LineRead` | xv6-rev11/expansion/sh.c:344-446 | what is accepted is a text of the language followed by what is left |
| `ShellLanguage.ParseUsesAll` | xv6-rev11/expansion/sh.c:336-339 | no token of an accepted line is dropped, repeated or left over: each word, file name and operator is in the tree as often as in the line, and every parenthesis has its partner |
| `ShellRoundTrip.LexRender` | xv6-rev11/expansion/sh.c:265-308 | reading printed tokens back gives the tokens |
| `ShellRoundTrip.RoundTrip` | xv6-rev11/expansion/sh.c:327-446 | parsing the printed text of any command tree with at most 9 words per EXEC gives the tree |
| `ShellRoundTrip.ParsedTrees` | xv6-rev11/expansion/sh.c:327-446 | a tree is the result of some text if and only if it has at most 9 words per EXEC, proper words and the two kinds of redirection |
| `ShellRoundTrip.AppendIsTruncate` | xv6-rev11/expansion/sh.c:380-395 | every text gives the same tree with each >> written as > |
| `ShellParser.Parser.constructor` | xv6-rev11/expansion/sh.c:327-334 | the cursor starts at the beginning of the line |
| `ShellParser.Parser.SkipSpaces` | xv6-rev11/expansion/sh.c:272-273 | the next character that is no white space |
| `ShellParser.Parser.Gettoken` | xv6-rev11/expansion/sh.c:265-308 | returns the first token with its exact span and leaves the remaining tokens |
| `ShellParser.Parser.Peek` | xv6-rev11/expansion/sh.c:310-320 | says whether the next token starts with one of the characters; no token is consumed |
| `ShellParser.Parser.Parseredirs` | xv6-rev11/expansion/sh.c:374-397 | agrees with the grammar on every input, panics included |
| `ShellParser.Parser.Parseblock` | xv6-rev11/expansion/sh.c:399-413 | agrees with the grammar on every input, panics included |
| `ShellParser.Parser.Parseexec` | xv6-rev11/expansion/sh.c:415-446 | agrees with the grammar on every input, with words stored in the EXEC node inside the redirections and the limit on words |
| `ShellParser.Parser.Parsepipe` | xv6-rev11/expansion/sh.c:361-372 | agrees with the grammar on every input; terminates |
| `ShellParser.Parser.Parseline` | xv6-rev11/expansion/sh.c:344-359 | agrees with the grammar on every input; terminates |
| `Shell.Nulterminate` | xv6-rev11/expansion/sh.c:448-493 | writes NULs exactly at the ends of the tree's tokens |
| `Shell.TokensOutside` | xv6-rev11/expansion/sh.c:448-493 | no terminator lies inside a token |
| `Shell.TreeReads` | xv6-rev11/expansion/sh.c:448-493 | after termination every argv and file pointer reads as exactly its own token |
| `Shell.Parsecmd` | xv6-rev11/expansion/sh.c:327-342 | on every line: a panic exactly where the line is no text of the language; otherwise the char pointers read as the tree it means |
| `Shell.ParsePrinted` | xv6-rev11/expansion/sh.c:327-342 | parsing a printed tree in place gives char pointers that read as the tree |
| `Grep.Matchhere` | xv6-rev11/expansion/grep.c:84-96 | true if and only if a prefix of the text is in the pattern's language, the whole text for a final $; terminates |
| `Grep.Matchstar` | xv6-rev11/expansion/grep.c:98-106 | true if and only if some run of fitting characters is followed by a match of the rest; terminates |
| `Grep.HereCorrect` | xv6-rev11/expansion/grep.c:84-106 | matchhere() succeeds if and only if a prefix of the text is in the pattern's language, the whole text for a final $ |
| `Grep.StarCorrect` | xv6-rev11/expansion/grep.c:98-106 | matchstar() succeeds if and only if some run of fitting characters is followed by a match of the rest |
| `Grep.Match` | xv6-rev11/expansion/grep.c:72-82 | 1 exactly when some substring is in the declared language of the pattern, at the start for ^ and at the end for $ |
| `Grep.PlainContains` | xv6-rev11/expansion/grep.c:72-96 | a pattern without special characters finds exactly the texts that contain it, start with it after ^, end with it before $, or equal it between them |
| `Grep.StarOnly` | xv6-rev11/expansion/grep.c:98-106 | ^c*$ matches exactly the texts of c, and every text for a dot |

## Left out

- Malloc: a call that would give sbrk a wrong byte count (`Umalloc.SbrkRequest` says for which sizes) must find a free block; what sbrk does with such a count is not modelled.
- LogWrite: log_write() is one atomic step together with the change of the buffer; the buffer's sleep lock, which makes it so, is modelled in `SleepLock` and `Bio`.
- Filewrite: alone on its file; other processes' transactions between its chunks are covered by `FsLog`, not by this contract.
- Write: transactions overlap and share a group, but the log_write() calls of one writei() are not interleaved with those of another, and reach the log after its last block is computed, which no crash can tell.
- Exit: closing the process's open files and its working directory, which happens before the part under the lock.
- Truncate: on disks with at most 9 bitmap blocks, where what itrunc() logs fits the budget (`FileWrite.TruncFits`); iput()'s reference count and the freeing of the inode itself are not modelled.
- Bread: of `LogCache`, by a process that is alone in the cache; other holders of buffers are in the contracts of `Bio`.
- Deallocuvm: for sizes up to KERNBASE, which all its callers keep to; beyond it the kernel's own pages would be freed.
- ParsePrinted: for words without NUL characters, as C strings are.
- Freerange: the pages of the range are allocated before, as they are at kinit1() and kinit2().
- Readi: on a file with holes it allocates through the log, which this code could only do inside a transaction; that check is modelled in `LogProgram.Log.LogWrite`.
- Mappages: for ranges that do not wrap past the top of the address space, as all its callers pass.
- Directories, path names, ialloc(), iget()/iput() reference counts, system calls and file descriptors: they would add members, not harder properties.
- Device inodes: only the branch that leaves readi() and writei() is modelled.
- The disk driver, interrupts, context switches, per-CPU state and all assembly: replaced by memide.c's disk and by steps of the run.
- The accessed and dirty bits that the processor sets in page table entries, and its translation cache.
- Spin locks: acquire and release are atomic; memory ordering and interrupt nesting are not modelled.
- Fairness: that the thread programs end needs none, but which thread goes first is not limited; for sleep locks and pipes, whose users may loop forever, only that some process can step is proved.
- inituvm(), loaduvm(), clearpteu(), copyout() and switching page tables.
- runcmd() and the shell's built-in cd: only parsing is modelled.
- grep()'s read loop, which drops a chunk without a newline: only the matcher is modelled.
- The other directories of the repository.
