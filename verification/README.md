# Verified model of the kernel, its file system and its user programs

This project models the hard parts of an xv6 kernel extended with a multi-level
feedback queue and a deadlock detector, and proves them in Dafny.

| files | source | what is modelled |
|---|---|---|
| `Log`, `Admit`, `LogCode` | `log.c` | the write-ahead log as a machine over system calls and single disk writes with a crash after any of them, who is let in, and the code of `log.c` performing its steps |
| `Bio`, `BioCode` | `bio.c`, `memide.c` | the buffer cache with its linked list, under interleaved users |
| `Fs`, `FsTrace`, `FsCode`, `FsRead` | `fs.c`, `file.c` | bitmap, block maps, `readi`, `writei`, `filewrite`, `itrunc`, and what they pass to `log_write` |
| `FsLog` | `file.c`, `log.c` | file-system transactions over the log, with crashes |
| `Mkfs`, `Mount` | `mkfs.c`, `fs.c` | the image that the kernel first mounts, its root directory, and what the kernel finds there |
| `Dir`, `DirCode` | `fs.c`, `sysfile.c` | directories as bytes and as maps, unlink, path elements |
| `Proc`, `ProcCode` | `proc.c` | the process table: fork, exit, wait, sleep, wakeup, kill |
| `Sync` | `proc.c`, `sleeplock.c` | sleep, wakeup and sleep locks at the grain of spinlock operations |
| `Deadlock` | `deadlock.c`, `sysproc.c` | wait-for graph and cycle search |
| `Detect` | `deadlock.c`, `sleeplock.c` | what the search finds on snapshots of the sleep locks |
| `Mlfq`, `MlfqCode` | `proc.c`, `trap.c` | the feedback queue, tick by tick |
| `Vm`, `VmCode` | `vm.c`, `kalloc.c` | two-level page tables over physical pages |
| `Umalloc`, `UmallocCode` | `umalloc.c` | the user-space allocator |
| `Pipe`, `PipeCode` | `pipe.c` | pipes under any number of readers and writers |
| `Shell`, `Grammar`, `ShellCode` | `sh.c` | tokens, parser and its grammar, `nulterminate` |
| `Grep` | `grep.c` | the regular-expression matcher |

A module whose name ends in `Code` holds classes and methods with the loops and
in-place updates of the source. The module beside it holds the specification: state
machines, invariants and the lemmas about them. Concurrency is modelled by steps:
what one process does while it holds a lock is one step, and the theorems about runs
hold for every interleaving of steps. Where the source panics, or reads or writes
through a wild pointer, a method reports it in its result, or a precondition excludes
the call, as the comment on it says.
`dafny verify dfyconfig.toml` checks the whole project.

## What does not hold of the code

Each of these is kept as the code has it, shown by a concrete case, and followed by
the exact condition under which the promise holds.

- `param.h` allows a system call MAXOPBLOCKS (10) blocks, but with 10 new blocks each
  three calls can overrun a 30-block log, because the space test of `log_write` is made
  before the lock is taken. The log stays within its slots in all runs exactly when each
  call adds at most 9 (`LogModel.OverrunPossible`, `LogModel.ExactBound`).
- `mkfs` rounds the root directory up by a whole block even if its size is a multiple of
  the block size already. The root then has an unmapped block, exactly when its number
  of entries is a multiple of 32 (`Mount.RootWithHole`, `Mkfs.MakeFs`, `Mkfs.RootRounded`).
- `mkfs` does not look for files whose names agree in their first 14 bytes. The root maps
  names as given exactly when no two do (`Mount.SameNames`, `Mount.RootMaps`).
- `readi` allocates. It leaves the disk alone exactly when every block of the range is
  mapped; on a hole it takes a block and calls `log_write`, which `fileread` does not
  expect: it holds no transaction, so with no other call in progress that is a panic
  (`Mount.ReadTakesBlock`, `FsCode.Fs.Readi`, `FsCode.DenseExactly`). The block is entered
  in the inode in memory only, exactly when the range needs a new address in the inode. If
  the scan of `dirlink` meets the hole of the root in this way, the entry it then writes
  there is gone once the inode is read again, because `writei` sees no growth and calls no
  `iupdate` (`Mount.EntryLost`).
- `writei` calls `iupdate` only if the file grows. The inode block is left behind exactly
  when a write inside the file needs a new address in the inode, which takes a hole
  (`Mount.WriteLeavesInode`, `FsCode.Fs.Writei`, `FsCode.DenseRooted`). Only the root as
  `mkfs` leaves it has one, and the kernel scans a directory with `readi` before it writes
  to it, so that the case above comes first.
- A killed writer that finds the pipe full after storing some bytes returns without the
  wakeup, and a reader may sleep on beside 512 bytes. No reader ever does, in a whole run,
  exactly when no step of it is of this kind (`PipeModel.LostWakeupHappens`,
  `PipeModel.LostWakeupExactly`, `PipeModel.WokenExactly`).
- The boost test adds 1000 to a 32-bit tick count. Within 1000 ticks before the wrap it
  boosts on every tick and processes no longer get their 15 ticks in between
  (`Mlfq.WrapStarves`, `Mlfq.ServedBetweenBoosts`).
- `kill` matches the pid field of slots that are not in use too, and `allocproc` does not
  clear the mark it leaves. There are two ways to it: a kill that meets a free slot,
  `kill(0)` in particular, and a fork that gives up a child killed in the making. A new
  process starts out killed exactly when its slot carried the mark or a kill of its pid
  came while it was made (`ProcModel.BornKilled`, `ProcModel.BornKilledAgain`,
  `ProcModel.BornKilledExactly`, `ProcModel.MarkRuns`). A live pid is always found
  (`ProcModel.KillFindsLive`).
- `uva2ka` reads through the answer of `walkpgdir` without a test for null, and
  `sys_getdeadlockinfo` passes `copyout` an address it has not checked. The null pointer is
  read exactly when the range has an address without a page table and every byte before
  it is open to user code (`VmCode.CopyoutToNowhere`, `VmCode.Kernel.Copyout`).
- `malloc` of more than 2^32 - 8 bytes wraps to a block that is too small, and from
  2^31 - 15 up to that size `sbrk` is asked for a negative or zero amount, after which
  `morecore` takes what lies past the end of the process for its own. The heap stays in
  order exactly when the size is outside that range or the free list has room
  (`UmallocCode.HugeButEmpty`, `UmallocCode.HugeSpoils`, `UmallocCode.Allocator.Malloc`,
  `Umalloc.UnitsCover`).
- The deadlock detector indexes its tables by pid, skips pids from 64 on, and skips a
  process that waits for a lock it holds. A deadlock of sleeping processes is found
  exactly when all its pids are below 64 and none of them waits for itself
  (`Deadlock.DeadlockMissed`, `Deadlock.StuckExactly`, `Detect.SelfWaitMissed`,
  `Detect.FoundExactly`).
- `dirlink` of an inode number that is a multiple of 2^16 returns 0 and adds nothing; with
  every other number it adds the name, unless that is there (`DirCode.LinkOfNothing`, `DirCode.Inode.DirLink`).
  A disk made by `mkfs` has 200 inodes, so there it does not come to this.

Where code and documentation disagree the model follows the code: three queue levels
with slices of 5, 10 and 20 ticks (README.md of the repository speaks of five), a boost
interval of 1000 ticks (the comment in `param.h` says 500), and `>>`, which `sh.c` opens
exactly like `>`.

## Model

| member | source | states |
|---|---|---|
| `LogModel.PutHeader` | log.c:101-113 | Whatever stale words the header block holds, a header written over it reads back as exactly the written list of home blocks |
| `LogModel.AbsorbWrite` | log.c:223-232 | A logged block enters the list once however often it is written, its newest contents stay pinned in the cache, and the disk still holds the last committed state |
| `LogModel.WriteHeader` | log.c:192-202 | The one write of the header turns a transaction that a crash would forget into one that recovery will redo completely |
| `LogModel.StepKeepsInv` | log.c:69-233 | Every step of every process (begin, space test, log_write while its block fits, end, cache fill and eviction, each single disk write, crash) keeps the invariant that ties disk, log, cache and history together |
| `LogModel.NeverStuck` | log.c:69-122 | In every state inside commit or recovery the next disk write is possible and keeps the invariant |
| `LogModel.ReservationHolds` | log.c:125-141 | In every run on a 30-block log whose calls each add at most MAXOPBLOCKS-1 new blocks, the log never holds more than 28 and the "too big a transaction" panic is never reached |
| `LogModel.FrugalIsThrifty` | log.c:125-141 | Calls that each log_write only blocks of a set of at most nine never add more than nine, whatever order they run in and however often the machine crashes, so the bound above applies to them |
| `LogModel.InstalledRedoes` | log.c:69-82 | Installing the first k log slots brings exactly those k home blocks up to the committed contents, whatever state a crash left them in |
| `LogModel.RecoveredHome` | log.c:115-122 | Recovery makes every home block equal to the committed state |
| `LogModel.CrashAtomicity` | log.c:69-202 | In every run, a crash after any disk write, inside commit or recovery included, followed by recovery gives home blocks equal to replaying a prefix of what the system calls did that contains no unfinished call; nothing is lost when the log is idle |
| `LogModel.DurableGrows` | log.c:192-202 | No step, crash included, takes back or changes what an earlier commit made durable |
| `LogModel.RecoveryCompletes` | log.c:115-122 | Recovery that is not cut short ends, idle, with an empty log and all home blocks as committed |
| `LogModel.PassTogether` | log.c:218-232 | Two calls can pass log_write's unlocked space test at 28 entries and both append |
| `LogModel.OverrunPossible` | log.c:213-233 | If calls may add MAXOPBLOCKS blocks each, three of them can put 30 entries into a log that has 29 slots |
| `LogModel.ExactBound` | log.c:125-141 | A bound w on the blocks each call adds keeps the log within its slots in all runs if and only if w < MAXOPBLOCKS |
| `Admission.RunBooked` | log.c:125-233 | In every run, whatever the calls do, the list in memory has each block written since the last commit exactly once, and the calls in progress are those that began and did not end |
| `Admission.AdmittedExactly` | log.c:125-141 | In every run: where nothing is committing, a new call is let in if and only if the blocks written since the last commit plus ten for each call in progress and for the new one are at most thirty |
| `Admission.JoinsGroup` | log.c:132-138 | It happens: a second call joins a group that has logged a block, and a third then has to wait |
| `LogCode.Log.constructor` | log.c:53-66 | Starts from a disk with an empty log, as the machine's initial state |
| `LogCode.Log.BeginOp` | log.c:125-141 | A call is admitted if and only if nothing is committing and n + 10 * (outstanding + 1) is at most 30; then outstanding grows by one, and otherwise nothing changes |
| `LogCode.Log.RecordBlock` | log.c:224-230 | The block list gains the block at its end only if it was not in it |
| `LogCode.Log.LogWrite` | log.c:223-232 | The block enters the list if it was not in it, its contents are pinned, the disk stays, and the write joins the history of events |
| `LogCode.Log.WriteLog` | log.c:177-190 | Its disk writes are, one by one, steps of the machine that fill every log slot |
| `LogCode.Log.CopyHome` | log.c:74-81 | One turn of install_trans is one step of the machine, in a commit and in recovery |
| `LogCode.Log.InstallTrans` | log.c:69-82 | Installs all slots, one machine step per block |
| `LogCode.Log.EncodeHead` | log.c:104-110 | The loop over the header words yields a block that decodes to the in-memory header |
| `LogCode.Log.WriteHead` | log.c:101-113 | Everything done so far becomes durable in this one write |
| `LogCode.Log.EraseHead` | log.c:199-200 | Clears the log after a commit or a recovery, as one machine step |
| `LogCode.Log.Commit` | log.c:192-202 | The whole commit is a run of machine steps to an idle, empty log with all events durable; every block in the list is home with its pinned contents and no other block outside the log changes |
| `LogCode.Log.LeaveOp` | log.c:150-163 | The critical section of end_op: one call less, and a commit follows if and only if it was the last and something was logged |
| `LogCode.Log.EndOp` | log.c:145-174 | end_op leaves nothing committing; after the last call the log is empty and everything is durable, otherwise log, disk and cache are as before |
| `LogCode.Log.ReadHead` | log.c:85-96 | Reads back the list of home blocks that the header on disk stands for |
| `LogCode.Log.RecoverFromLog` | log.c:115-122 | recover_from_log is a run of machine steps from boot to idle |
| `FsModel.WordOfPut` | fs.c:389-393 | An indirect-block entry written as four little-endian bytes reads back, and no other entry changes |
| `FsModel.OwnedOnce` | fs.c:370-400 | Two places in the block maps of all files that name the same block are the same place |
| `FsModel.WriteData` | fs.c:498-504 | Writing a data block changes no block map of any file |
| `FsModel.AllocDirect` | fs.c:378-382 | Entering a free block in a direct slot changes that slot only and keeps every block owned once |
| `FsModel.AllocIndirect` | fs.c:385-388 | The same for a zeroed indirect block, which adds no data block |
| `FsModel.AllocEntry` | fs.c:389-396 | The same for an entry of the indirect block |
| `FsModel.FreeDirect` | fs.c:414-419 | Clearing a direct slot gives up exactly the block it named |
| `FsModel.FreeIndirect` | fs.c:421-431 | Clearing the indirect slot gives up exactly the blocks reached through it |
| `FsTrace.OneWrite` | log.c:204-233 | One log_write of the one block that changed accounts for the whole change |
| `FsTrace.TracedTwice` | log.c:204-233 | If the log_writes of two steps account for what each changed, joined in order they account for both |
| `FsTrace.AllocTraced` | fs.c:56-78 | The two log_writes of balloc are exactly what it changes on the disk |
| `FsTrace.FreeTaken` | fs.c:67-68 | Setting a clear bit leaves one clear bit less |
| `FsTrace.TookThenBlock` | fs.c:391-394 | Taking a block and then logging the indirect block that names it account together for the whole change |
| `FsTrace.EffectInode` | fs.c:220-236 | The log_write of iupdate writes the whole block of eight inodes, of which one changed |
| `FsTrace.TracedBit` | fs.c:81-95 | The log_write of bfree writes the whole bitmap block, of which one bit changed |
| `FsTrace.FreedThenInode` | fs.c:407-435 | Freeing blocks and one iupdate log, on a disk with one bitmap block, that block and the inode's only |
| `FsCode.BitmapExact` | fs.c:53-95 | Between operations a bitmap bit is set if and only if its block is metadata or some file's block map names it |
| `FsCode.DirectGrows` | fs.c:378-382 | A zeroed free block entered in a direct slot maps that block of that file and moves nothing |
| `FsCode.IndirectGrows` | fs.c:385-388 | A zeroed free block entered as indirect block maps no data block yet and moves nothing |
| `FsCode.EntryGrows` | fs.c:389-396 | The same for a block entered in the indirect block |
| `FsCode.GrownKeepsBytes` | fs.c:370-400 | bmap, allocating or not, changes no byte of any file |
| `FsCode.PokeBytes` | fs.c:500-501 | Copying into a mapped block changes exactly those bytes of that one file |
| `FsCode.Fs.constructor` | fs.c:298-308 | A disk with exact ownership and an exact bitmap, mounted, is a consistent volume with nothing logged |
| `FsCode.Fs.Balloc` | fs.c:56-78 | Takes the lowest clear bit and zeroes its block; fails only when every bit is set |
| `FsCode.Fs.Bfree` | fs.c:81-95 | Clears one bit; fails exactly when it was clear already |
| `FsCode.Fs.Fresh` | fs.c:56-78 | Succeeds if and only if some bit is clear; the block balloc returns is named by no block map; what it logs is exactly the changed part of the bitmap and the zeroed block |
| `FsCode.Fs.BmapDirect` | fs.c:378-382 | The direct half of bmap keeps exact ownership and what was mapped; succeeds if and only if the block is mapped or a bit is clear |
| `FsCode.Fs.BmapIndirect` | fs.c:387-388 | The indirect block exists afterwards and no data block has moved, if and only if it existed or a bit is clear |
| `FsCode.Fs.BmapEntry` | fs.c:389-396 | The entry is mapped afterwards, to a zeroed block if it was not, if and only if it was mapped or a bit is clear |
| `FsCode.Fs.EnterBlock` | fs.c:391-394 | A fresh zeroed block is entered in the indirect block, and the three log_writes are exactly what changes |
| `FsCode.Fs.Bmap` | fs.c:372-400 | Succeeds if and only if the block number is in range and the blocks missing for it, none, one or two, are at most the clear bits; then the block is mapped, nothing that was mapped moves, an already mapped block changes nothing, a new one is zeroed; the inode changes if and only if neither the block nor its indirect block was in it; what is logged is exactly what changes on the disk |
| `FsCode.Fs.WriteChunk` | fs.c:498-504 | One turn of writei's loop changes exactly the chunk's bytes of that file and logs exactly what changed; it succeeds if and only if the missing blocks are at most the clear bits |
| `FsCode.Fs.WriteLoop` | fs.c:498-504 | Succeeds if and only if the unmapped data and indirect blocks of the range are at most the clear bits before it; then it writes exactly the given bytes, across the direct and indirect boundary, and logs at most the bitmap, the indirect block and one block per 512 bytes touched |
| `FsCode.ProgressTwice` | fs.c:498-504 | Two adjacent chunks have the effect of one: bytes, blocks taken, blocks logged, and whether the inode itself had to change |
| `FsCode.HolesTwice` | fs.c:498-504 | What a range lacks is what its first part lacks and, once that is filled, what the rest still lacks |
| `FsCode.TakesTwice` | fs.c:498-504 | Filling the holes of two adjacent ranges one after the other fills exactly those of the joined range, one bit for each |
| `FsCode.TakesFails` | fs.c:498-504 | If the second part cannot be filled after the first, the whole range could not have been |
| `FsCode.NeedIsHoles` | fs.c:372-400 | What bmap lacks for a block is what any byte range inside that block lacks |
| `FsCode.NothingLacks` | fs.c:498-504 | A mapped range lacks nothing |
| `FsCode.Fs.Writei` | fs.c:481-511 | On any consistent volume: returns -1 and changes nothing if and only if off is beyond the size or off + n beyond the largest size; else it succeeds if and only if the unmapped data and indirect blocks of the range are at most the clear bits before the call; then the file's bytes are spliced, exactly the missing blocks are taken, ownership and bitmap stay exact, no file gets a hole, the inode block is written exactly if the file grows and is up to date if and only if the file grew or the inode needed no new address, what is logged is exactly what changes on the disk, and 1536 bytes log at most 7 blocks on a disk with one bitmap block |
| `FsCode.Fs.Readi` | fs.c:452-476 | On any consistent volume: returns -1 if and only if off is beyond the size or off + n reaches 2^32, otherwise the smaller of n and what is left of the file, with exactly these bytes, holes as zeros; it changes no byte of any file, nothing at all if every block of the range is mapped, and otherwise takes exactly the missing blocks and calls log_write; the inode block is up to date afterwards if and only if no block of the range needed a new address in the inode; it succeeds if and only if the range is in the block map and its missing blocks are at most the clear bits |
| `FsCode.Fs.ReadChunk` | fs.c:469-473 | One turn of readi's loop, with the same statement for its block |
| `FsCode.Fs.ReadLoop` | fs.c:469-474 | The whole loop: exactly the bytes of the range, the blocks taken, and when it fails |
| `FsRead.ReadFile` | cat.c:12-17 | A program that reads from the start until read returns 0: it ends, with 0 and no error, and has exactly the file's contents, if and only if the size is in the block map and the holes fit in the free blocks; a file without holes is read without any change |
| `FsRead.PassedMore` | file.c:105-107 | A read at the offset where the last one ended extends what was read and what was taken |
| `FsRead.WriteThenRead` | fs.c:452-511 | What writei wrote readi returns, without a change, exactly when the write had room |
| `FsCode.SeenTwice` | fs.c:469-473 | Two adjacent reads have the effect of one: nothing changes if and only if neither met a hole, and the inode changes if and only if it did in one of them |
| `FsCode.DenseExactly` | fs.c:470-470 | Reading a whole file meets only mapped blocks if and only if it has no hole |
| `FsCode.BytesOfContent` | fs.c:452-476 | The bytes readi returns are the slice of the file's contents |
| `FsCode.DenseRooted` | fs.c:506-509 | In a file without holes a write inside the file needs no new address, so skipping iupdate is safe |
| `FsCode.WrittenSplices` | fs.c:481-511 | After writei the contents are the old ones with the written bytes spliced in, longer if need be |
| `FsCode.WrittenKeepsOthers` | fs.c:481-511 | writei leaves every other file's inode and contents as they were |
| `FsCode.WrittenTwice` | file.c:134-152 | Two adjacent writes are one write of the joined bytes |
| `FsCode.DenseKept` | fs.c:498-509 | Writing at or before the end of a file leaves no hole in any file that had none |
| `FsCode.CountLogged` | file.c:126-139 | The blocks one inode write may log are at most three more than its data blocks |
| `FsCode.Fs.FileWrite` | file.c:117-156 | For a file without holes on any consistent volume: it accepts all the bytes, none, or the chunks of 1536 below the largest file size, and completes if and only if the missing blocks of what it accepts are at most the clear bits before the call; then it has the effect of one write of the accepted bytes, returns n if and only if n is 0 or the range starts in the file and stays below the largest size, and -1 otherwise, each of its transactions logs at most 7 blocks and exactly what changes on the disk, and after k transactions exactly the first k chunks of 1536 bytes are in the file |
| `FsCode.Fs.WriteTx` | file.c:134-143 | One transaction of it: the chunk is written or nothing changes, its log_writes account for the change, and it completes if and only if the chunk is refused or its missing blocks are at most the clear bits |
| `FsCode.AcceptedAt` | file.c:130-152 | The bytes filewrite accepts, as a closed form, are those of its first chunk and then those accepted after it |
| `FsCode.FiledMore` | file.c:130-152 | A written prefix and one more transaction are a longer written prefix, with the blocks taken and the disks in between |
| `FsCode.Fs.FreeOne` | fs.c:414-419 | Frees one direct block, whose bit was set |
| `FsCode.Fs.TruncDirect` | fs.c:414-419 | All direct blocks are freed and only those |
| `FsCode.Fs.FreeEntries` | fs.c:424-427 | All blocks listed in the indirect block lose their bits; none of them was free |
| `FsCode.Fs.TruncIndirect` | fs.c:421-431 | The indirect block and everything it lists are freed and only those |
| `FsCode.Fs.Itrunc` | fs.c:407-435 | Every block of the file becomes free, every other file keeps its bytes, the "freeing free block" panic is not reached, the inode block is up to date, and what is logged, at most the bitmap and the inode's block on a disk with one bitmap block, is exactly what changes |
| `FsCode.Truncated` | fs.c:407-435 | A truncated file reads as zeros and has no holes; the others keep every byte and get no hole |
| `FsLog.TxReplays` | log.c:126-202 | Replaying the log_writes of one transaction takes a disk that holds the file system before it to one that holds the file system after it |
| `FsLog.OpenInside` | log.c:125-174 | Between its begin_op and its end_op a transaction's call is open |
| `FsLog.WholeTransactions` | log.c:125-174 | A prefix of the events that leaves no call open is a whole number of transactions |
| `FsLog.WithinIsFrugal` | log.c:125-174 | A run that does nothing but these transactions, each of at most w blocks, writes for each call only blocks of a set of w, however often it crashes |
| `FsLog.CrashBetweenTransactions` | log.c:69-202 | For transactions of at most nine blocks each that follow each other, in every run of the log in which the calls do just that, after a crash at any disk write recovery yields the file system after a whole number of them, all of them if the log is idle; the log does not panic |
| `FsLog.CrashDuringFileWrite` | file.c:117-156 | After a crash at any point of a filewrite, whose transactions log at most seven blocks each, and recovery, the file holds its old contents with the first k chunks of 1536 bytes, or all the bytes, written over them, and every other file is as it was |
| `Mkfs.Image.constructor` | mkfs.c:94-115 | An image with only metadata in use |
| `Mkfs.Image.Ialloc` | mkfs.c:233-245 | The next inode is an empty file; all files stay as they were |
| `Mkfs.Image.EnsureBlock` | mkfs.c:279-296 | Succeeds exactly when the blocks the map lacks fit in the image; then the block is mapped, no byte of any file changes, and blocks are still handed out in order |
| `Mkfs.Image.DirectBlock` | mkfs.c:281-285 | The direct half of the block map |
| `Mkfs.Image.TakeIndirect` | mkfs.c:287-289 | The indirect block exists afterwards |
| `Mkfs.Image.TakeEntry` | mkfs.c:290-295 | The entry is mapped, to a fresh zero block if it was not |
| `Mkfs.Image.IndirectBlock` | mkfs.c:286-296 | The indirect half of the block map |
| `Mkfs.Image.Copy` | mkfs.c:297-300 | Copies exactly the given bytes into the mapped sector |
| `Mkfs.Image.Iappend` | mkfs.c:265-307 | Succeeds exactly when the blocks that the longer file needs fit; then the bytes are appended to the file and nothing else changes |
| `Mkfs.Image.AppendChunk` | mkfs.c:277-303 | One turn of its loop, with the same exact condition |
| `Mkfs.NeedAt` | mkfs.c:279-296 | The blocks the map of a file filled up to its end lacks for one more byte are what the closed count of data and indirect blocks grows by |
| `Mkfs.Appended` | mkfs.c:265-307 | An append extends one file's contents and keeps all the others |
| `Mkfs.Image.AddEntry` | mkfs.c:147-150 | The root directory gains the next entry, exactly when its block fits |
| `Mkfs.Image.CopyIn` | mkfs.c:152-153 | A host file copied in block-sized pieces is there byte for byte, exactly when its blocks fit |
| `Mkfs.Image.AddFile` | mkfs.c:145-155 | One more file and its entry, exactly when both fit |
| `Mkfs.Image.Populate` | mkfs.c:117-156 | The root directory holds all entries in order and every host file is stored, exactly when all fit |
| `Mkfs.Image.Finish` | mkfs.c:158-165 | The bitmap written is exact; rounding up the root's size keeps its entries, adds only zeros behind them, and leaves a hole exactly when the size filled its last block |
| `Mkfs.RootRounded` | mkfs.c:158-163 | The reason: the added block is mapped if and only if the old size was not a multiple of the block size |
| `Mkfs.MakeFs` | mkfs.c:94-168 | Succeeds if and only if metadata, directory and files with their indirect blocks fit in the image; then it holds every file, the root directory holds the entries in order followed by zeros, its bitmap is exact, every file but the root has no holes, and the root has none if and only if its number of entries is not a multiple of 32 |
| `Mkfs.RootPadded` | mkfs.c:158-163 | The root as rounded up reads as its entries and then zeros, the new block being missing or all zeros |
| `Mount.MakeEntry` | mkfs.c:119-150 | The 16 bytes of an entry decode to its inode number and padded name |
| `Mount.RootEntries` | mkfs.c:119-150 | The entries decode to "." and ".." with inode 1 and, with inode k + 2, the k-th argument without a leading underscore |
| `Mount.MakeDisk` | mkfs.c:94-168 | From the arguments: succeeds if and only if all fits; the root directory, decoded, then lists ".", ".." and the files in order and only these; at the inode number that an entry has, the image holds exactly the bytes of the file it names, and "." and ".." lead to the inode with this directory |
| `Mount.RootMaps` | fs.c:524-548 | Such a root directory maps "." and ".." to 1 and the k-th name to k + 2 and nothing else; it is a map without duplicates, the right one, if and only if no two names agree in their first 14 bytes |
| `Mount.RootHoles` | mkfs.c:158-163 | The root lacks one block if its number of entries is a multiple of 32 and none otherwise |
| `Mount.LookUp` | fs.c:524-548 | Looking up the k-th file in the root yields the inode number in its entry |
| `Mount.MakeThenRead` | fs.c:452-548 | From mkfs to cat: make the disk, mount it, read the root, look the k-th file up and read it to its end; out come exactly the bytes that went in, if and only if the image has room, with one spare block where the root has a hole |
| `Mount.SameNames` | mkfs.c:139-150 | Files "a" and "_a" make a root directory with two entries of one name |
| `Mount.RootWithHole` | mkfs.c:158-163 | With 30 files of different names, hence 32 entries, mkfs succeeds on 2500 blocks; mounted, the volume is consistent and the second block of its root, which the size covers, is missing |
| `Mount.ReadTakesBlock` | fs.c:470-470 | readi of that block returns zeros, takes a block and calls log_write, and the inode in memory differs from the one on the disk afterwards |
| `Mount.EntryLost` | fs.c:564-575 | The entry written there next is in the file as the kernel sees it, while the inode on the disk has no block for it |
| `Mount.WriteLeavesInode` | fs.c:506-509 | A write of that block that no read precedes leaves the inode on the disk behind too |
| `BioModel.Unlink` | bio.c:132-133 | The two stores take a buffer out of the circular list and keep the rest linked both ways |
| `BioModel.PushFront` | bio.c:134-137 | The four stores put a buffer at the head and keep the list linked both ways |
| `BioModel.HitKeeps` | bio.c:69-75 | A further use of a cached block keeps counts, bindings and latest contents |
| `BioModel.RecycleKeeps` | bio.c:81-90 | Rebinding an idle clean buffer to a block not cached loses no contents and binds no block twice |
| `BioModel.ReleaseKeeps` | bio.c:128-129 | Ending a use keeps counts, bindings and latest contents |
| `BioModel.FillKeeps` | bio.c:102-104 | Reading a block into its buffer changes no block's latest contents |
| `BioModel.ChangeKeeps` | log.c:204-212 | The holder's change of a buffer changes the latest contents of that block only |
| `BioModel.DirtyKeeps` | log.c:231-231 | Marking a changed buffer dirty keeps every latest contents |
| `BioModel.WriteKeeps` | bio.c:108-116 | Writing a valid buffer to the disk keeps every latest contents |
| `BioCode.Cache.constructor` | bio.c:38-56 | After binit the list has every buffer once and the cache shows the disk |
| `BioCode.Cache.Find` | bio.c:69-76 | Finds the block's buffer, or none is bound to the block |
| `BioCode.Cache.Idle` | bio.c:81-91 | Finds the least recently used buffer that is neither in use nor dirty, or there is none |
| `BioCode.Cache.Bget` | bio.c:61-93 | Returns the block's buffer or recycles the least recently used one that is neither in use nor dirty; no block other than of device 0 is ever bound twice; fails exactly when there is no such buffer; no block's latest contents change |
| `BioCode.Cache.Acquire` | bio.c:73-74 | Whatever happened while waiting for the buffer's lock, the buffer is still bound to the block asked for |
| `BioCode.Cache.Iderw` | memide.c:38-60 | Writes a dirty buffer, else reads; valid and clean afterwards |
| `BioCode.Cache.Bread` | bio.c:95-106 | The locked buffer holds the latest contents of the block, and nobody else's view changes |
| `BioCode.Cache.Change` | log.c:204-212 | The latest contents of that block become the new data |
| `BioCode.Cache.MarkDirty` | log.c:231-231 | The buffer is dirty, hence not recycled, until it is written |
| `BioCode.Cache.Bwrite` | bio.c:108-116 | The only operation that changes the disk: exactly that block, to the buffer's data |
| `BioCode.Cache.ToFront` | bio.c:131-137 | Moves the buffer to the most recently used place and keeps the order of the rest |
| `BioCode.Cache.Unlock` | bio.c:124-124 | Releasing the buffer's lock keeps the use, so the buffer stays bound |
| `BioCode.Cache.DropRef` | bio.c:126-140 | The section under bcache.lock, with another process perhaps holding the buffer's lock by now: ends one use, keeps every latest contents, moves the buffer to the front exactly if it was the last use, and never for a buffer somebody has locked |
| `BioCode.Cache.Brelse` | bio.c:118-141 | Both in one go: ends one use; the list stays a permutation of all buffers, with the buffer first if nobody uses it any more |
| `Deadlock.Enter` | deadlock.c:68-73 | Entering an unvisited vertex keeps the search invariant |
| `Deadlock.Leave` | deadlock.c:87-89 | A vertex all of whose successors are finished is finished |
| `Deadlock.SortedHasNoCycle` | deadlock.c:61-91 | No cycle passes through a finished vertex |
| `Deadlock.LassoIsCycle` | deadlock.c:80-83 | An edge back onto the path of calls in progress closes a cycle |
| `Deadlock.LassoShort` | deadlock.c:71-73 | The path of calls in progress always leaves room for the final zero |
| `Deadlock.NoCycleLeft` | sysproc.c:361-372 | If every table entry's vertex is finished, the graph has no cycle |
| `Deadlock.Detector.Push` | deadlock.c:68-73 | Marks and records the vertex, which the cycle array has room for |
| `Deadlock.Detector.Pop` | deadlock.c:87-89 | Undoes that and counts the vertex as finished |
| `Deadlock.Detector.Dfs` | deadlock.c:60-91 | Reports a path whose last vertex has an edge back onto it, or finishes the vertex with everything reachable from it, for a visited array shared between roots |
| `Deadlock.Detector.BuildWfg` | deadlock.c:23-58 | There is an edge exactly when a sleeping process waits for a lock held by a different process, both pids positive and below NPROC |
| `Deadlock.Detector.Report` | sysproc.c:366-368 | Copies the recorded path and leaves zeros behind it |
| `Deadlock.Detector.Clear` | sysproc.c:355-358 | Resets the search |
| `Deadlock.Detector.GetDeadlockInfo` | sysproc.c:352-372 | found is set if and only if the wait-for graph has a cycle, and if and only if there is a deadlock all of whose pids are below NPROC; the pids reported are a zero-terminated path whose last vertex has an edge back onto the path |
| `Deadlock.StuckExactly` | deadlock.c:49-54 | The graph has a cycle if and only if some processes wait for each other in a circle and all their pids are positive and below NPROC |
| `Deadlock.DeadlockMissed` | deadlock.c:52-53 | Processes 64 and 65 wait for each other and no deadlock is found |
| `Sync.SetKeeps` | sleeplock.c:43-55 | Making the condition true under the lock loses no sleeper, because its wakeup is still due |
| `Sync.ScanKeeps` | proc.c:728-744 | After wakeup1 nobody sleeps on the channel, nor is anybody past the point of no return |
| `Sync.TakeKeeps` | sleeplock.c:26-33 | Who finds the condition true under the lock may change it without harm to sleepers |
| `Sync.StepKeepsInv` | proc.c:688-753 | Every spinlock operation of any process, and kill, keeps: each spinlock has one holder, and a sleeper beside a true condition is about to be woken by the holder of the lock |
| `Sync.NobodyMissed` | proc.c:688-753 | In every run of any number of processes, from any values of the conditions, nobody is asleep on a condition that is true while its lock is free |
| `Sync.NeverStuck` | proc.c:688-753 | The spinlocks never block each other: in every reachable state in which some process is neither idle nor asleep, some process can take its next step |
| `Sync.StepKeepsExclusive` | sleeplock.c:22-55 | A sleep lock has at most one holder, and is locked exactly while it has one |
| `Sync.SleepLockWorks` | sleeplock.c:22-55 | In every run of acquiresleep and releasesleep calls, at most one process holds a lock and nobody sleeps on a free one |
| `Sync.StepKeepsDeadlock` | sleeplock.c:22-55 | No step of any process, kill included, moves a member of a wait cycle on |
| `Sync.DeadlockLasts` | sleeplock.c:22-55 | In every run, the members of a wait cycle wait for ever and neither get nor release a lock, provided only holders release |
| `Detect.FoundExactly` | deadlock.c:24-58 | On a snapshot of the sleep locks the detector sees a deadlock if and only if some processes wait for each other in a circle, all asleep, all with pids below NPROC and none waiting for itself |
| `Detect.ReportMeansDeadlock` | sysproc.c:352-372 | In every reachable state of the sleep locks: a deadlock is reported if and only if there is such a circle, and its processes then wait for each other in every later state of every run |
| `Detect.AloneReached` | sleeplock.c:22-41 | Two acquiresleep calls of one lock lead a process to sleep on the lock it holds |
| `Detect.SelfWaitMissed` | deadlock.c:49-54 | That process waits for ever and no deadlock is reported |
| `ProcModel.AllocKeeps` | proc.c:181-192 | A new process has a pid that nobody has or had |
| `ProcModel.ExitKeeps` | proc.c:372-390 | exit makes the process a zombie, gives all its children to init, wakes exactly those who sleep in wait on its parent, or on init if init got a zombie, changes nothing else, and leaves no child without a live parent and no parent asleep beside a zombie |
| `ProcModel.WaitKeeps` | proc.c:404-436 | wait frees a slot that is nobody's parent, and sleeps only if no child is a zombie |
| `ProcModel.StepKeepsInv` | proc.c:175-437 | All steps of fork, exit, wait, sleep, wakeup, kill and the scheduler keep the invariant |
| `ProcModel.ReachableInv` | proc.c:175-437 | In every reachable table live pids are distinct, every started process but init has a parent that is neither unused nor a zombie, nobody sleeps in wait with a zombie child, and no pid is reaped twice |
| `ProcModel.ExitDoes` | proc.c:372-390 | The exact effect of exit on every field of every slot |
| `ProcModel.ZombieStep` | proc.c:404-436 | A zombie stays one, with its pid, until its parent's wait reaps it; its parent changes only to init, when that parent exits |
| `ProcModel.ExitSeen` | proc.c:372-436 | In every run after an exit, the pid has been reaped, or the process is a zombie whose parent is live, not asleep in wait, and would reap a zombie in its next wait instead of sleeping |
| `ProcModel.ForkRuns` | proc.c:298-345 | fork, in its separate steps, ends in a running child in a free slot with a new pid and the caller as parent, and nothing else changed |
| `ProcModel.ForkExitWait` | proc.c:298-436 | fork, exit of the child and wait: the parent gets the child's pid, and the table is as before with the child's slot free and clean |
| `ProcModel.KillFindsLive` | proc.c:758-778 | kill of a live pid marks and wakes exactly that process |
| `ProcModel.MarkStep` | proc.c:758-778 | If no free slot carries the mark of kill, a step leaves one that does if and only if it is a kill whose first match is a free slot, or a fork giving up a slot that was killed meanwhile |
| `ProcModel.MarkRuns` | proc.c:211-214 | Over whole runs: no free slot ever carries the mark if and only if no step of the run is of these two kinds |
| `ProcModel.BornKilledExactly` | proc.c:175-232 | From allocproc to the moment it can run, a new process ends up killed if and only if its slot carried the mark already or a kill of its pid came in between |
| `ProcModel.BornKilled` | proc.c:758-778 | A mark stays: after kill(0) at boot the first process forked starts out killed |
| `ProcModel.BornKilledAgain` | proc.c:211-214 | So does one whose slot a failing fork gave back after a kill of the child in the making |
| `ProcCode.Ptable.constructor` | proc.c:236-271 | The table with init alone |
| `ProcCode.Ptable.Wakeup1` | proc.c:730-744 | Makes runnable exactly the processes asleep on the channel, and changes nothing else |
| `ProcCode.Ptable.Wakeup` | proc.c:747-753 | The same under the lock, as a step of the machine |
| `ProcCode.Ptable.PassChildren` | proc.c:380-387 | All children pass to init, which is woken if and only if one of them is a zombie |
| `ProcCode.Ptable.Exit` | proc.c:372-390 | The process is a zombie, its children are init's, nobody sleeps on its parent's channel, nor on init's if one of the children is a zombie, nobody else's state changes but from sleeping in wait to runnable, and no other field of any slot changes; the machine's invariant holds |
| `ProcCode.Ptable.Wait` | proc.c:404-436 | One round of wait sleeps if and only if there is a child, none is a zombie and the caller is not killed; with a zombie child it frees the slot of the first one and returns its pid, otherwise it returns -1 and changes nothing |
| `ProcCode.Ptable.ExitThenWait` | proc.c:372-436 | After exit a wait of the parent does not sleep and returns the pid of a zombie child, this one or an earlier one |
| `ProcCode.Ptable.Sleep` | proc.c:690-715 | The caller sleeps on the channel and nothing else changes |
| `ProcCode.Ptable.Kill` | proc.c:758-778 | Succeeds exactly when some slot, in use or not, has the pid; marks the first such slot, makes it runnable if it slept, and changes nothing else; a live process with the pid is always that one |
| `ProcCode.Ptable.Allocproc` | proc.c:181-208 | Takes the first unused slot, if and only if there is one, with a pid that no slot has and that was never reaped |
| `Mlfq.AfterOne` | trap.c:132-149 | Charging one tick takes the closed form for n ticks to the one for n+1, always below the level's slice |
| `Mlfq.PickBest` | proc.c:597-606 | The process chosen has the best level of all |
| `Mlfq.PickFirst` | proc.c:597-606 | It is the first of that level by slot; nobody is chosen exactly when no process is at one of the three levels |
| `Mlfq.DueWhen` | proc.c:576-588 | A boost follows the last one after exactly 1001 ticks, except within 1000 ticks before the clock wraps, when it follows after one, and after one single tick value, when it never does |
| `Mlfq.ChargeKeeps` | trap.c:132-149 | Until everyone has had 15 ticks, each tick goes to a process that has not |
| `Mlfq.TickKeepsInv` | proc.c:567-623 | One timer tick with the scheduling after it keeps the closed form, the choice of the best level, the clock and the service count |
| `Mlfq.LevelsClosed` | trap.c:132-149 | In every run level and mlfq_ticks are the closed form of the ticks a process got since the last boost |
| `Mlfq.NoStarvation` | proc.c:567-623 | In every run with up to 64 always-ready processes, 960 ticks after a boost every one has had its 5 + 10 ticks at levels 0 and 1 |
| `Mlfq.ServedBetweenBoosts` | proc.c:575-606 | When a boost is due every process has had its 15 ticks since the last one, if and only if the last one was not in the last 1000 tick values before the wrap, the very last excepted |
| `Mlfq.BoostTimes` | proc.c:576-588 | Up to the wrap of the clock the boosts come at the multiples of 1001 |
| `Mlfq.WrapStarves` | proc.c:580-580 | The exception is reached: after the boost at tick 4294966676 the next comes one tick later |
| `MlfqCode.Scheduler.ChargeTick` | trap.c:116-149 | One tick more on the running process alone: below 5, 10 or 20 ticks at its level it stays, else it starts anew one level down, or at level 2 |
| `MlfqCode.Scheduler.BoostAll` | proc.c:581-587 | Resets level and ticks of exactly the live processes and takes down the time |
| `MlfqCode.Scheduler.Search` | proc.c:599-606 | The nested loops find the first process, by slot, of the best level, or there is none |
| `MlfqCode.Scheduler.Schedule` | proc.c:567-614 | Boosts exactly if the clock is past the last boost plus 1000 in 32 bits, then runs a process of the best level |
| `MlfqCode.Scheduler.Timer` | trap.c:114-153 | A timer interrupt is one tick of the machine and keeps its invariant |
| `VmModel.NewDir` | vm.c:124-126 | A blanked page is an empty address space and changes no other |
| `VmModel.NewTabKeeps` | vm.c:44-53 | A fresh page table changes no virtual-to-physical mapping of any directory and is owned through its entry only |
| `VmModel.MapUserKeeps` | vm.c:69-73 | Writing an entry changes the mapping of that one virtual page in that one directory, and the page has that one owner |
| `VmModel.MapKernelKeeps` | vm.c:69-73 | The same for a kernel entry, which owns no page |
| `VmModel.UnmapKeeps` | vm.c:269-276 | Freeing a user page and clearing its entry removes that one mapping and that one owner |
| `VmModel.RetireKeeps` | vm.c:290-297 | A directory without user pages may be given up although its entries still point to its tables |
| `VmModel.CutNothing` | vm.c:266-268 | Skipping to the next 4 MB where a table is missing skips no mapped page |
| `VmModel.AllReturned` | vm.c:283-298 | What freevm takes away is exactly the directory, its tables and its user pages |
| `VmModel.BackViews` | vm.c:235-246 | Cutting what was just grown brings back every mapping of every directory |
| `VmModel.AddedWithout` | vm.c:342-344 | Giving up a directory that was added leads back to exactly the owners before |
| `VmModel.RowBounds` | vm.c:105-115 | The rows of kmap follow each other without overlap up to the end of the address space |
| `VmModel.RowMapped` | vm.c:129-134 | Mapping row i extends the kernel mappings exactly up to where row i ends |
| `VmModel.RowMissing` | vm.c:129-134 | Mapping row i takes exactly the tables by which the first i+1 rows exceed the first i |
| `VmModel.CopyTablesMore` | vm.c:320-338 | The n-th page of a copy takes a table exactly when the count of tables for n pages grows |
| `VmModel.PokeSeen` | vm.c:377-380 | Bytes written through a user page are seen at that place of that address space and nowhere else, because no page has two owners |
| `VmModel.PokeKeeps` | vm.c:377-380 | Such a write keeps all page tables and owners |
| `VmCode.Kernel.constructor` | kalloc.c:46-53 | freerange puts each page on the free list once |
| `VmCode.Kernel.Kalloc` | kalloc.c:82-95 | Hands out a page that nobody owns; 0 exactly when the list is empty |
| `VmCode.Kernel.Kfree` | kalloc.c:59-77 | The page is on the free list, once, and owned no more |
| `VmCode.Kernel.Walk` | vm.c:35-55 | The table of the page, allocated if asked, at the price of one page exactly if it was missing; no mapping of any directory changes; fails only when memory is out |
| `VmCode.Kernel.MapOne` | vm.c:69-73 | One page is mapped and nothing else changes, or memory is out and nothing has changed |
| `VmCode.Kernel.Mappages` | vm.c:60-80 | Succeeds if and only if the free list has a page for every missing table of the range; then exactly the pages of the range are mapped, to consecutive physical pages, otherwise a prefix of them |
| `VmCode.Kernel.FreePage` | vm.c:269-276 | Frees the page behind the entry, if any, and clears the entry |
| `VmCode.Kernel.Deallocuvm` | vm.c:255-279 | Exactly the user pages between the two sizes are unmapped and returned, in one directory, although whole 4 MB gaps are skipped |
| `VmCode.Kernel.FreeTables` | vm.c:291-296 | Each table page is returned once |
| `VmCode.Kernel.Freevm` | vm.c:283-298 | Every page the directory owned is back on the free list exactly once, no other page is, and no other address space changes |
| `VmCode.Kernel.AddPage` | vm.c:332-338 | Succeeds if and only if there is a page for it and one for its table if that is missing; a fresh page with given contents and flags is then mapped, otherwise nothing but the page in hand is left to give back |
| `VmCode.Kernel.Allocuvm` | vm.c:221-249 | Zeroed pages that nobody owned are mapped for the new range and nothing else changes; on failure every mapping is as before and no page is lost; it fails if and only if the free list is shorter than the pages plus their missing tables, or the new size reaches the kernel |
| `VmCode.Kernel.NewDirectory` | vm.c:124-126 | An empty directory, or nothing |
| `VmCode.Kernel.Setupkvm` | vm.c:118-136 | A directory with exactly the kernel's mappings, or every page owned as before; it succeeds if and only if 65 pages are free, and leaves no table in the user half |
| `VmCode.Kernel.ReadPte` | vm.c:326-331 | Reads the entry without changing anything |
| `VmCode.Kernel.Copyuvm` | vm.c:315-345 | The child's pages have the parent's contents and flags on pages nobody owned before, with the kernel's mappings above; on failure every page is owned as before; it fails if and only if fewer pages are free than 65, one per page and one per 4 MB |
| `VmCode.Kernel.Uva2ka` | vm.c:349-360 | The page behind a user address; 0 exactly where user code has no access; it reads through a null pointer exactly where the address has no page table |
| `VmCode.Kernel.Copyout` | vm.c:365-386 | For every user address and length: the bytes up to the first address that user code may not use arrive in the user memory of one address space and no other byte of any changes; it returns 0 if and only if that is all of them, and reads through a null pointer if and only if that first address has no page table |
| `VmModel.BareExactly` | vm.c:349-386 | The walk stops at an address without a table if and only if the range has such an address with every byte before it open to user code |
| `VmCode.CopyoutToNowhere` | vm.c:349-360 | It happens: one byte to address 0x40000000 of a fresh address space |
| `Umalloc.InsertKeeps` | umalloc.c:36-42 | Linking a block in between its neighbours keeps the list circular and in address order |
| `Umalloc.JoinKeeps` | umalloc.c:33-35 | Joining two touching free blocks keeps the list, covers the same units and changes no allocated block |
| `Umalloc.FreeKeeps` | umalloc.c:24-44 | All four cases of free leave an ordered circular list without touching neighbours, take exactly that block from the allocated ones and cover the same units |
| `Umalloc.FreeMem` | umalloc.c:33-42 | The stores of free, in their order, have exactly that effect on the headers in memory |
| `Umalloc.UnlinkKeeps` | umalloc.c:76-77 | Taking a whole block off the list keeps the rest in order |
| `Umalloc.CutKeeps` | umalloc.c:78-82 | Cutting the tail off a block leaves two disjoint blocks over the same units |
| `Umalloc.GrowKeeps` | umalloc.c:46-61 | A region at the break is disjoint from all blocks |
| `Umalloc.FreedRoom` | umalloc.c:57-60 | After freeing a block there is room for its size, joined or not |
| `Umalloc.RingLinks` | umalloc.c:74-74 | Following the pointers from any place visits the whole circle and comes back to it last |
| `Umalloc.UnitsCover` | umalloc.c:52-69 | The block sought holds the caller's bytes if and only if the size is at most 2^32 - 8, and then no smaller block would; sbrk is asked to grow if and only if the size is at most 2^31 - 16 or its rounding wraps |
| `Umalloc.TotalIsHeap` | umalloc.c:46-61 | Disjoint blocks covering the heap add up to its size |
| `UmallocCode.Allocator.constructor` | umalloc.c:21-22 | Nothing allocated, nothing obtained |
| `UmallocCode.Allocator.Conserved` | umalloc.c:24-90 | The sizes of free and allocated blocks add up to what morecore obtained |
| `UmallocCode.Allocator.Search` | umalloc.c:29-32 | The circular walk from freep ends, at the last listed block below the one freed |
| `UmallocCode.Allocator.Free` | umalloc.c:24-44 | The block alone leaves the allocated ones, the invariant of the list holds, and there is room for the block's size |
| `UmallocCode.Allocator.Sbrk` | proc.c:276-292 | sbrk with a signed amount, by any caller: grows up to the limit, shrinks, wraps around without effect if more is taken than there is, unmaps everything and fails if exactly all is taken; growth keeps the allocator's invariant |
| `UmallocCode.Allocator.Store` | umalloc.c:84-84 | Whatever the program writes behind the header of a block it owns, the allocator's invariant holds |
| `UmallocCode.Allocator.Morecore` | umalloc.c:46-61 | Keeps the invariant if and only if the size in bytes is a positive int; then on success the heap grew by at least 4096 units that are free now and there is room for the request, and on failure nothing changed |
| `UmallocCode.Allocator.Adopt` | umalloc.c:57-60 | The region up to the break gets a header and is freed: all of it is free now and no allocated block changes |
| `Umalloc.DeltaOf` | umalloc.c:54-54 | What sbrk is asked for, in units: the request, or the request less 2^29 from 2^28 units on |
| `UmallocCode.Allocator.Start` | umalloc.c:70-73 | The first call makes a list of base alone |
| `UmallocCode.Allocator.FullCircle` | umalloc.c:86-86 | Back at freep without a fit, no free block fits |
| `UmallocCode.Allocator.Take` | umalloc.c:75-85 | A fitting block, or the tail of a larger one, becomes allocated with exactly the size asked |
| `UmallocCode.Allocator.Malloc` | umalloc.c:63-90 | For every size: ends; the allocator's invariant holds afterwards if and only if the list has room or the size asked of sbrk is a positive int; it then returns a new block of Units(nbytes) units disjoint from all others, or 0 exactly when neither the free list nor sbrk has room |
| `UmallocCode.HugeButEmpty` | umalloc.c:69-69 | malloc(0xFFFFFFFF) succeeds with a block of one unit, all header |
| `UmallocCode.HugeSpoils` | umalloc.c:54-58 | malloc(0x80000000) as the first call leaves the heap out of order: its new region lies past the end of the process |
| `PipeModel.StepKeepsInv` | pipe.c:59-121 | Every segment of pipewrite and piperead, pipeclose and kill keep order, capacity and the rules for sleepers |
| `PipeModel.PipeInOrder` | pipe.c:78-121 | In every run the bytes delivered are, in order, a prefix of those stored, at most 512 behind, and no reader sleeps while a writer does |
| `PipeModel.ReadTakes` | pipe.c:100-121 | A read takes the smaller of what it asks for and what is inside, and sleeps exactly on an empty pipe that can still be written, unless killed |
| `PipeModel.ReadsToEnd` | pipe.c:100-121 | Once the write end is closed, m reads of n bytes deliver exactly the next m * n bytes, or all that are left |
| `PipeModel.AllDelivered` | pipe.c:59-121 | In every run: a reader that reads on after the write end is closed gets every byte that was stored |
| `PipeModel.WriterConserved` | pipe.c:78-98 | In every run with one writer, what went into the pipe followed by what it has left to write is exactly what it passed to write, in order, if and only if no call gave up |
| `PipeModel.LostWakeupExactly` | pipe.c:84-98 | The only step that leaves a reader asleep beside bytes is a killed writer's giving up when the pipe fills half-way through its bytes while a reader sleeps |
| `PipeModel.WokenExactly` | pipe.c:78-121 | Over whole runs: in no state is a reader asleep beside bytes if and only if no step of the run is of this kind |
| `PipeModel.LostWakeupHappens` | pipe.c:85-89 | It happens: a reader waits, a killed process writes 513 bytes, and the reader sleeps on beside 512 |
| `PipeCode.SlotOf` | pipe.c:93-93 | Wrapping the 32-bit counters does not move a byte's place in the ring |
| `PipeCode.RingPipe.constructor` | pipe.c:33-36 | An empty pipe, open at both ends |
| `PipeCode.RingPipe.FullWhen` | pipe.c:85-106 | The tests on the wrapped counters mean full and empty |
| `PipeCode.RingPipe.Put` | pipe.c:93-93 | Stores a byte without overwriting one not yet read |
| `PipeCode.RingPipe.Fill` | pipe.c:84-94 | The loop stores the smaller of what is left and the room |
| `PipeCode.RingPipe.Get` | pipe.c:116-116 | Takes the oldest byte not yet read |
| `PipeCode.RingPipe.Drain` | pipe.c:113-117 | The loop takes the smaller of what is asked for and what is inside |
| `PipeCode.RingPipe.Pipewrite` | pipe.c:78-98 | Stores all the bytes, or as many as there is room for; it then sleeps with the rest, or gives up with -1 if and only if the read end is closed or it is killed; it wakes the readers exactly if it does not give up |
| `PipeCode.RingPipe.Piperead` | pipe.c:100-121 | Delivers the oldest bytes, as many as the smaller of what is asked for and what is inside, and returns their number; it sleeps if and only if the pipe is empty, open for writing and the caller is not killed, and returns -1 there if killed; it wakes the writers exactly if it took its turn |
| `PipeCode.RingPipe.Pipeclose` | pipe.c:59-75 | Closes exactly that end and wakes exactly the sleepers of the other side |
| `ShellModel.RedirsBack` | sh.c:374-397 | Printed redirections parse back in order |
| `ShellModel.ArgsBack` | sh.c:429-442 | Up to nine printed words, with redirections after them, parse back |
| `ShellModel.TooManyArgs` | sh.c:438-440 | Ten words fail |
| `ShellModel.ExecBack` | sh.c:399-446 | A printed simple command or parenthesised tree, with redirections, parses back |
| `ShellModel.PipeBack` | sh.c:361-372 | A printed pipeline parses back |
| `ShellModel.HeadBack` | sh.c:349-353 | A printed command with any number of & parses back |
| `ShellModel.LineBack` | sh.c:344-359 | A printed line parses back and leaves what follows it |
| `ShellModel.LexBack` | sh.c:265-308 | Spelled-out tokens are read back one by one |
| `ShellModel.RoundTrip` | sh.c:327-446 | Parsing the canonical text of any command tree with at most nine words per command gives the tree back |
| `ShellModel.LexGood` | sh.c:265-308 | Every word that gettoken yields is non-empty and free of blanks and symbols |
| `ShellModel.LineFine` | sh.c:327-446 | Every tree that parses has at most nine words per command and redirections where they are printed |
| `ShellModel.ParserImage` | sh.c:327-446 | A command tree is the result of parsing some input if and only if it has at most nine words per command and all its words are words |
| `ShellGrammar.LineParse` | sh.c:344-359 | Every derivation of the grammar is parsed to the tree it stands for, words and redirections in any order, whatever may follow a line |
| `ShellGrammar.LineDerive` | sh.c:344-359 | Whatever is parsed has a derivation that spells the tokens taken and stands for the tree |
| `ShellGrammar.GrammarExact` | sh.c:327-446 | parsecmd yields a tree if and only if the input has a derivation, in the grammar written out as a data type, that stands for it |
| `ShellGrammar.OneReading` | sh.c:327-446 | No input has two readings |
| `ShellCode.Skip` | sh.c:272-273 | Skipping white space changes no token ahead |
| `ShellCode.GetToken` | sh.c:265-308 | Returns the first token ahead, with the exact extent of a word, and leaves the cursor at the rest |
| `ShellCode.Peek` | sh.c:310-320 | Looks at the next character after white space and changes no token ahead |
| `ShellCode.ParseRedirs` | sh.c:374-397 | The loop agrees with the grammar, failure for a missing file name included |
| `ShellCode.ParseSimple` | sh.c:426-445 | The loop over words and redirections agrees with the grammar |
| `ShellCode.ParseBlock` | sh.c:399-413 | A parenthesised line agrees with the grammar |
| `ShellCode.ParseExec` | sh.c:415-446 | Agrees with the grammar |
| `ShellCode.ParsePipe` | sh.c:361-372 | Agrees with the grammar and ends on every input |
| `ShellCode.ParseLine` | sh.c:344-359 | Agrees with the grammar and ends on every input |
| `ShellCode.Nulterminate` | sh.c:448-493 | Stores NUL at the end of every word of the tree and nowhere else |
| `ShellCode.ReadsBack` | sh.c:448-493 | No word is cut by the end of another: each reads back as a C string exactly as it was typed |
| `ShellCode.ParseCmd` | sh.c:327-342 | Succeeds exactly on the inputs that are one line of the grammar, with the grammar's tree, every word of which reads back from the buffer |
| `DirModel.KeysDiffer` | fs.c:516-520 | Where two names first differ or end decides whether they are the same name cut to 14 bytes |
| `DirModel.NamesExact` | fs.c:524-548 | Without duplicates the directory's map is exactly what the entries in use say |
| `DirModel.LinkAdds` | fs.c:564-575 | Filling a free entry, or a new one, adds exactly that name, or nothing if the inode number is 0, and makes no duplicate |
| `DirModel.UnlinkRemoves` | sysfile.c:218-220 | Clearing an entry removes exactly its name |
| `DirModel.PutEntries` | fs.c:572-575 | Writing 16 bytes at an entry's offset changes that entry only |
| `DirModel.PaddedKey` | fs.c:572-572 | A name copied into the 14-byte field is the same name cut to 14 bytes |
| `DirModel.FieldsOfJoin` | fs.c:595-618 | Splitting a path undoes joining its parts with slashes |
| `DirModel.FieldsAreParts` | fs.c:595-618 | Every part of a path is non-empty and without a slash |
| `DirCode.NameCmp` | fs.c:516-520 | 0 exactly for names that agree when cut to 14 bytes |
| `DirCode.Strncpy` | string.c:68-79 | The name cut to 14 bytes and padded with NULs |
| `DirCode.Inode.DirLookup` | fs.c:524-548 | Finds the name exactly when the directory's map has it, with its inode number and entry |
| `DirCode.Inode.FreeEntry` | fs.c:564-570 | The first unused entry, or the end |
| `DirCode.Inode.DirLink` | fs.c:550-578 | Adds exactly the name, with the low 16 bits of the inode number, unless it is there, in which case it returns -1; with those bits zero it returns 0 and adds nothing; the file does not grow while it has an unused entry |
| `DirCode.LinkOfNothing` | fs.c:550-578 | In a new directory, linking a name to inode number 65536 returns 0 and the directory stays empty |
| `DirCode.Inode.ClearEntry` | sysfile.c:218-220 | Zeroing an entry in use removes exactly its name |
| `DirCode.Inode.IsDirEmpty` | sysfile.c:167-181 | True exactly when no entry after the first two is in use |
| `DirCode.Unlink` | sysfile.c:201-239 | Succeeds exactly for a present name other than . and .. whose inode, found by the number in the entry, is not a directory in use; then exactly that name is gone and the link counts of that inode and, for a directory, of its parent drop by one; otherwise nothing changes |
| `DirCode.SkipSlashes` | fs.c:601-602 | Skipping slashes changes no path element ahead |
| `DirCode.Skipelem` | fs.c:595-618 | Yields the next non-empty element, cut to 14 bytes, and the rest of the path; fails exactly when there is none |
| `DirCode.CopyName` | fs.c:608-614 | The buffer holds the element cut to 14 bytes whatever it held before |
| `DirCode.Elements` | fs.c:634-651 | The loop over a path sees exactly its non-empty slash-separated parts cut to 14 bytes |
| `Grep.HereNothing` | grep.c:87-92 | The empty pattern matches everywhere; with a final $ only at the end of the text |
| `Grep.HereOne` | grep.c:93-94 | A character or dot takes one character of the text |
| `Grep.HereStar` | grep.c:98-106 | A star takes any number of fitting characters |
| `Grep.Match` | grep.c:72-82 | 1 exactly when some substring, at the start after a leading ^, lies in the language of the pattern |
| `Grep.MatchHere` | grep.c:85-96 | 1 exactly when a prefix of the text lies in the language of the pattern |
| `Grep.MatchStar` | grep.c:99-106 | The same for a starred character before the pattern |

## Left out

- LogCode.Log.LogWrite: models the part under the lock and assumes that the list still fits; the unlocked space test is a step of its own in `LogModel`, and `LogModel.ReservationHolds` is what makes the list fit.
- LogModel.CrashAtomicity: is stated for runs whose calls add at most 9 new blocks each, which is where the code keeps the log within its slots, as `LogModel.ExactBound` shows.
- BioCode.Cache.Change: stands for any code that stores into `b->data` under the buffer's lock; such code must log or write the buffer before `brelse`, as all callers in the kernel do.
- FsCode.Fs.Writei: leaves out device files; a disk without room for the missing blocks is the source's panic, after which nothing but that every bit is set is stated.
- FsCode.Fs.Readi: leaves out device files; whether a transaction is open when it calls `log_write` is up to its caller.
- Mkfs.MakeFs: nothing is stated about what is left of an image that overflows; the files are taken to fit the 200 inodes and their block maps, on which the program asserts.
- DirCode.Inode.DirLink: takes `readi` and `writei` as reading and splicing the bytes of the directory; their failure is a panic.
- DirCode.Unlink: starts after the path walk; reference counts of inodes are not modelled, and no entry but `.` is taken to lead back to its own directory.
- ProcModel.ReachableInv: pids are unbounded numbers; wrapping of the 32-bit `nextpid` is not modelled.
- Sync.StepKeepsInv: takes a spinlock acquire as one step that waits for the lock to be free; interrupts and memory ordering are not modelled.
- Sync.DeadlockLasts: speaks of waiting in `acquiresleep`; the detector sees a member only while it is SLEEPING, so a killed member is missing from the graph until it sleeps again.
- Detect.ReportMeansDeadlock: takes the table and the holders of all locks from one state; the code reads `lk->pid` without the lock, so that it may see a holder from a moment before or after.
- Deadlock.Detector.GetDeadlockInfo: is about one unchanged snapshot of the table and of the lock holders, for any of which `Detect` says what it means; the copy to user space is left out.
- Mlfq.NoStarvation: has one CPU and a fixed set of processes that never block; a forked child inherits its parent's level, which is outside this setting.
- VmCode.Kernel.Mappages: excludes the "remap" panic by precondition; physical pages and virtual pages are numbers, and accessed and dirty bits are left out.
- UmallocCode.Allocator.Malloc: addresses count 8-byte units, and what happens after the heap is out of order is not followed further.
- PipeModel.StepKeepsInv: an end is closed only when no process is using it, which the file table guarantees.
- ShellCode.ParseSimple: the source fills the words into a node that redirections may wrap already; the model collects both and wraps at the end. Memory exhaustion in the constructors is left out.
- FsLog.CrashBetweenTransactions: takes the transactions one after the other; calls that overlap in one group are covered by `LogModel.CrashAtomicity`, for any events.
- FsLog.CrashDuringFileWrite: takes the transactions one after the other; calls that share a group are covered by `LogModel.CrashAtomicity`, for any events. Block counts per transaction are proved for `filewrite` and `itrunc` only.
- The priority scheduler with ageing, the round-robin scheduler and the statistics counters.
- `loaduvm`, `inituvm`, `exec`, and the segment and page-directory registers.
- The inode cache (`iget`, `iput`), `namex` across directories, `create` and the other path system calls.
- The file table, the console, the IDE driver, interrupt and boot code.
- The read buffering of `grep` and all other user programs.
