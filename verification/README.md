# xv6 storage, memory and processes: a Dafny model

This project models the hard core of an xv6-riscv system and proves what it is for: the crash-safe log, the buffer
cache and the block layer of the file system, the image builder, Sv39 page tables and the page allocator, sleep and
wakeup with the pipes, semaphores and process table built on them, the virtio disk driver, the K&R allocator, the
shell's parser and grep's matcher. `dafny verify dfyconfig.toml` checks all of it.

## How it is laid out

| files | component |
|---|---|
| `RedoLog.dfy`, `Log.dfy`, `GroupCommit.dfy` | the on-disk log format and what a disk means; the code of log.c; every interleaving and crash |
| `BufRing.dfy`, `Bio.dfy` | the LRU ring and the buffer cache |
| `BlockMap.dfy`, `BlockCount.dfy`, `Fs.dfy`, `File.dfy`, `Mkfs.dfy` | bitmap, block maps and file contents as a value; the blocks a stretch of a file needs and the disk has; the code of fs.c, fileread, filewrite and mkfs |
| `Sharing.dfy` | several processes inside fs.c at once, on the same bitmap |
| `PageTable.dfy`, `Kalloc.dfy`, `Vm.dfy`, `UserCopy.dfy` | page tables as a value, the page free list, the code of vm.c and kalloc.c; copyin and copyout |
| `SleepWake.dfy`, `Pipe.dfy`, `Sem.dfy`, `Proc.dfy` | sleep and wakeup step by step; the code that relies on them |
| `VirtQueue.dfy`, `Virtio.dfy` | the split virtqueue as a value; the driver and the device |
| `FreeList.dfy`, `Umalloc.dfy` | the circular free list; malloc and free |
| `ShGrammar.dfy`, `ShLex.dfy`, `Sh.dfy` | grammar and printer; characters and tokens; the parser and nulterminate |
| `Grep.dfy` | the regular-expression matcher |
| `Arith.dfy`, `Params.dfy` | integer intervals and division facts; sizes several layers share |

Code that updates things in place is a class with methods and loops. Each such class has a function that gives its
state as a value (`S()`, `Q()`, `H()`, ...); the invariant and the effect of every step are stated and proved on that
value, and the methods are proved to take those steps. Ownership is written down once, as a map from each block, page,
descriptor or heap node to its single use, so that "no sharing" needs no talk about pairs.

## What is proved

* **The log.** A disk means its home blocks overlaid with the logged blocks its header lists. Wherever a commit or a
  recovery is cut off between two block writes, the disk means all old or all new, and all new exactly from the header
  write on; any number of crashed recoveries changes nothing. Over every interleaving of operations, commits, crashes
  and reboots the recovered disk is the result of a prefix of the committed groups, made of whole operations only; and
  whenever no operation is in progress and no commit under way, everything done is durable and at home.
  `Commit` and `RecoverFromLog` are proved to issue exactly the planned block writes, in order.
* **Log space.** If no operation logs more than 10 distinct blocks the log never overflows, and one chunk of filewrite
  logs at most 10 when the file has no holes, every allocation touching its own bitmap block. The bound 10 is reached
  by the count: four data blocks, four bitmap blocks, the indirect block and the inode.
* **The buffer cache.** The ring is one circle through all buffers in order of last release, no two buffers hold the
  same block, a referenced or pinned buffer is never recycled, the one recycled was released longest ago, and a block
  reads the same through every operation but a write by the holder of its lock.
* **Files.** The set bits are the metadata blocks and the blocks some inode reaches, each through one slot; itrunc gives
  back exactly its own blocks; writei replaces exactly the bytes it says and readi returns exactly the slice asked for,
  through direct and indirect blocks, on a full disk and with buffers that cannot be read or written to the end. How far
  readi, writei and a whole filewrite get, and how many blocks they take, is decided by the state before the call: the
  blocks missing in the range, the indirect block counted once, against the free blocks, and the bytes that can be moved.
  Every block that changes is logged, but for one case named below. mkfs establishes this, with the host's files in place,
  exactly when they fit, counted block by block. Over every interleaving of processes allocating, writing and freeing
  blocks of different files, a block has one use, and no step of one process changes what another's file reads as.
* **Memory.** Every page has one role. walk, mappages and uvmunmap change the translation of the pages named and no
  other, a failed uvmalloc, uvmcopy or vmfault leaves every mapping as it was, and uvmfree gives back exactly the pages
  of that address space, each once. copyout changes exactly the bytes of a prefix of its range that ends where a page
  cannot be had, copyin reads such a prefix, and what one has stored the other gets back. Those prefixes are the `good`
  bytes of the file and pipe code.
* **Sleep and wakeup.** In the step machine with the condition lock and each process's own lock, whoever is asleep while
  the lock is free may be, for any shared data and any rule of who may wait, as long as each critical section wakes the
  channels it invalidates. Pipes, semaphores, kwait, the log and the disk driver are shown to do that, and whoever
  sleeps in begin_op has a commit under way or an operation in progress to wait for.
* **Pipes, semaphores, processes, disk requests.** Bytes delivered are a prefix of bytes stored, through counters that
  wrap; completed waits never exceed the initial value plus posts; parents are always live and a zombie is reaped once,
  by its parent; a disk request returns after its own completion and frees its own three descriptors.
* **malloc and free.** The list stays one circular, address-ordered, coalesced list; free and live units are exactly the
  units obtained from sbrk; both search loops end.
* **The shell and grep.** gettoken's tokens of a line, the lines parsecmd accepts and the trees it returns are exactly
  those of a grammar stated without a parser; any command tree, printed with any white space that keeps its tokens apart,
  comes back; nulterminate leaves every word whole and terminated; match answers exactly the declarative meaning of the
  pattern.

## Where the code falls short of the property

* A write to a pipe returns without a wakeup, and a reader can sleep on with data to read, exactly when the pipe was
  empty with both ends open and the writer is killed after storing at least one byte, before it is done, meets a bad
  address or fills the pipe (`Pipe.LosesWakeup`, `Pipe.WriteSettles`). Every such call yields such a run
  (`Pipe.KilledWriterLosesWakeup`, with an example in `Pipe.LostWakeupExample`), and nothing else in pipe.c loses one.
* When the copy from the writer's memory fails inside a block, writei leaves that block's first bytes in the buffer,
  uncounted and not logged. A block then changes behind the log's back exactly when the write is in range, the blocks it
  needs up to the first unreadable byte are no more than the free ones, and the block of that byte existed before the
  call, was not logged already and gets a byte that is new (`Tears` in `FsCode.FileSystem.Writei`; `TearsFile` in
  `FileCode.Filewrite` for the whole system call, where the block may also have been added by an earlier chunk;
  `FileCode.CopyFailureTears` is an instance).
* malloc keeps its promises exactly unless no free block fits, sbrk does not fail, and the request is for 0x7fffffe1
  bytes or more, which sbrk's `int` argument cannot hold (`Umalloc.Allocator.Malloc`, `Umalloc.TruncatedExactly`).
* mkfs rounds the root directory's size past its end, which leaves a hole exactly when the number of files is 62 modulo
  64 (`Mkfs.Image.Build`). Reading allocates exactly when a block in the range is missing and one is free
  (`FsCode.FileSystem.Readi`), and fileread is not within a transaction, so that a block is logged is a panic when no
  other operation is open (`FileCode.Fileread`). Listing the root of a new image therefore panics exactly for 62 modulo
  64 files on a disk that is not full (`Mkfs.ListNewRoot`).
* Unused process entries have pid 0, so kill(0) marks the first of them and allocproc, which takes that same entry, does
  not clear the mark: a new process is killed already exactly when its entry was marked or the kill before was of pid 0
  (`Proc.ProcTable.KillThenAlloc`). No other operation leaves a marked entry unused.
* The comment on sem_post says it wakes one waiter; the code wakes all, and a single post with two waiters lets neither
  through (`Sem.OnePostTwoWaiters`).

## Conventions

Block numbers, page numbers, descriptor numbers and process numbers are integers; bytes are integers below 256. Counter
widths are explicit: 32 bits for pipe counters and file offsets, 16 bits for the virtqueue indices, `int` for sbrk's
argument. A panic is a `Panicked`, `Panic` or false result, or, where the source relies on its callers never to cause it, a
precondition. acquire and release are mutual exclusion; a method of a class that models code under a lock is one
critical section, so runs of such methods are the interleavings. Out-of-memory, copy faults, killed flags, the answers
of sbrk and the order in which the disk completes requests are parameters or steps.

## Model

| member | source | states |
|---|---|---|
| RedoLog.Header | Group8_Project1_xv6CustomizeSystemCalls/kernel/log.c:104-115 | the header block written over an old one reads back as exactly the given block numbers |
| RedoLog.HeaderWriteCommits | Group8_Project1_xv6CustomizeSystemCalls/kernel/log.c:195-204 | the write of a non-empty header is the commit point: it takes the disk from meaning the old image to meaning the old image overlaid with every logged block |
| RedoLog.CommitStepMeaning | Group8_Project1_xv6CustomizeSystemCalls/kernel/log.c:180-204 | of the block writes of a commit, the header write changes what the disk means and no other does |
| RedoLog.RecoverStepMeaning | Group8_Project1_xv6CustomizeSystemCalls/kernel/log.c:67-84 | no block write of a recovery changes what the disk means |
| RedoLog.CommitIsAtomic | Group8_Project1_xv6CustomizeSystemCalls/kernel/log.c:180-204 | a commit cut off after any number of block writes leaves all old before the header write and all new from it on |
| RedoLog.RecoveryKeepsMeaning | Group8_Project1_xv6CustomizeSystemCalls/kernel/log.c:118-124 | a recovery cut off anywhere leaves what the disk means unchanged |
| RedoLog.RepeatedCrashesAreHarmless | Group8_Project1_xv6CustomizeSystemCalls/kernel/log.c:118-124 | any number of recoveries, each cut off anywhere, leave what the disk means unchanged |
| RedoLog.CrashRecoveryIsAtomic | Group8_Project1_xv6CustomizeSystemCalls/kernel/log.c:66-124 | a commit cut off anywhere, then crashed recoveries, then a completed one: the home blocks are all old or all new, and all new exactly when the header write had been made |
| LogCode.Log.WriteHead | Group8_Project1_xv6CustomizeSystemCalls/kernel/log.c:104-115 | writes the header that lists the blocks logged, as the next write of the plan |
| LogCode.Log.ReadHead | Group8_Project1_xv6CustomizeSystemCalls/kernel/log.c:88-98 | reads back exactly the list the header on disk holds |
| LogCode.Log.WriteLog | Group8_Project1_xv6CustomizeSystemCalls/kernel/log.c:180-192 | copies every logged block to its place in the log, in order, as planned |
| LogCode.Log.InstallTrans | Group8_Project1_xv6CustomizeSystemCalls/kernel/log.c:67-84 | copies every log block home in order as planned; on a commit unpins exactly those buffers |
| LogCode.Log.Commit | Group8_Project1_xv6CustomizeSystemCalls/kernel/log.c:195-204 | issues exactly the planned writes of a commit in order, and nothing when nothing was logged; log and pins are empty after |
| LogCode.Log.RecoverFromLog | Group8_Project1_xv6CustomizeSystemCalls/kernel/log.c:118-124 | issues exactly the planned writes of a recovery in order; the home blocks then hold what the disk meant, and the log is empty |
| LogCode.Log.BeginOp | Group8_Project1_xv6CustomizeSystemCalls/kernel/log.c:128-143 | admits an operation exactly when no commit is under way and its full share still fits |
| LogCode.Log.LogWrite | Group8_Project1_xv6CustomizeSystemCalls/kernel/log.c:216-236 | panics exactly on a full log or outside a transaction, even for a block already logged; otherwise the block is in the list once and its latest contents are pinned |
| LogCode.Log.EndOp | Group8_Project1_xv6CustomizeSystemCalls/kernel/log.c:148-176 | the last operation out commits everything logged, the others write nothing; panics exactly when a commit is under way |
| LogCode.Log.LeaveOp | Group8_Project1_xv6CustomizeSystemCalls/kernel/log.c:152-165 | the first section of end_op: the last operation out is to commit, any other wakes whoever waits for room |
| LogCode.Log.CommitOver | Group8_Project1_xv6CustomizeSystemCalls/kernel/log.c:171-174 | the last section of end_op: the log is empty and open again, and whoever waits is woken |
| LogCode.NoLostWakeup | Group8_Project1_xv6CustomizeSystemCalls/kernel/log.c:128-176 | over every run, while the lock is free whoever sleeps in begin_op has a commit under way, or no room and an operation in progress whose end will wake it |
| GroupCommit.StepKeepsInv | Group8_Project1_xv6CustomizeSystemCalls/kernel/log.c:127-236 | every step of every process, of commit, of recovery and of a crash keeps the invariant tying disk, log, pins and committed events |
| GroupCommit.RecoverableStateIsCommittedGroups | Group8_Project1_xv6CustomizeSystemCalls/kernel/log.c:127-236 | in every reachable state the disk means the result of the committed events, and every commit point falls between whole operations |
| GroupCommit.RecoveredDisk | Group8_Project1_xv6CustomizeSystemCalls/kernel/log.c:118-124 | after recovery the home blocks hold the result of exactly the committed events |
| GroupCommit.CommittedStays | Group8_Project1_xv6CustomizeSystemCalls/kernel/log.c:148-204 | no step, a crash included, takes back a committed event |
| GroupCommit.CommitDoneIsDurable | Group8_Project1_xv6CustomizeSystemCalls/kernel/log.c:148-204 | when a commit is done everything logged so far is durable |
| GroupCommit.IdleMeansDurable | Group8_Project1_xv6CustomizeSystemCalls/kernel/log.c:148-177 | in every reachable state with no operation in progress and no commit or recovery under way, the log is empty, everything done is durable and the home blocks hold it |
| GroupCommit.StepKeepsNothingWaits | Group8_Project1_xv6CustomizeSystemCalls/kernel/log.c:148-177 | no step leaves something logged behind with nobody in and no commit under way |
| GroupCommit.LastOutCommits | Group8_Project1_xv6CustomizeSystemCalls/kernel/log.c:148-177 | the last operation out starts a commit, which, if no crash cuts it off, leaves everything done in the home blocks |
| GroupCommit.CommitsFinish | Group8_Project1_xv6CustomizeSystemCalls/kernel/log.c:195-205 | a commit under way that is left alone ends, with everything done so far durable and at home |
| GroupCommit.IdleAdmits | Group8_Project1_xv6CustomizeSystemCalls/kernel/log.c:127-146 | with nobody in and no commit under way begin_op lets the next operation in |
| GroupCommit.NoLogWriteWhileCommitting | Group8_Project1_xv6CustomizeSystemCalls/kernel/log.c:128-143 | no operation is in progress while a commit is under way, so none can call log_write |
| GroupCommit.BudgetIsKept | Group8_Project1_xv6CustomizeSystemCalls/kernel/log.c:128-143 | every step keeps the log large enough for what the operations in progress may still add |
| GroupCommit.NoOverflow | Group8_Project1_xv6CustomizeSystemCalls/kernel/log.c:216-236 | within budget a log_write that adds a block cannot hit the full-log panic, and the log is full only when every operation has used its whole share |
| GroupCommit.DisciplinedRunNeverOverflows | Group8_Project1_xv6CustomizeSystemCalls/kernel/log.c:128-143 | over every run in which operations keep to 10 blocks each, the log never exceeds its size |
| GroupCommit.NothingElseBlocks | Group8_Project1_xv6CustomizeSystemCalls/kernel/log.c:148-204 | a commit or recovery under way can always go on, and a crash can always happen |
| BufRing.ToFrontKeeps | Group8_Project1_xv6CustomizeSystemCalls/kernel/bio.c:117-137 | unlinking a buffer and linking it in after the head keeps the ring in order of last release |
| BufRing.OneRing | Group8_Project1_xv6CustomizeSystemCalls/kernel/bio.c:37-53 | the ring is one circle: a set of nodes closed under next that has the head has every buffer |
| Bio.OneBufferPerBlock | Group8_Project1_xv6CustomizeSystemCalls/kernel/bio.c:59-89 | no two buffers hold the same block |
| Bio.UnusedIsClean | Group8_Project1_xv6CustomizeSystemCalls/kernel/bio.c:59-89 | a buffer without references is unlocked, unpinned and holds nothing the disk does not |
| Bio.BufCache.Binit | Group8_Project1_xv6CustomizeSystemCalls/kernel/bio.c:37-53 | links every buffer into the ring and leaves every block reading as on disk |
| Bio.BufCache.Lookup | Group8_Project1_xv6CustomizeSystemCalls/kernel/bio.c:66-73 | walks the whole ring: returns the buffer of the block, or none exactly when no buffer has it |
| Bio.BufCache.LeastRecent | Group8_Project1_xv6CustomizeSystemCalls/kernel/bio.c:77-88 | returns, of the buffers without references, the one released longest ago, or none when all are in use |
| Bio.BufCache.Bget | Group8_Project1_xv6CustomizeSystemCalls/kernel/bio.c:59-89 | gives a reference to the block's buffer, recycling only when it is not cached and only the least recently released unused buffer; nobody's referenced buffer changes its block; every block reads as before |
| Bio.BufCache.AcquireSleep | Group8_Project1_xv6CustomizeSystemCalls/kernel/bio.c:66-86 | the holder of a reference gets the free lock of its buffer, and no block reads differently |
| Bio.BufCache.Fill | Group8_Project1_xv6CustomizeSystemCalls/kernel/bio.c:93-103 | the holder of the lock ends up with what the block reads as, cached or on disk |
| Bio.BufCache.Modify | Group8_Project1_xv6CustomizeSystemCalls/kernel/bio.c:93-103 | a write by the holder changes what that block reads as and no other |
| Bio.BufCache.Bwrite | Group8_Project1_xv6CustomizeSystemCalls/kernel/bio.c:107-112 | puts the contents on disk, only with the lock held, and no block reads differently |
| Bio.BufCache.ReleaseSleep | Group8_Project1_xv6CustomizeSystemCalls/kernel/bio.c:117-122 | a holder lets go; contents that differ from the disk stay pinned |
| Bio.BufCache.Brelse | Group8_Project1_xv6CustomizeSystemCalls/kernel/bio.c:124-137 | drops one reference, and the last one makes the buffer the most recently used; no block reads differently |
| Bio.BufCache.Bpin | Group8_Project1_xv6CustomizeSystemCalls/kernel/bio.c:140-144 | adds a reference that keeps the buffer from being recycled |
| Bio.BufCache.Bunpin | Group8_Project1_xv6CustomizeSystemCalls/kernel/bio.c:147-151 | drops that reference; contents not on disk stay locked or pinned otherwise |
| BlockMap.BitsAreReachableBlocks | Group8_Project1_xv6CustomizeSystemCalls/kernel/fs.c:67-106 | under the invariant a bit is set exactly for metadata blocks and blocks some inode reaches, and each of those is in one slot of one inode |
| BlockMap.TakeBlockKeeps | Group8_Project1_xv6CustomizeSystemCalls/kernel/fs.c:67-89 | marking a free block used and zeroing it changes no slot and no file |
| BlockMap.DropBlockKeeps | Group8_Project1_xv6CustomizeSystemCalls/kernel/fs.c:93-106 | the block in a slot has its bit set, and freeing it leaves that slot dangling and nothing else |
| BlockMap.AttachEntryKeeps | Group8_Project1_xv6CustomizeSystemCalls/kernel/fs.c:430-439 | entering a zeroed block in the indirect block keeps the invariant and every file's bytes |
| BlockMap.PutDataKeeps | Group8_Project1_xv6CustomizeSystemCalls/kernel/fs.c:529-550 | new contents for a data block change the bytes of that block of that file and nothing else |
| FsCode.FileSystem.Bzero | Group8_Project1_xv6CustomizeSystemCalls/kernel/fs.c:52-60 | zeroes the block and logs it |
| FsCode.FileSystem.Balloc | Group8_Project1_xv6CustomizeSystemCalls/kernel/fs.c:67-89 | takes the lowest free block, zeroed, marked and logged, changing no file; 0 exactly when the count of free blocks is zero |
| FsCode.FileSystem.Bfree | Group8_Project1_xv6CustomizeSystemCalls/kernel/fs.c:93-106 | clears the bit and logs it, refusing exactly when the bit is clear |
| FsCode.FileSystem.Bmap | Group8_Project1_xv6CustomizeSystemCalls/kernel/fs.c:406-444 | returns the block of the slot, allocating only what is missing from free blocks; every file reads as before; gets it exactly when the free blocks are at least those missing, takes exactly those, and changes nothing when none is missing or free; panics exactly past MAXFILE; bounds the blocks logged by the allocations needed |
| BlockCount.NeedsJoin | Group8_Project1_xv6CustomizeSystemCalls/kernel/fs.c:529-562 | what a write in two parts needs is what the whole needs: the indirect block is counted once and a shared block not twice |
| BlockCount.NoHolesNoNeed | Group8_Project1_xv6CustomizeSystemCalls/kernel/fs.c:406-444 | a stretch of a file needs no block exactly when all of its blocks are there |
| BlockCount.HaltTurn | Group8_Project1_xv6CustomizeSystemCalls/kernel/fs.c:505-518 | a turn of the loop of readi or writei either provides exactly one more block or ends the loop, as the count of missing against free blocks says |
| BlockCount.HaltMeans | Group8_Project1_xv6CustomizeSystemCalls/kernel/fs.c:505-551 | where such a loop ends, which blocks it has provided and how many are free then, all from the state before it and the number of bytes that can be moved |
| BlockCount.SameDiskSameFree | Group8_Project1_xv6CustomizeSystemCalls/kernel/fs.c:67-106 | the blocks on disk determine how many are free |
| FsCode.FileSystem.FreeSlot | Group8_Project1_xv6CustomizeSystemCalls/kernel/fs.c:449-470 | freeing a block an inode reaches never finds it free already |
| FsCode.FileSystem.Itrunc | Group8_Project1_xv6CustomizeSystemCalls/kernel/fs.c:449-476 | frees exactly the blocks of the file and no other, leaves it empty, keeps every other file, and updates the inode on disk |
| FsCode.FileSystem.Iupdate | Group8_Project1_xv6CustomizeSystemCalls/kernel/fs.c:227-242 | copies the inode to disk and logs its block |
| FsCode.FileSystem.ReadBlocks | Group8_Project1_xv6CustomizeSystemCalls/kernel/fs.c:505-518 | returns the bytes of the file from the offset on; how many, whether it fails and how many blocks it takes are as the counts of missing and free blocks and of deliverable bytes before the loop say; changes nothing when no block is missing or none is free |
| FsCode.FileSystem.Readi | Group8_Project1_xv6CustomizeSystemCalls/kernel/fs.c:495-519 | returns exactly the requested slice clipped to the size, nothing for an offset past it or an overflowing length, and -1 exactly when the buffer cannot take it all and the disk has the blocks to get there; allocates exactly when the range meets a missing block and one is free; every file reads as before |
| FsCode.FileSystem.WriteBlocks | Group8_Project1_xv6CustomizeSystemCalls/kernel/fs.c:539-551 | stores the bytes block by block, the rest of every file unchanged; provides exactly the blocks of those bytes; ends when done, for want of a block, or at the block whose bytes cannot all be read, as the counts before the loop say; logs at most nine blocks for three blocks' worth when the file has no holes |
| FsCode.FileSystem.Spill | Group8_Project1_xv6CustomizeSystemCalls/kernel/fs.c:545-548 | what a copy that fails inside a block leaves in its buffer: exactly those bytes, and the block is changed but not logged exactly when it was not logged and one byte is new |
| FsCode.FileSystem.Writei | Group8_Project1_xv6CustomizeSystemCalls/kernel/fs.c:529-562 | replaces exactly the bytes off to off plus the result, and those a failing copy left after them; sets the size to the larger of old size and end; all other inodes, slots and block uses stay; complete exactly when in range, readable and with no more blocks missing than free; otherwise the state before decides where it stops and how many blocks it takes; fails exactly out of range; keeps files without holes so, logs at most ten blocks for three blocks' worth, and logs everything changed exactly unless the failing copy changes an old block not logged before, a condition on the state before the call |
| FileCode.WriteChunk | Group8_Project1_xv6CustomizeSystemCalls/kernel/file.c:156-171 | a turn of filewrite's loop: one transaction that moves the offset by what was counted, logs at most MAXOPBLOCKS blocks when the file has no holes, writes the inode back, and goes on or ends the call |
| FileCode.WroteJoin | Group8_Project1_xv6CustomizeSystemCalls/kernel/file.c:155-173 | writei of one part and then of the next has the effect of one write of both, on bytes, size, blocks, free blocks and everything else |
| FileCode.Filewrite | Group8_Project1_xv6CustomizeSystemCalls/kernel/file.c:135-179 | the file gets a prefix of the buffer at the offset, plus what a failing copy left, and every other inode, slot and block use stays; the result is n exactly when the range starts in the file and fits, all bytes can be read and no more blocks are missing than free; otherwise the state before the call decides how many bytes count, which blocks are added and how many stay free; the inode on disk is the one in memory once a chunk has run; every transaction stays within MAXOPBLOCKS; everything changed is logged exactly unless the failing copy changes a block that existed or that the chunk before added |
| FileCode.Fileread | Group8_Project1_xv6CustomizeSystemCalls/kernel/file.c:120-124 | delivers exactly the bytes readi gives for the offset and length, and moves the offset by their number: with no holes and room for them all, the smaller of the length and what is left of the file; nothing past the end; -1 exactly when the buffer stops it; with no transaction open it logs a block, which panics, exactly when the range it comes to has a missing block and one is free |
| FileCode.CopyFailureTears | Group8_Project1_xv6CustomizeSystemCalls/kernel/fs.c:545-548 | writing two bytes of which one can be read counts none, yet the file reads the new byte and its block is not logged |
| Sharing.StepKeeps | Group8_Project1_xv6CustomizeSystemCalls/kernel/fs.c:406-476 | every step of any process - lock, allocate, enter a block in a direct, indirect or entry slot, write, free, clear - keeps the ownership of blocks, and changes no slot in use but the one it fills |
| Sharing.OneSlot | Group8_Project1_xv6CustomizeSystemCalls/kernel/fs.c:406-476 | over every interleaving no two slots in use name the same block, and its bit is set |
| Sharing.OneHand | Group8_Project1_xv6CustomizeSystemCalls/kernel/fs.c:67-89 | over every interleaving a block from balloc is with one process and in no slot until that process enters it |
| Sharing.QuietIsInv | Group8_Project1_xv6CustomizeSystemCalls/kernel/fs.c:406-476 | whenever nothing is in hand and no freed block is still named, the invariant of the code running alone holds |
| Sharing.OthersDoNotSee | Group8_Project1_xv6CustomizeSystemCalls/kernel/fs.c:406-562 | a file changes only by writes to it and frees of its own blocks, whatever the other processes do |
| Sharing.TakesAndEnters | Group8_Project1_xv6CustomizeSystemCalls/kernel/fs.c:406-444 | a process that holds the inode's lock can take any free block and enter it in an empty slot, which then holds that block |
| Sharing.DropsAndClears | Group8_Project1_xv6CustomizeSystemCalls/kernel/fs.c:449-476 | and can free the block of a slot, which is free at once, and clear the slot |
| Sharing.WriteSeen | Group8_Project1_xv6CustomizeSystemCalls/kernel/fs.c:529-550 | a file reads as what was last written to its block |
| Mkfs.BitmapBits | Group8_Project1_xv6CustomizeSystemCalls/mkfs/mkfs.c:237-250 | the bitmap block for n blocks has exactly the first n bits set |
| Mkfs.FirstBits | Group8_Project1_xv6CustomizeSystemCalls/mkfs/mkfs.c:244-247 | the loop that sets bit after bit ends with exactly the first bits set |
| Mkfs.Image.constructor | Group8_Project1_xv6CustomizeSystemCalls/mkfs/mkfs.c:92-115 | the empty image satisfies the block invariant, with every inode empty and in exactly no blocks |
| Mkfs.Image.Ialloc | Group8_Project1_xv6CustomizeSystemCalls/mkfs/mkfs.c:223-234 | hands out the next inode, empty, and changes nothing else |
| Mkfs.Image.Iappend | Group8_Project1_xv6CustomizeSystemCalls/mkfs/mkfs.c:255-296 | succeeds exactly when old size plus length is within the maximum and the blocks that takes, indirect block included, are left; takes exactly those; the file then has the bytes appended and every other file is unchanged |
| Mkfs.Image.Balloc | Group8_Project1_xv6CustomizeSystemCalls/mkfs/mkfs.c:237-250 | writes the bitmap that makes the image satisfy the kernel's block invariant |
| Mkfs.Image.AddRoot | Group8_Project1_xv6CustomizeSystemCalls/mkfs/mkfs.c:117-128 | succeeds exactly when a block is left and takes one; the root directory is inode 1 with its two entries, and every other inode is still empty |
| Mkfs.Image.PadRoot | Group8_Project1_xv6CustomizeSystemCalls/mkfs/mkfs.c:165-170 | rounding the root directory's size up keeps its bytes and every other file, and leaves a hole exactly when its entries fill whole blocks |
| Mkfs.Image.AddFile | Group8_Project1_xv6CustomizeSystemCalls/mkfs/mkfs.c:151-159 | a host file read in any pieces ends up in a new inode with an entry appended to the root directory, exactly when both fit, taking exactly the blocks they need |
| Mkfs.Image.CopyPieces | Group8_Project1_xv6CustomizeSystemCalls/mkfs/mkfs.c:158-159 | the copying loop succeeds exactly when the whole file fits, and keeps the root directory and every other file |
| Mkfs.Image.Build | Group8_Project1_xv6CustomizeSystemCalls/mkfs/mkfs.c:69-175 | succeeds exactly when no file is too long and directory and files fit block by block; the image then satisfies the block invariant, holds every host file and the directory's entries, and its root directory has no hole exactly when the number of files is not 62 modulo 64 |
| Mkfs.MakeAndMount | Group8_Project1_xv6CustomizeSystemCalls/mkfs/mkfs.c:69-175 | exactly for files that fit, a kernel booted on the new image starts with the file system invariant, the files in place and the directory's entries in the root |
| Mkfs.RootNames | Group8_Project1_xv6CustomizeSystemCalls/mkfs/mkfs.c:117-159 | the root directory's entries read back as . and .. for inode 1 and each host file's name for the inode that holds its contents |
| Mkfs.DirentReadsBack | Group8_Project1_xv6CustomizeSystemCalls/mkfs/mkfs.c:154-157 | inode number and name read back out of a directory entry |
| Mkfs.ListNewRoot | Group8_Project1_xv6CustomizeSystemCalls/kernel/file.c:120-124 | reading the root directory of a new image logs a block outside any transaction exactly when the number of files is 62 modulo 64 and the disk is not full |
| PageTable.PteParts | Group8_Project1_xv6CustomizeSystemCalls/kernel/riscv.h:358-369 | page number and flags packed into an entry come back out of it |
| PageTable.AddMidLooks | Group8_Project1_xv6CustomizeSystemCalls/kernel/vm.c:98-115 | hooking an empty table into a root leaves every translation of every root as it was |
| PageTable.MapLeafWithin | Group8_Project1_xv6CustomizeSystemCalls/kernel/vm.c:146-174 | storing a leaf gives its page that translation, changes no other page's, and leaves every other frame with its role and contents |
| PageTable.LeafStoreLooks | Group8_Project1_xv6CustomizeSystemCalls/kernel/vm.c:193-212 | storing or clearing a leaf entry changes the translation of its page under its root and no other |
| PageTable.Restored | Group8_Project1_xv6CustomizeSystemCalls/kernel/vm.c:217-240 | once the pages mapped are unmapped again, every translation and every frame is as before |
| PageList.PopKeeps | Group8_Project1_xv6CustomizeSystemCalls/kernel/kalloc.c:69-82 | taking the first page off the free list leaves a list that runs once through the other free pages |
| PageList.PushKeeps | Group8_Project1_xv6CustomizeSystemCalls/kernel/kalloc.c:47-63 | putting a page on the free list leaves a list that runs once through all free pages |
| Vm.Machine.Kalloc | Group8_Project1_xv6CustomizeSystemCalls/kernel/kalloc.c:69-82 | takes a free page, 0 exactly when there is none |
| Vm.Machine.Kfree | Group8_Project1_xv6CustomizeSystemCalls/kernel/kalloc.c:47-63 | puts a page on the free list and keeps everybody else's pages |
| Vm.Machine.Freerange | Group8_Project1_xv6CustomizeSystemCalls/kernel/kalloc.c:34-40 | puts exactly the whole pages of the range on the free list, each once |
| Vm.Machine.Walk | Group8_Project1_xv6CustomizeSystemCalls/kernel/vm.c:98-115 | finds the leaf entry's table and index for an address; without alloc changes nothing and fails only where nothing is mapped; with alloc fails only without memory; no translation changes |
| Vm.Machine.MapOne | Group8_Project1_xv6CustomizeSystemCalls/kernel/vm.c:163-167 | one page of mappages: its translation is set and no other changes; panics exactly on an address too high or a page mapped already, and panic or want of memory leave every translation as it was |
| Vm.Machine.MapPages | Group8_Project1_xv6CustomizeSystemCalls/kernel/vm.c:146-174 | maps a run of pages to a run of frames and no other page; panics at once exactly on unaligned or empty arguments, and later exactly at the first page that is mapped already or too high; runs out of memory only with fewer than two free pages per page; the pages before stay mapped |
| Vm.Machine.UvmUnmap | Group8_Project1_xv6CustomizeSystemCalls/kernel/vm.c:193-212 | removes exactly the translations of the pages in the range of addresses and, if asked, frees each mapped frame once; panics exactly on an unaligned start, at once, and on a range past MAXVA, after the pages below |
| Vm.Machine.UvmCreate | Group8_Project1_xv6CustomizeSystemCalls/kernel/vm.c:179-187 | a new root that translates nothing, from a free page |
| Vm.Machine.AddPage | Group8_Project1_xv6CustomizeSystemCalls/kernel/vm.c:227-237 | a fresh page with given contents is mapped, or, with fewer than three free pages only, page and mappings are put back |
| Vm.Machine.UvmAlloc | Group8_Project1_xv6CustomizeSystemCalls/kernel/vm.c:217-240 | every page that begins between the old size and the new gets a fresh zeroed frame and no other translation changes; fails only with fewer than three free pages per page asked for, and then every mapping and frame is as before |
| Vm.RoundUp | Group8_Project1_xv6CustomizeSystemCalls/kernel/riscv.h:354-356 | the first page boundary that is not below the size |
| Vm.Machine.UvmDealloc | Group8_Project1_xv6CustomizeSystemCalls/kernel/vm.c:247-258 | unmaps exactly the pages that begin between the sizes; their frames become free, no other page changes its use and the free list does not shrink |
| Vm.Machine.UvmCopy | Group8_Project1_xv6CustomizeSystemCalls/kernel/vm.c:297-325 | every page that begins below the size is copied to the child with the same flags and contents, changing nothing of the parent; fails only with fewer than three free pages per page, and then the child is as before |
| Vm.Machine.VmFault | Group8_Project1_xv6CustomizeSystemCalls/kernel/vm.c:454-474 | maps one zeroed page at a faulting address below the size that has no mapping; returns 0 only past the size, on a mapped page or with fewer than three free pages, changing no mapping |
| UserCopy.PatchBytes | Group8_Project1_xv6CustomizeSystemCalls/kernel/vm.c:369 | memmove into a page changes exactly the bytes it covers |
| UserCopy.JunkBytes | Group8_Project1_xv6CustomizeSystemCalls/kernel/kalloc.c:47-82 | every byte of a page that kalloc hands out, or kfree takes back, is the byte memset was given |
| UserCopy.WalkAddr | Group8_Project1_xv6CustomizeSystemCalls/kernel/vm.c:121-138 | the physical address of a mapped user page, 0 for every other address |
| UserCopy.FaultSeen | Group8_Project1_xv6CustomizeSystemCalls/kernel/vm.c:454-474 | a page allocated on first use changes nothing the program sees |
| UserCopy.GrownOwns | Group8_Project1_xv6CustomizeSystemCalls/kernel/vm.c:217-240 | the pages uvmalloc adds are frames of their own, as copyout and copyin rely on |
| UserCopy.CopiedOwns | Group8_Project1_xv6CustomizeSystemCalls/kernel/vm.c:297-325 | and so are the pages uvmcopy makes |
| UserCopy.Copyout | Group8_Project1_xv6CustomizeSystemCalls/kernel/vm.c:344-376 | stores exactly a prefix of the bytes, all of them exactly when it succeeds, and changes nothing else the program sees; stops before the first page that is too high, mapped without user or write permission, past the size, or for which memory runs out |
| UserCopy.Copyin | Group8_Project1_xv6CustomizeSystemCalls/kernel/vm.c:382-404 | reads exactly a prefix of what the program sees, all of it exactly when it succeeds, changing nothing the program sees; stops before the first page that is too high, not the user's, past the size, or for which memory runs out |
| UserCopy.CopyBack | Group8_Project1_xv6CustomizeSystemCalls/kernel/vm.c:344-404 | what a copyout that succeeds has stored, a copyin of the range returns, whatever memory is left |
| Vm.Machine.Freewalk | Group8_Project1_xv6CustomizeSystemCalls/kernel/vm.c:263-278 | frees the tables below and at a table without leaves, each once, and nothing else |
| Vm.Machine.UvmFree | Group8_Project1_xv6CustomizeSystemCalls/kernel/vm.c:283-288 | gives back exactly the pages of the address space, each once, and keeps every other address space's translations |
| SleepWake.StepKeepsInv | Group8_Project1_xv6CustomizeSystemCalls/kernel/proc.c:558-602 | every step of acquire, data change, wakeup, sleep and kill keeps the invariant between sleepers and the lock holder, for any data and any rule of who may wait |
| SleepWake.NoLostWakeup | Group8_Project1_xv6CustomizeSystemCalls/kernel/proc.c:558-602 | over every run whose critical sections wake what they invalidate, whoever is asleep while the lock is free may be |
| SleepWake.ClientLosesNoWakeup | Group8_Project1_xv6CustomizeSystemCalls/kernel/proc.c:558-602 | any code whose sections wake what they invalidate and sleep where they may loses no wakeup, over every run |
| SleepWake.ClientKeeps | Group8_Project1_xv6CustomizeSystemCalls/kernel/proc.c:558-602 | what every section of a client keeps of the shared data holds whenever the lock is free, over every run |
| SleepWake.WakeupIsComplete | Group8_Project1_xv6CustomizeSystemCalls/kernel/proc.c:589-602 | a finished wakeup leaves nobody waiting on its channel, not even a process between releasing the lock and SLEEPING |
| SleepWake.UnsettledLoses | Group8_Project1_xv6CustomizeSystemCalls/kernel/proc.c:558-602 | releasing the lock keeps the invariant exactly when everybody waiting still may |
| SleepWake.ScanGoesOn | Group8_Project1_xv6CustomizeSystemCalls/kernel/proc.c:589-602 | a wakeup held up by a process falling asleep can go on after that process's next step |
| SleepWake.StepTouches | Group8_Project1_xv6CustomizeSystemCalls/kernel/proc.c:558-602 | a step moves no process but its own, except that a wakeup makes a sleeper on its channel ready |
| Pipe.Pipe.WriteSection | Group8_Project1_xv6CustomizeSystemCalls/kernel/pipe.c:77-103 | pipewrite from taking the lock to releasing it or sleeping: stores the buffer up to the first stop, which is its end, the kill, the bad address, a closed reader or a full pipe; on the byte counts, sleeps exactly before the end on a full pipe with a reader and not killed, returns -1 exactly before the end when killed or without reader, and in every other case the number of bytes stored so far; wakes readers unless it returns -1; loses a wakeup exactly under the stated condition on its inputs |
| Pipe.Pipe.ReadSection | Group8_Project1_xv6CustomizeSystemCalls/kernel/pipe.c:106-134 | piperead from taking the lock: sleeps exactly on an empty pipe with a writer, otherwise delivers the next bytes in order until none is left, as many as asked for are out, or the copy faults, and wakes writers |
| Pipe.Pipe.Close | Group8_Project1_xv6CustomizeSystemCalls/kernel/pipe.c:59-74 | closes one end and wakes the processes waiting on it |
| Pipe.Pipe.Put | Group8_Project1_xv6CustomizeSystemCalls/kernel/pipe.c:95-96 | one more byte stored, at the place the wrapped counter gives, keeps the bytes in order in the ring |
| Pipe.Pipe.Get | Group8_Project1_xv6CustomizeSystemCalls/kernel/pipe.c:120-130 | the next byte delivered is the oldest not yet delivered, through wrapped counters |
| Pipe.Counters | Group8_Project1_xv6CustomizeSystemCalls/kernel/pipe.c:88-121 | the 32-bit tests for empty and full are exact for counters that have wrapped |
| Pipe.WriteSettles | Group8_Project1_xv6CustomizeSystemCalls/kernel/pipe.c:77-103 | a write section wakes what it must exactly unless the pipe was empty with both ends open and the kill comes after the first byte and before the end, a bad address or a full pipe |
| Pipe.NoLostWakeup | Group8_Project1_xv6CustomizeSystemCalls/kernel/pipe.c:59-134 | over every run without that case, while the lock is free a sleeping writer faces a full pipe with a reader and a sleeping reader an empty one with a writer |
| Pipe.KilledWriterLosesWakeup | Group8_Project1_xv6CustomizeSystemCalls/kernel/pipe.c:84-87 | every such call, made while a reader sleeps, leaves the reader asleep with bytes to read and the lock free |
| Pipe.LostWakeupExample | Group8_Project1_xv6CustomizeSystemCalls/kernel/pipe.c:84-87 | the smallest instance: two bytes written to a new pipe, killed after the first |
| Sem.SemTable.Get | Group8_Project1_xv6CustomizeSystemCalls/kernel/sem.c:26-44 | claims the first free slot with the initial value; -1 exactly for a negative value or a full table |
| Sem.SemTable.Wait | Group8_Project1_xv6CustomizeSystemCalls/kernel/sem.c:48-71 | decrements first; returns 0 exactly when the value was positive and sleeps otherwise, keeping value, waiters and completed waits accounted for |
| Sem.SemTable.WaitAgain | Group8_Project1_xv6CustomizeSystemCalls/kernel/sem.c:62-73 | after a sleep returns 0 exactly when initial value plus posts cover every wait begun, -1 exactly when the semaphore is gone, and sleeps otherwise |
| Sem.SemTable.Post | Group8_Project1_xv6CustomizeSystemCalls/kernel/sem.c:78-95 | one more post, and a wakeup for everybody who waits |
| Sem.SemTable.Close | Group8_Project1_xv6CustomizeSystemCalls/kernel/sem.c:99-116 | frees the slot and wakes everybody who waits |
| Sem.NoLostWakeup | Group8_Project1_xv6CustomizeSystemCalls/kernel/sem.c:48-116 | over every run, while the lock is free nobody sleeps on a semaphore that is not negative or is closed |
| Sem.OnePostTwoWaiters | Group8_Project1_xv6CustomizeSystemCalls/kernel/sem.c:61-63 | with two waiters on a semaphore that began at 0, one post lets neither through |
| Proc.ProcTable.constructor | Group8_Project1_xv6CustomizeSystemCalls/kernel/proc.c:233-245 | the table after userinit satisfies the invariant, with init alone |
| Proc.ProcTable.Wakeup | Group8_Project1_xv6CustomizeSystemCalls/kernel/proc.c:589-602 | makes exactly the other sleepers on the channel runnable |
| Proc.ProcTable.Reparent | Group8_Project1_xv6CustomizeSystemCalls/kernel/proc.c:326-336 | gives exactly p's children to init and wakes init exactly when there are any |
| Proc.ProcTable.Kexit | Group8_Project1_xv6CustomizeSystemCalls/kernel/proc.c:342-381 | p becomes a zombie, its children are init's, and exactly the sleepers on its parent's channel, and on init's if it had children, are made runnable; panics exactly for init |
| Proc.ProcTable.Kwait | Group8_Project1_xv6CustomizeSystemCalls/kernel/proc.c:386-430 | reaps the first zombie child, whose pid was never reaped before, and nothing on a copy fault; sleeps exactly with children, no zombie among them and not killed |
| Proc.ProcTable.Alloc | Group8_Project1_xv6CustomizeSystemCalls/kernel/proc.c:110-157 | the first unused entry gets the next pid and every other entry keeps its own; none exactly when the table is full or memory is short, and then the entry is reset; the mark of a kill is left as it is, and is clear if no unused entry was marked |
| Proc.ProcTable.SetParent | Group8_Project1_xv6CustomizeSystemCalls/kernel/proc.c:312-314 | the child being forked gets its parent and the invariant holds |
| Proc.ProcTable.MakeRunnable | Group8_Project1_xv6CustomizeSystemCalls/kernel/proc.c:316-318 | the child becomes runnable only with a live parent in place |
| Proc.ProcTable.Kkill | Group8_Project1_xv6CustomizeSystemCalls/kernel/proc.c:608-626 | marks the first entry with that pid and makes it runnable if asleep; -1 exactly when no entry has it; for pid 0 that is the first unused entry, and exactly then an unused entry is left marked |
| Proc.ProcTable.KillThenAlloc | Group8_Project1_xv6CustomizeSystemCalls/kernel/proc.c:110-126 | a process allocated after a kill is killed already exactly when its entry was marked before or the kill was of pid 0 |
| Proc.ProcTable.Freeproc | Group8_Project1_xv6CustomizeSystemCalls/kernel/proc.c:163-185 | a zombie's entry becomes unused and reset, and its pid is spent |
| Proc.ProcTable.Reschedule | Group8_Project1_xv6CustomizeSystemCalls/kernel/proc.c:440-516 | running, yielding and sleeping on other channels change that process's state and channel only and keep the process-tree invariant |
| Proc.ProcTable.WakeAll | Group8_Project1_xv6CustomizeSystemCalls/kernel/proc.c:589-602 | a wakeup by anybody makes exactly the other sleepers on the channel runnable and keeps the process-tree invariant |
| Proc.ExitKeeps | Group8_Project1_xv6CustomizeSystemCalls/kernel/proc.c:342-381 | an exit keeps every parent live, every process but init with a parent, and no kwait sleeper with a zombie child |
| Proc.ParentsAreLive | Group8_Project1_xv6CustomizeSystemCalls/kernel/proc.c:273-430 | every process that has run, init apart, has a parent that is neither unused nor a zombie |
| Proc.ZombiesAreChildless | Group8_Project1_xv6CustomizeSystemCalls/kernel/proc.c:326-381 | nobody's parent is a zombie |
| Proc.ExitSettles | Group8_Project1_xv6CustomizeSystemCalls/kernel/proc.c:326-381 | the wakeups of kexit cover every channel whose process gains a zombie child |
| Proc.NoZombieMissed | Group8_Project1_xv6CustomizeSystemCalls/kernel/proc.c:386-430 | over every interleaving of sleep and wakeup under wait_lock, while it is free nobody sleeps in kwait with a zombie child |
| VirtQueue.ChainsPartition | Group8_Project1_xv6CustomizeSystemCalls/kernel/virtio_disk.c:202-213 | chains in flight share no descriptor and use none that is free |
| VirtQueue.EveryDescHasItsUse | Group8_Project1_xv6CustomizeSystemCalls/kernel/virtio_disk.c:157-213 | a descriptor that is neither free nor in hand is in a chain in flight |
| VirtQueue.SubmitKeeps | Group8_Project1_xv6CustomizeSystemCalls/kernel/virtio_disk.c:238-281 | posting a chain overwrites no ring entry the device has not read |
| VirtQueue.CompleteKeeps | Group8_Project1_xv6CustomizeSystemCalls/kernel/virtio_disk.c:295-327 | a completion overwrites no used-ring entry the driver has not seen |
| VirtQueue.Index | Group8_Project1_xv6CustomizeSystemCalls/kernel/virtio_disk.c:272-277 | the ring place taken from a 16-bit index is that of the full count, and the index counts on through the wrap |
| VirtQueue.Compare | Group8_Project1_xv6CustomizeSystemCalls/kernel/virtio_disk.c:312 | 16-bit indices are equal exactly when the full counts are |
| Virtio.Disk.AllocDesc | Group8_Project1_xv6CustomizeSystemCalls/kernel/virtio_disk.c:157-166 | takes the first free descriptor, -1 exactly when there is none |
| Virtio.Disk.FreeDesc | Group8_Project1_xv6CustomizeSystemCalls/kernel/virtio_disk.c:170-182 | frees a descriptor, refusing exactly one out of range or free already |
| Virtio.Disk.FreeChain | Group8_Project1_xv6CustomizeSystemCalls/kernel/virtio_disk.c:186-197 | frees exactly the three descriptors linked from the head |
| Virtio.Disk.Alloc3 | Group8_Project1_xv6CustomizeSystemCalls/kernel/virtio_disk.c:202-213 | takes three different free descriptors exactly when there are three, and otherwise leaves all as they were |
| Virtio.Disk.Submit | Group8_Project1_xv6CustomizeSystemCalls/kernel/virtio_disk.c:216-281 | posts a chain of three formerly free descriptors that reads as this request, or sleeps exactly when fewer than three are free |
| VirtQueue.ChainIsRequest | Group8_Project1_xv6CustomizeSystemCalls/kernel/virtio_disk.c:238-269 | the device, walking the chain of any request in flight by its flags and links, reads exactly that request: direction, sector, the request's own buffer and its own status byte |
| Virtio.Disk.Take | Group8_Project1_xv6CustomizeSystemCalls/kernel/virtio_disk.c:271-281 | the device reads the chains off the available ring in the order posted, each once and each as the request that was made |
| Virtio.Disk.Complete | Group8_Project1_xv6CustomizeSystemCalls/kernel/virtio_disk.c:309-314 | the device completes a chain it has taken, in any order, each once |
| Virtio.Disk.IntrTurn | Group8_Project1_xv6CustomizeSystemCalls/kernel/virtio_disk.c:312-324 | takes the next completion, if there is one, and releases that request's buffer and no other; panics exactly on a bad status |
| Virtio.Disk.Intr | Group8_Project1_xv6CustomizeSystemCalls/kernel/virtio_disk.c:295-327 | releases the buffers of the requests completed so far, up to the first with a bad status, where it panics; no other request changes |
| Virtio.Disk.Finish | Group8_Project1_xv6CustomizeSystemCalls/kernel/virtio_disk.c:283-291 | goes on exactly after the driver has seen a completion of this very request, posted before it, and frees exactly its three descriptors |
| Virtio.NoLostWakeup | Group8_Project1_xv6CustomizeSystemCalls/kernel/virtio_disk.c:216-327 | over every run, while the lock is free a process sleeps for descriptors only with fewer than three free, and for a buffer only while the disk has it |
| FreeList.OneCircle | Group8_Project1_xv6CustomizeSystemCalls/user/umalloc.c:25-44 | the free list is one circle: a set of nodes closed under ptr is all of them |
| FreeList.BlocksAreDisjoint | Group8_Project1_xv6CustomizeSystemCalls/user/umalloc.c:25-90 | no unit belongs to two blocks, free or live |
| FreeList.FreedKeeps | Group8_Project1_xv6CustomizeSystemCalls/user/umalloc.c:25-44 | linking a block in after its predecessor and merging both ways keeps the list circular, ordered and coalesced |
| FreeList.TakenKeeps | Group8_Project1_xv6CustomizeSystemCalls/user/umalloc.c:76-77 | unlinking a node that fits exactly keeps the list circular, ordered and coalesced |
| FreeList.CutKeeps | Group8_Project1_xv6CustomizeSystemCalls/user/umalloc.c:79-81 | cutting units off the end of a node keeps the list, and the piece is a new block |
| Umalloc.Allocator.FindBefore | Group8_Project1_xv6CustomizeSystemCalls/user/umalloc.c:30-32 | the search of free ends, at the node after which the block belongs |
| Umalloc.Allocator.Free | Group8_Project1_xv6CustomizeSystemCalls/user/umalloc.c:25-44 | the block is free again, merged with free neighbours; units covered, other live blocks and the list's shape are kept |
| Umalloc.Allocator.Morecore | Group8_Project1_xv6CustomizeSystemCalls/user/umalloc.c:47-61 | asks sbrk once; on failure nothing changes; otherwise break and units obtained are exactly those of the answer and the chunk is in the list, where a large enough node then is; units stay accounted for exactly unless sbrk's argument was truncated |
| Umalloc.Allocator.Malloc | Group8_Project1_xv6CustomizeSystemCalls/user/umalloc.c:64-90 | calls sbrk exactly when no free block fits, and then once; returns 0 exactly when that fails, changing nothing obtained; otherwise a new live block of enough units disjoint from all others; free plus live units stay the units obtained exactly unless that call truncated sbrk's argument |
| Umalloc.TruncatedExactly | Group8_Project1_xv6CustomizeSystemCalls/user/umalloc.c:47-61 | sbrk's int argument is truncated exactly for requests of 0x7fffffe1 bytes and more |
| Umalloc.UnitsFor | Group8_Project1_xv6CustomizeSystemCalls/user/umalloc.c:69 | the fewest units whose bytes hold the request, and one for the header |
| Umalloc.CoreUnits | Group8_Project1_xv6CustomizeSystemCalls/user/umalloc.c:52-53 | the units asked for, and never fewer than 4096 |
| Umalloc.AfterGrowth | Group8_Project1_xv6CustomizeSystemCalls/user/umalloc.c:47-61 | after a chunk is added free plus live units are the units below the break exactly when the argument was not truncated |
| ShGrammar.ParsePrinted | Group8_Project1_xv6CustomizeSystemCalls/user/sh.c:351-452 | parsing the printed tokens of any tree within the argument limit, over words of any kind, gives that tree and uses them up |
| ShGrammar.ParsesExactly | Group8_Project1_xv6CustomizeSystemCalls/user/sh.c:351-452 | the parser accepts exactly the token lists of the grammar - words and redirections in any order, blocks, pipelines, ampersands, lists - with fewer than ten words to a command, and returns the tree they stand for; every other list it refuses or does not use up |
| ShGrammar.Unambiguous | Group8_Project1_xv6CustomizeSystemCalls/user/sh.c:351-452 | two ways to write the same tokens stand for the same tree |
| ShLex.LexExactly | Group8_Project1_xv6CustomizeSystemCalls/user/sh.c:272-314 | a line lexes to given tokens if and only if it is those tokens with any white space around them, and with some wherever two words or two signs would run together |
| ShLex.RoundTrip | Group8_Project1_xv6CustomizeSystemCalls/user/sh.c:272-452 | a tree printed with any white space, or with none but where two words or two signs would run together, lexes and parses back to that tree and uses up the line |
| ShLex.AbsParseLine | Group8_Project1_xv6CustomizeSystemCalls/user/sh.c:351-452 | what the parser does depends on the words only through their order |
| Sh.GetToken | Group8_Project1_xv6CustomizeSystemCalls/user/sh.c:272-314 | returns the next token of the line and the word it delimits, and moves just past it; 0 exactly at the end |
| Sh.Peek | Group8_Project1_xv6CustomizeSystemCalls/user/sh.c:317-326 | tells whether the next character is one of those given, and moves past white space only |
| Sh.ParseRedirections | Group8_Project1_xv6CustomizeSystemCalls/user/sh.c:381-403 | takes exactly the redirections that follow; panics exactly on a sign without a file |
| Sh.ArgsAt | Group8_Project1_xv6CustomizeSystemCalls/user/sh.c:437-451 | gathers the words and redirections of a command up to a separator; panics exactly on a tenth word, a stray symbol or a missing file |
| Sh.BlockAt | Group8_Project1_xv6CustomizeSystemCalls/user/sh.c:406-419 | parses a parenthesized line and its redirections; panics exactly where the grammar does |
| Sh.ExecAt | Group8_Project1_xv6CustomizeSystemCalls/user/sh.c:422-452 | parses a command or a block as the grammar says, on every line, and ends |
| Sh.PipeAt | Group8_Project1_xv6CustomizeSystemCalls/user/sh.c:368-378 | parses a pipeline as the grammar says, on every line, and ends |
| Sh.LineAt | Group8_Project1_xv6CustomizeSystemCalls/user/sh.c:351-365 | parses a line with its background and list operators as the grammar says, on every line, and ends |
| Sh.NulTerminate | Group8_Project1_xv6CustomizeSystemCalls/user/sh.c:456-499 | writes a NUL just after every word of the tree and changes nothing else |
| Sh.WordsIntact | Group8_Project1_xv6CustomizeSystemCalls/user/sh.c:456-499 | after that every word pointer of the tree is the C string gettoken delimited |
| Sh.ParseCommand | Group8_Project1_xv6CustomizeSystemCalls/user/sh.c:334-348 | answers the grammar's tree when it uses up the line, with every word a C string of its own, and panics otherwise |
| Sh.AcceptsExactly | Group8_Project1_xv6CustomizeSystemCalls/user/sh.c:334-348 | parsecmd returns a tree that reads as t if and only if the line is written as the grammar says for t, and panics on every other line |
| Sh.PrintedCommandParses | Group8_Project1_xv6CustomizeSystemCalls/user/sh.c:334-348 | parsecmd on a tree printed with any white space that keeps its tokens apart returns that tree |
| Grep.MatchHere | Group8_Project1_xv6CustomizeSystemCalls/user/grep.c:85-96 | true exactly when the text from here on can be divided among the pattern's items |
| Grep.MatchStar | Group8_Project1_xv6CustomizeSystemCalls/user/grep.c:99-106 | true exactly when some run of the character, then the rest of the pattern, fits |
| Grep.Match | Group8_Project1_xv6CustomizeSystemCalls/user/grep.c:73-82 | true exactly when the pattern's meaning holds at some position, or at the start under ^ |
| Grep.ReadsExactly | Group8_Project1_xv6CustomizeSystemCalls/user/grep.c:73-106 | a pattern is read as given items exactly when they spell it and no other reading does: a starred character before all else, a dollar only at the end |
| Grep.PlainMatches | Group8_Project1_xv6CustomizeSystemCalls/user/grep.c:73-96 | a pattern without special characters matches exactly the texts it occurs in |
| Grep.DotMatches | Group8_Project1_xv6CustomizeSystemCalls/user/grep.c:85-106 | a dot matches any one character and a starred dot anything |

## Left out

- Directories, paths, the inode table, link counts and exec (the rest of fs.c, sysfile.c, exec.c): easier than the block layer and not needed by it.
- copyinstr of vm.c and the kernel's own page table: loops over mappings that would only add easy members.
- Shared memory (shmem.c): its reference counts are not kept by exit, fork and sbrk, so frames are taken as unshared.
- Signals, threads, mutexes and the other added system calls: they return constants or set flags nothing reads.
- Traps, context switch, boot, interrupts other than the disk's, the console and printf: hardware, assembly and formatting.
- Spinlock internals and memory ordering: acquire and release are mutual exclusion.
- Fairness and progress beyond the lemmas named: nothing says a runnable process runs.
- grep's reading of lines, the shell's execution of trees, and mkfs's handling of host path names: input and output around the modelled core.
- The device side of a disk request (moving the block's bytes): the model ends at descriptors and rings.
- Processes interleaved inside the code of fs.c: the methods of Fs.dfy run alone; `Sharing.dfy` interleaves the updates they make, not their statements.
- The encoding of inodes in their blocks: inode records are kept as records, and the block that holds one is known by its number only.
- FileCode.Filewrite: covers files of type FD_INODE only; between chunks no other process writes the file.
- Mkfs.Image.Build: takes at most 198 host files, as many as the inodes allow; mkfs itself does not check this.
- Vm.Machine.UvmUnmap: a range freed has unshared frames only, one not freed has frames the table does not own, and the end of the range does not wrap around 64 bits.
- UserCopy.Copyout: the page table is that of the running process, as it is in every call but those of exec, whose pages are mapped already; every user page is a frame of its own.
- UserCopy.Copyin: the page table is that of the running process, and every user page is a frame of its own.
- FileCode.Fileread: covers files of type FD_INODE only; the panic itself is the logged block, and nothing is said of the state after it.
- Bio.BufCache.Bget: the key with device 0 and block 0, which every buffer starts with, is excluded.
- Bio.BufCache.Fill: the read from disk is one step; the sleep in the driver is modelled in Virtio.dfy.
- Sem.SemTable.Get: a slot is reused only when no process is left inside an earlier wait on it, since sem_get takes a different lock.
- Sem.SemTable.Wait: values stay within int; C leaves signed overflow undefined.
- Sem.SemTable.Post: values stay within int; C leaves signed overflow undefined.
- Proc.ProcTable.Alloc: process ids do not wrap, and memory is a yes-or-no parameter.
- Virtio.Disk.Intr: assumes no completion arrives during the call; IntrTurn is the turn for when some do.
- Umalloc.Allocator.Morecore: sbrk answers with an address at or above the old break, or fails.
