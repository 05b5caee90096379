# A verified model of JacobOS

This project models the stateful parts of JacobOS, a small 32-bit kernel, in Dafny and proves what they promise:

- the storage stack: a 32-slot write-back block cache (`fs/bcache.c`), the filesystem on top of it (`fs/sfs.c`) and the
  shell's path parser, path printer and recursive delete (`kernel/shell.c`);
- the kernel heap, a first-fit allocator that splits and merges blocks in place (`mem/kheap.c`);
- the round-robin scheduler (`kernel/task.c`), the ring-3 program protocol (`kernel/exec.c`) and the green threads
  (`kernel/green.c`);
- number printing and parsing (`lib/string.c`).

`dafny verify dfyconfig.toml` checks all of it.

## How it is built

Each component comes in two layers. The code that updates things in place is a class whose methods follow the source
loop by loop: `BlockCache.Cache`, `Sfs.FileSystem`, `Shell.ShellState`, `KHeap.Heap`, `TaskSystem.Kernel`, `Exec.Cpu`,
`Green.Scheduler`. Their contracts say which step of a value-level model each method takes. The theorems are about that
model and hold for every input, every run and every reachable state.

- `Bytes`, `CStrings`: bytes, little-endian words, zero-terminated strings.
- `BlockCache`: the cache; cache and disk together behave as a plain array of blocks.
- `SfsLayout`, `SfsSpec`: the on-disk format, and the decoded image that the filesystem's operations work on.
- `SfsBlocks`, `SfsSpace`, `SfsEntries`, `SfsFiles`: who owns which data block; why blocks never run out; directory
  entries; file contents.
- `DirMap`, `FileTree`, `SfsTree`: a directory as a finite map, the tree of files as a value, and the tree a disk
  stands for.
- `SfsRoom`, `SfsCreate`, `SfsUnlink`, `SfsRuns`: why the directories of a tree never fill, what the operations do to the tree, and every run from a formatted disk.
- `SfsScan`, `Sfs`: the filesystem as it runs, through the cache.
- `Paths`, `Resolving`, `Printing`, `Listings`, `Removal`, `RemovalOnDisk`, `Shell`: the tree walkers.
- `SfsResults`: what create and unlink return, in terms of the tree and the inode table alone.
- `Witnesses`: inputs on which the code falls short, built up from a formatted disk.
- `HeapLayout`, `HeapEdits`, `HeapRuns`, `KHeap`: heap layouts as values, the edits, whole runs, the list in memory.
- `Rounds`, `Tasks`, `TaskSystem`: the scheduler as a transition system, the task records, the kernel's operations.
- `ExecProtocol`, `Exec`, `TaskStacks`, `Lockstep`: the program protocol over stacks in memory, the routines that push
  and pop, the stacks that task creation provides, and the agreement of scheduler and stack switching.
- `GreenRounds`, `FiberMemory`, `Green`: the fiber scheduler, the fibers' memory, the code.
- `Numbers`: numerals, utoa, itoa, atoi.

Bytes are integers from 0 to 255 and words integers below 2^32; wrap-around is written out where the source has it
(cache counters, directory sizes, the heap's rounding, task numbers). Large statements sit behind a key, an always-true
predicate that is also their trigger, so that a proof has them in its context only after asking for them by a lemma.

## Findings

Five properties hold under exactly a condition that can be checked beforehand; outside it the code does something else.

- `sfs_create` keeps the tree if and only if it refuses the request or no entry has the name as it will be stored
  (`SfsCreate.CreateKeepsTreeIff`). Names are looked up in full but stored cut to 27 bytes, so a longer name can enter
  a directory twice (`Witnesses.TwoLongNames`).
- Resolving what `print_cwd` prints gives the directory back if and only if it lies at most sixteen levels down and no
  name on its path is empty or holds a slash (`Shell.PrintThenResolveIff`); `sfs_create` accepts such names
  (`Witnesses.SlashInName`).
- `kmalloc` returns a pointer to as many bytes as were asked for if and only if the request is at most 0xFFFFFFF8
  (`HeapLayout.MallocServesIff`); above that the rounding wraps to zero (`HeapEdits.WrappedRequest`).
- An exiting task hands over to a live one if and only if there is another live one (`Rounds.ExitResumesIff`);
  otherwise the machine stays in the dead task (`Rounds.LastTaskStays`).
- `atoi` of `itoa` is the identity without an overflow if and only if the number is above the 32-bit minimum
  (`Numbers.RoundTripIff`, `Numbers.MinimumOverflows`).

Two error paths of the filesystem cannot be taken. 64 inodes of 14 pointers name at most 896 of the 2048 data blocks, so
on a sound disk `alloc_block` never fails (`SfsSpace.AlwaysFree`); and 64 inodes fill at most 66 of a directory's 224
slots, so in a tree `dir_add` never fails (`SfsRoom.TreeHasRoom`). What can run out is inodes.

## Model

| member | source | states |
|---|---|---|
| `BlockCache.Cache.constructor` | fs/bcache.c:15-22 | an empty cache over any disk stands for the disk's contents |
| `BlockCache.Cache.Init` | fs/bcache.c:19-22 | dropping every slot makes the block map what the disk holds |
| `BlockCache.Cache.Find` | fs/bcache.c:24-28 | the slot that holds the block, or none if no valid slot does |
| `BlockCache.Cache.Evict` | fs/bcache.c:31-36 | the slot under the clock hand can be reused: what it held is on disk, and nothing but that one sector was written; the hand moves on by one |
| `BlockCache.Cache.Read` | fs/bcache.c:38-51 | returns the block map's contents, keeps the map and the coherence invariant, and counts a hit exactly when a slot held the block, a miss otherwise |
| `BlockCache.Cache.Write` | fs/bcache.c:53-58 | updates the block map at one block and keeps the coherence invariant |
| `BlockCache.Cache.Sync` | fs/bcache.c:60-67 | afterwards the disk is the block map, which has not changed |
| `BlockCache.CoherentDetermines` | fs/bcache.c:8-17 | slots and disk together determine the block map |
| `BlockCache.Cache.Replay` | fs/bcache.c:19-67 | every run of reads, writes and syncs is the run of a plain array of blocks; at every moment each disk block holds its value at the last sync or one written since |
| `CStrings.StrCmp` | lib/string.c:45-48 | zero exactly on equal strings, otherwise the sign of the first difference |
| `CStrings.StrNCpy` | lib/string.c:62-67 | the string cut to n bytes and padded with zeros; the rest of the buffer stays |
| `SfsLayout.StoreInode` | fs/sfs.c:17-21 | storing an inode in a table block and reading any inode back |
| `SfsLayout.StoreDirent` | fs/sfs.c:23-26 | storing an entry in a directory block and reading any entry back, names cut to 27 bytes |
| `SfsLayout.StoreBit` | fs/sfs.c:65-89 | setting or clearing one bit of the bitmap block changes that bit only |
| `Sfs.FileSystem.ReadInode` | fs/sfs.c:40-45 | reads the decoded inode through the cache |
| `Sfs.FileSystem.WriteInode` | fs/sfs.c:47-53 | replaces one inode of the image, nothing else |
| `Sfs.FileSystem.AllocInode` | fs/sfs.c:55-62 | the first free inode, or -1 |
| `Sfs.FileSystem.AllocBlock` | fs/sfs.c:65-80 | the first clear bit is set and its block zeroed; 0 when none is clear |
| `Sfs.FileSystem.FreeBlock` | fs/sfs.c:82-89 | clears the block's bit; pointers below the data area are ignored |
| `Sfs.FileSystem.DirLookup` | fs/sfs.c:92-106 | the inode in the first live slot with the name; -1 for files and missing names |
| `Sfs.FileSystem.DirAdd` | fs/sfs.c:108-145 | the entry takes the first free slot, or a new block, or fails with nothing changed exactly when all 224 slots are taken; the disk stays sound and no other inode is touched |
| `Sfs.FileSystem.DirRemove` | fs/sfs.c:147-163 | the first slot with the name is freed, and nothing else changes |
| `Sfs.FileSystem.Format` | fs/sfs.c:166-191 | any disk becomes a sound one with the superblock of the layout and a root holding its two dots |
| `Sfs.FileSystem.Init` | fs/sfs.c:193-198 | a disk with the magic number is mounted unchanged, sound or not, any other is formatted |
| `SfsScan.SuperBlockWords` | fs/sfs.c:171-175 | the superblock holds the magic number, 64 inodes, data from block 16 on, 2048 data blocks |
| `Sfs.FileSystem.SyncAndReboot` | kernel/shell.c:328-329 | after the sync that ends each command, losing the cache and mounting again shows the identical filesystem |
| `Sfs.FileSystem.Create` | fs/sfs.c:206-222 | takes the create step of the model and stays sound |
| `Sfs.FileSystem.Readdir` | fs/sfs.c:224-244 | call number k gives the k-th live entry, -1 beyond the last |
| `Sfs.FileSystem.Write` | fs/sfs.c:246-276 | follows the model function: a file gets min(len, 7168) bytes and that count is returned, anything else is turned down; no other inode is touched |
| `Sfs.FileSystem.Read` | fs/sfs.c:278-296 | the first min(size, max) bytes of the file |
| `Sfs.FileSystem.CountEntries` | fs/sfs.c:305-310 | the number of live entries of a directory |
| `Sfs.FileSystem.Unlink` | fs/sfs.c:298-317 | takes the unlink step of the model and stays sound, whatever inode it is called on |
| `SfsBlocks.AllocCount` | fs/sfs.c:65-80 | allocation succeeds exactly when a block is free and takes one away from the count |
| `SfsSpace.AlwaysFree` | fs/sfs.c:65-80 | on every sound disk at least 1152 data blocks are free, so alloc_block never fails |
| `SfsEntries.AddStepAdds` | fs/sfs.c:108-145 | a step of dir_add on a sound disk leaves a sound disk whose directory has gained the entry, and fails exactly when all its slots are taken |
| `SfsEntries.RemoveStepRemoves` | fs/sfs.c:147-163 | a step of dir_remove on a sound disk leaves a sound disk whose directory has lost the entry |
| `SfsFiles.WriteOk` | fs/sfs.c:246-276 | sfs_write leaves a sound disk, the file holding the first bytes of the data, every other inode kept |
| `SfsFiles.WriteReturns` | fs/sfs.c:246-276 | the count returned is min(len, 7168) on every sound disk |
| `SfsFiles.WriteThenRead` | fs/sfs.c:246-296 | reading what was just written gives its first bytes back up to the limit; every other inode keeps its blocks and bytes |
| `DirMap.FindIsLookup` | fs/sfs.c:92-106 | scanning the slots is looking up in the finite map |
| `DirMap.SlotsWithEntries` | fs/sfs.c:108-145 | dir_add on the slots is insertion in the map, and names stay unique |
| `DirMap.SlotsWithoutEntries` | fs/sfs.c:147-163 | dir_remove on the slots is deletion from the map |
| `DirMap.LiveLists` | fs/sfs.c:224-244 | readdir over 0, 1, 2, ... lists each pair of the map exactly once |
| `FileTree.AllUnderRoot` | fs/sfs.c:166-222 | in a tree every node hangs from the root |
| `FileTree.InsertIsTree` | fs/sfs.c:206-222 | inserting a leaf under a fresh name keeps the tree |
| `FileTree.PruneIsTree` | fs/sfs.c:298-317 | cutting off a subtree keeps the tree |
| `SfsTree.DotsPresent` | fs/sfs.c:184-190 | every directory of a tree on disk has both dots |
| `SfsRoom.FewChildren` | fs/sfs.c:7-9 | no directory of a tree has more children than there are inodes |
| `SfsRoom.TreeHasRoom` | fs/sfs.c:108-145 | dir_add on a directory of a tree never fails |
| `SfsCreate.CreateOk` | fs/sfs.c:206-222 | sfs_create leaves a sound disk, however it ends |
| `SfsCreate.CreateInserts` | fs/sfs.c:206-222 | a create under a fresh stored name inserts one leaf into the tree and returns its inode |
| `SfsCreate.CreateDuplicates` | fs/sfs.c:206-222 | a create whose stored name is taken puts that name into the directory a second time |
| `SfsCreate.CreateKeepsTreeIff` | fs/sfs.c:206-222 | sfs_create keeps the tree if and only if it refuses or no entry has the name as it will be stored |
| `SfsCreate.ShortNamesAreFresh` | fs/sfs.c:206-208 | for names of at most 27 bytes the lookup that sfs_create makes itself rules duplicates out |
| `SfsResults.CreateResult` | fs/sfs.c:206-222 | sfs_create fails, changing nothing, if and only if the directory has the name or every inode is in use; otherwise it takes the first free inode, and a name of at most 27 bytes is a new child |
| `SfsResults.CreateInNewDirectory` | fs/sfs.c:206-222 | creating in a directory created just before succeeds as long as an inode is free |
| `SfsResults.FirstTwoInodes` | fs/sfs.c:206-222 | on an empty disk mkdir makes inode 1, and creating in it makes inode 2 |
| `SfsUnlink.UnlinkOk` | fs/sfs.c:298-317 | however unlink ends, the disk stays sound |
| `SfsRoom.CountsChildren` | fs/sfs.c:305-310 | a directory has two live entries more than it has children, so "count > 2" is "not empty" |
| `SfsUnlink.RefusesIff` | fs/sfs.c:298-311 | unlink of a child is refused exactly when it is a directory with children |
| `SfsUnlink.UnlinkPrunes` | fs/sfs.c:298-317 | unlink cuts off exactly one leaf and wipes exactly its inode, or refuses a directory with children |
| `SfsResults.UnlinkResult` | fs/sfs.c:298-317 | sfs_unlink succeeds if and only if the name is a child that is a file or a directory without children, and cuts off exactly that; otherwise it returns -1 and nothing changes |
| `SfsRuns.FormatOk` | fs/sfs.c:166-191 | a formatted disk holds the tree of a root alone |
| `SfsRuns.WriteReplaces` | fs/sfs.c:246-276 | sfs_write replaces the bytes of one leaf of the tree |
| `SfsRuns.RunsStaySound` | fs/sfs.c:206-317 | in every run the set bits are exactly the blocks named by inodes, none is named twice, pointers lie in the data area and form a prefix |
| `SfsRuns.RunsStayTrees` | fs/sfs.c:206-317 | in every run whose creates use fresh stored names, the inodes in use are one tree rooted at 0 |
| `SfsRuns.ShortNamesStayTrees` | fs/sfs.c:206-317 | in every run with names of at most 27 bytes there is a tree in every state, whatever else the run does |
| `SfsRuns.RunsFromFormat` | fs/sfs.c:166-317 | from a formatted disk, every run stays sound, and every run with names of at most 27 bytes keeps a tree |
| `Listings.ListingCovers` | fs/sfs.c:224-244 | the dots apart, a listing holds exactly the children of the directory in the tree |
| `Listings.LookupInTree` | fs/sfs.c:201 | lookup on disk is lookup in the tree, the dots included |
| `Paths.PrintedPathResolvesIff` | kernel/shell.c:20-65 | on every tree, the printed path leads back if and only if at most sixteen levels are to be printed and the names on it are slash-free and not empty |
| `Paths.CutComponent` | kernel/shell.c:33-35 | a path component longer than 31 bytes is looked up by its first 31 |
| `Shell.ShellState.Resolve` | kernel/shell.c:20-38 | the walk along the path's components, from the root or from the current directory; -1 once one is missing; no block changes |
| `Shell.ShellState.NameOf` | kernel/shell.c:41-52 | finds a name for the child exactly when the parent has one, the dots apart; no block changes |
| `Shell.ShellState.PrintCwd` | kernel/shell.c:54-65 | prints the last sixteen components of the directory's path; no block changes |
| `Shell.PrintThenResolveIff` | kernel/shell.c:20-65 | from any directory, resolving the printed text gives the directory back if and only if it is at most sixteen levels down and its path's names are slash-free and not empty |
| `Shell.ShellState.FirstChild` | kernel/shell.c:168-177 | finds an entry other than the dots exactly when the directory has a child; no block changes |
| `Shell.ShellState.RmRec` | kernel/shell.c:160-181 | ends, fails with nothing changed on a missing name, and otherwise cuts off exactly the subtree of the name; the superblock stays |
| `Shell.ShellState.RmAndReboot` | kernel/shell.c:328-329 | rm -r, the sync that ends the command and a reboot mount the filesystem without the subtree, with the current directory still there |
| `Removal.SubtreeShrinks` | kernel/shell.c:163-179 | the subtree of a child is a proper part of its directory's, so the recursion ends |
| `Removal.TrimmedEnd` | kernel/shell.c:163-180 | emptying a directory child by child and unlinking it leaves what cutting off its subtree leaves |
| `RemovalOnDisk.CutKeeps` | kernel/shell.c:160-181 | every node outside the subtree stays as it was; the directory it was in is still there and lost one entry |
| `RemovalOnDisk.CutFrees` | kernel/shell.c:160-181 | exactly the subtree's inodes are wiped and exactly their data blocks are given back |
| `Witnesses.LongNameDuplicates` | fs/sfs.c:120-121 | a name whose stored form is taken enters the directory twice, and the disk holds no tree any more |
| `Witnesses.TwoLongNames` | fs/sfs.c:206-222 | on an empty disk, a 27-byte name and then one byte more: a tree, and then the name twice and no tree |
| `Witnesses.FormattedIsEmpty` | fs/sfs.c:166-191 | a formatted disk is such an empty disk |
| `Witnesses.SlashInName` | kernel/shell.c:20-65 | a directory with a slash in its name is not found again by its printed path |
| `HeapLayout.Align8` | mem/kheap.c:13 | rounds up to a multiple of eight, to zero above 0xFFFFFFF8 |
| `HeapLayout.LiveDisjoint` | mem/kheap.c:17-58 | payloads of different allocations do not overlap and lie in the region |
| `HeapLayout.Canonical` | mem/kheap.c:17-58 | two layouts with the same allocations are the same layout |
| `HeapLayout.MallocServes` | mem/kheap.c:24-44 | for requests in 1..0xFFFFFFF8: null exactly when no free block holds the rounded request, otherwise the lowest that does, with at most 23 bytes to spare |
| `HeapLayout.MallocServesIff` | mem/kheap.c:13-44 | a pointer comes with the bytes asked for if and only if the request is at most 0xFFFFFFF8 |
| `HeapEdits.MallocMeets` | mem/kheap.c:24-44 | kmalloc leaves a layout again, with one allocation more, from the first block that fits |
| `HeapEdits.FreeMeets` | mem/kheap.c:46-58 | kfree leaves a layout again, with exactly that allocation gone |
| `HeapEdits.FreedMallocIsSame` | mem/kheap.c:24-58 | kfree straight after kmalloc restores the exact layout |
| `HeapEdits.WrappedRequest` | mem/kheap.c:13-44 | a request of 0xFFFFFFF9 on a fresh heap yields a pointer to an empty payload |
| `HeapRuns.RunsStayLayouts` | mem/kheap.c:17-58 | in every run the blocks tile the region in address order with no two free neighbours, sizes are multiples of four and, if no request wraps, at least eight |
| `HeapRuns.AllocationsStay` | mem/kheap.c:17-58 | an allocation is neither moved nor resized before it is freed |
| `HeapRuns.SameLiveSameLayout` | mem/kheap.c:17-58 | whatever happened in between, the same allocations are the same layout again |
| `HeapRuns.FreeingAllRestores` | mem/kheap.c:17-58 | freeing every allocation in any order restores the single block of kheap_init |
| `HeapRuns.BytesConserved` | mem/kheap.c:60-72 | used and free payload and twelve bytes for each block make up the region |
| `HeapRuns.CountersMean` | mem/kheap.c:60-72 | the used bytes are the total payload of the allocations, the free bytes the rest of the region without the headers |
| `HeapRuns.NothingUsed` | mem/kheap.c:60-72 | without allocations nothing is used and all but one header is free |
| `HeapRuns.MallocRaisesUsed` | mem/kheap.c:24-65 | a successful kmalloc raises the used bytes by exactly the payload it grants |
| `HeapRuns.FreeLowersUsed` | mem/kheap.c:46-65 | kfree lowers the used bytes by exactly the payload of the block freed |
| `KHeap.Heap.constructor` | mem/kheap.c:17-22 | one free block over the whole region |
| `KHeap.Heap.KMalloc` | mem/kheap.c:24-44 | the list in memory follows the function, and meets its specification |
| `KHeap.Heap.KFree` | mem/kheap.c:46-58 | the list in memory follows the function, for null and for every live pointer |
| `KHeap.Heap.Coalesce` | mem/kheap.c:51-57 | one pass merges every run of free neighbours |
| `KHeap.Heap.Payload` | mem/kheap.c:60-72 | kheap_used is the total payload of the allocations, kheap_free the rest of the region without the headers |
| `Rounds.SwitchSound` | kernel/task.c:85-101 | schedule keeps one cycle through all tasks with exactly one running, the current one, and revives and kills nobody |
| `Rounds.ExitSound` | kernel/task.c:109-116 | an exit while another task lives keeps that, and exactly that task is dead for good |
| `Rounds.CreateSound` | kernel/task.c:51-83 | a creation keeps that, with one live task more |
| `Rounds.NewTaskIsNext` | kernel/task.c:79-81 | a task created by the head runs next |
| `Rounds.ExitResumesIff` | kernel/task.c:85-116 | an exit resumes a live task if and only if there is another one; otherwise the dead task stays current |
| `Rounds.LastTaskStays` | kernel/task.c:109-116 | the first task, exiting alone, stays current and dead |
| `Rounds.HeadGuards` | kernel/task.c:109-116 | as long as the head lives, the exit of any other task leaves a live one |
| `Rounds.RunsStaySound` | kernel/task.c:51-123 | in every run the ring is one cycle with a single running task, the current one |
| `Rounds.DeadStayDead` | kernel/task.c:85-116 | a task dead at some point of a run is dead from then on and never current again |
| `Rounds.SwitchNearer` | kernel/task.c:85-101 | schedule brings every waiting task exactly one live task nearer |
| `Rounds.ExitNearer` | kernel/task.c:109-116 | an exit is no delay |
| `Rounds.CreateFarther` | kernel/task.c:79-81 | a creation adds one to the distance of the tasks behind the head and nothing to the others |
| `Rounds.BoundedWaiting` | kernel/task.c:79-116 | a live task at distance d is current within d + k calls of schedule, k being the tasks created meanwhile |
| `TaskSystem.Kernel.constructor` | kernel/task.c:34-49 | the calling context becomes a ring of one running task, number 0, with the TSS on its stack |
| `TaskSystem.Kernel.TaskCreate` | kernel/task.c:51-83 | either takes the create step with three areas of its own and the next task number, or returns null with the heap layout exactly as before |
| `TaskSystem.Kernel.Schedule` | kernel/task.c:85-101 | takes the switch step; the skip loop ends; the TSS points to the current task's trap stack |
| `TaskSystem.Kernel.Yield` | kernel/task.c:103-107 | takes the switch step and keeps the single running task and all links |
| `TaskSystem.Kernel.TaskExit` | kernel/task.c:109-116 | takes the exit step; the invariant holds on as long as another task lives |
| `TaskSystem.Kernel.TaskCount` | kernel/task.c:118-123 | the number of tasks that are not dead |
| `Tasks.KstackTop` | kernel/task.c:19-23 | the aligned top lies in the stack's last sixteen bytes, and is zero exactly without a stack |
| `ExecProtocol.ExecKeeps` | kernel/exec.c:27-62 | exec_user goes through if and only if no program runs, the task has a trap stack and the file is a program; then ring 3 starts at the entry point with its stack at the top of the window, and the task owns the window; otherwise nothing changes |
| `ExecProtocol.SysExitKeeps` | kernel/exec.c:21-25 | SYS_EXIT comes from the owner and goes back to its ordinary stack, into exec_user, with the code |
| `ExecProtocol.StackKept` | kernel/exec.c:49-54 | no step writes on the stacks of another task or on the ordinary stack of the program's owner |
| `ExecProtocol.RunsKeepInv` | kernel/exec.c:21-62 | over every interleaving of ticks, yields, execs, exits and creations: at most one owner, exactly while g_user_running is set; esp0 is the current task's trap stack top; the way back is intact on the owner's ordinary stack |
| `ExecProtocol.SysExitReturnsToExec` | kernel/exec.c:21-62 | the next SYS_EXIT(c) after a successful exec_user resumes that very call, which returns c, with the registers it was called with and the stack as it was; until then every exec_user fails |
| `ExecProtocol.SleeperKept` | kernel/switch.asm:8-22 | a task switched away from finds its stacks as it left them |
| `ExecProtocol.SwitchRoundTrip` | kernel/switch.asm:8-22 | a task switched away from and later back to finds the registers and the return address it was switched away with |
| `ExecProtocol.FirstSwitch` | kernel/task.c:66-77 | the first switch to a new task enters task_bootstrap with all registers zero |
| `ExecProtocol.TrapThenIret` | kernel/usermode.asm:29-33 | a program that is interrupted goes on in ring 3 exactly where it was, however long its task was switched away from |
| `ExecProtocol.WithInterrupts` | kernel/usermode.asm:27-30 | the flags with the interrupt bit set and no other changed |
| `Exec.Cpu.EnterUser` | kernel/usermode.asm:8-33 | the way back with the caller's registers, and below it the five words that iret pops: entry, 0x1B, flags, user stack pointer, 0x23 |
| `Exec.Cpu.ExecUser` | kernel/exec.c:27-58 | takes the exec step; iret pops the entry point, the ring-3 selectors, the flags with interrupts on and the top of the window |
| `Exec.Cpu.ExecOnExit` | kernel/usermode.asm:39-45 | takes the SYS_EXIT step, popping the context that enter_user pushed |
| `Exec.Cpu.TrapEntry` | cpu/syscall.c:17-24 | a trap from ring 3 pushes where the program was onto the current task's trap stack |
| `Exec.Cpu.Return` | cpu/syscall.c:17-24 | the iret that ends a trap goes on where its frame says |
| `Exec.Cpu.ContextSwitch` | kernel/switch.asm:8-22 | saves registers and return address of the task left on its stack, loads the next task's, and takes the switch step |
| `Exec.Cpu.Spawn` | kernel/task.c:66-77 | builds the six-word start frame of a new task and takes the spawn step |
| `Exec.Cpu.Finish` | kernel/task.c:109-116 | saves the dying task's context as any switch does and leaves it for good |
| `TaskStacks.NewTaskSpawns` | kernel/task.c:51-77 | the stacks that task_create allocates share no byte with each other or with any other stack, so the task can be spawned |
| `Lockstep.NextHasThread` | kernel/task.c:85-101 | the task that schedule picks has a context to switch to |
| `Lockstep.SwitchInStep` | kernel/task.c:85-101 | schedule is the context switch to the task it picks |
| `Lockstep.ExitInStep` | kernel/task.c:109-116 | task_exit leaves the current task for the one that schedule picks then |
| `Lockstep.CreateInStep` | kernel/task.c:51-83 | task_create adds the new task's context |
| `Lockstep.Tick` | kernel/task.c:85-107 | a tick or a yield moves scheduler and stacks together, and the two agree before and after |
| `Lockstep.SameTrapStack` | kernel/task.c:97-99 | while they agree, TSS.esp0 is the trap stack top of the task the scheduler calls current |
| `GreenRounds.ResumedOncePerYield` | kernel/green.c:87-98 | when gt_run ends, a fiber with y yields has been resumed exactly y + 1 times |
| `GreenRounds.RoundRobin` | kernel/green.c:64-98 | between two consecutive resumptions of a fiber, exactly the other runnable fibers run, each once and in ring order |
| `GreenRounds.ResumeDrops` | kernel/green.c:87-98 | every resumption brings the end one nearer |
| `Green.Scheduler.GtSpawn` | kernel/green.c:36-57 | either links a fiber in after the ring pointer, or fails with the heap layout exactly as before |
| `Green.SpawnedRunsSecond` | kernel/green.c:54-55 | a fiber spawned into a ring runs right after the one the ring pointer is at |
| `Green.Scheduler.PickNext` | kernel/green.c:64-72 | the first ready fiber from the ring pointer on, or null when there is none |
| `Green.Scheduler.Drive` | kernel/green.c:87-96 | ends, and is a run of the fiber scheduler up to the point where nothing is runnable |
| `Green.Scheduler.FreeAll` | kernel/green.c:74-85 | frees each record and stack once and leaves the heap layout as before the spawns |
| `Green.Scheduler.GtRun` | kernel/green.c:87-98 | ends, after a complete fair run, with the heap layout as before the spawns |
| `FiberMemory.NoFibersNoBlocks` | kernel/green.c:74-85 | with no fiber left the heap is exactly what it was |
| `Numbers.NumeralOk` | lib/string.c:69-83 | the numeral is canonical and its positional value is the number |
| `Numbers.CanonicalUnique` | lib/string.c:69-83 | a number has no other canonical numeral |
| `Numbers.WordDigits` | lib/string.c:69-83 | no word has more than 32 digits in any base, so the scratch buffer suffices |
| `Numbers.HexDigits` | drivers/screen.c:102-106 | a word has at most eight hexadecimal digits, so the sixteen-byte buffer suffices |
| `Numbers.DecimalLength` | drivers/screen.c:97-100 | a signed word has at most eleven characters in decimal, so the sixteen-byte buffer suffices |
| `Numbers.Utoa` | lib/string.c:69-83 | writes the numeral and its terminator and nothing else into any buffer with room for them; the empty string for bases outside 2..16 |
| `Numbers.Itoa` | lib/string.c:85-92 | writes the decimal text of every 32-bit number, the minimum included, into any buffer with room for it |
| `Numbers.Atoi` | lib/string.c:94-101 | the number spelled out, blanks and sign included; overflows exactly when the magnitude exceeds the maximum |
| `Numbers.ReadsNumber` | lib/string.c:94-101 | on every string: blanks, an optional sign and the digits up to the first other character give the value of the digits, negated after a minus |
| `Numbers.ParsedDecimal` | lib/string.c:85-101 | reading a printed number gives the number |
| `Numbers.RoundTripIff` | lib/string.c:69-101 | atoi of itoa is the identity without overflow if and only if the number is above the minimum |
| `Numbers.MinimumOverflows` | lib/string.c:94-101 | reading the printed minimum back overflows |

## Left out

- Disk errors: sector reads and writes always succeed, because the cache ignores their results (`fs/bcache.c:34`).
- Port I/O, serial, screen, keyboard scancodes, timer and interrupt-controller programming, GDT, IDT and paging set-up,
  boot code: hardware plumbing. What is kept is a sector array, TSS.esp0 and the effect of a switch or a trap.
- `kernel/elf.c` is one yes-or-no outcome of loading a file inside exec_user; the file reads and the temporary buffer
  of exec_user (`kernel/exec.c:36-47`) are part of that outcome.
- `mem/pmm.c`: the same first-clear-bit argument as block allocation, only simpler.
- Shell command dispatch, cp, mv, echo, ls, ps and meminfo: text handling with little invariant content.
- RmRec: `rm -r .` and `rm -r ..` are excluded by a precondition. The first cannot be unlinked, the second can delete
  the current directory.
- The depth of rm_rec's own C stack, and overflow of any kernel stack: stacks are assumed large enough.
- Create: a `dir` argument that is no live directory is not modelled; the source leaves that check to its callers.
- exec_user itself runs without interruption up to ring 3, as it does in the source, where the shell runs inside the
  keyboard interrupt and interrupt gates keep interrupts off.
- Fibers that spawn fibers while gt_run is under way, and fibers that never stop yielding.
- Task names, and the hit and miss counters' readers.
- Readable kernel memory outside stacks and heap headers is not modelled.
- TaskExit: when the last live task exits, the model stops in the dead task; the halt loop has no further behaviour.
- Atoi: past an overflow, which C leaves undefined, the model only reports it.
- SlashInName: states that the printed path does not lead back, not where it leads.
