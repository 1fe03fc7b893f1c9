# Models of Linux 2.4.18 kernel data structures

Dafny models, with proofs, of algorithms in a Linux 2.4.18 source tree that carries a small policy-log
addition. Check everything with `dafny verify dfyconfig.toml`.

Each part has a specification on values (functions, with lemmas about single steps and about whole runs) and,
where the kernel works in place, a class whose methods are proved to refine that specification.

- **POSIX record locks** (`fs/locks.c`). `FileLocks`: lock lists, their meaning byte by byte, the normal form.
  `LockEdit`: the edit of `posix_lock_file`. `LockWakeups`: whose sleepers it wakes. `LockWrap`: the laws of the edit
  for every request, with what becomes of those that reach `OFFSET_MAX`. `LockAnyList`, `LockUnlock`,
  `LockSafety`: the same, unlocks, and what every edit keeps, on lists that are not in normal form. `LockTable`: all
  inodes and the blocked list, over every run. `LockBlocking`: refusal, deadlock and wake-ups in terms of bytes, locks
  and sleepers. `LockMeaning`: what the table means, over runs. `PosixLocks`: the code.
- **Quota file** (`fs/dquot.c`). `QuotaBlocks`, `QuotaShape`: the blocks, and what the file stands for.
  `QuotaSteps`, `QuotaSlots`: what each change to a block keeps. `QuotaLookup`: the search. `QuotaFile`: the code.
- **Semaphores** (`ipc/sem.c`). `Semaphores`: operation arrays and the queue pass. `SemRuns`: events and runs.
  `SemWakeups`: whether a wake-up can be lost. `SemArray`: the code.
- **Message queues** (`ipc/msg.c`). `MessageQueue`: search and hand-over. `MsgRuns`: runs. `MsgQueue`: the code.
- **seq_file** (`fs/seq_file.c`): `SeqFile`.
- **Pipes** (`fs/pipe.c`): `Rings`, `Pipe`, `PipeRuns`.
- `Basics`: notions shared by several parts.
- **Accounting numbers** (`kernel/acct.c`): `CompT`.
- **Policy log** (`kernel/hw1_syscalls.c`, with its writer in `kernel/exit.c`, `kernel/fork.c` and
  `kernel/sched.c`): `PolicyLog`, over `Rings`.

## What the code does not keep

The model follows the code. In these places a law one would expect is false; the exact condition is proved.

- The comparison at `fs/locks.c:937` adds one to an end that may be `OFFSET_MAX`. Such a request is not merged with
  the caller's locks of its type (`ApplyCanonicalIff`), and locks of another type behind the first of them stay
  (`NormalLeavesNone`, `WriteLockStays`). On the lists this makes, a later request may miss bytes of its range or take
  bytes outside it (`GrantExactIff`, `UnlockExactIff`, `UnlockAfterUnsafeMerge`, `OverlapLosesBytes`), and a lock that
  has come to cover no byte may refuse others (`RefusedIff`, `EmptyLockRefuses`). Exclusion, wake-ups and freedom from
  deadlock hold all the same, in every run (`EveryRunIsSafe`, `EveryRunHasNoCycle`).
- `remove_tree` frees an empty root (`fs/dquot.c:788-792`); the file is consistent afterwards exactly if another id
  is left (`DeleteDquot`).
- A record of zeroes, possible for id 0 only, is not found again (`WriteDquot`).
- `convert_mode` negates the least `long` (`FindsWanted`).
- `seq_read` returns nothing before the end when it starts at an empty record that is followed by one that does not fit
  the buffer (`SeqRead`, `SmoothIff`, `ReadRough`, `LooksEmpty`).
- A read of no records empties a full policy log (`GetProcessLog`), and logging to a full one overruns it (`Append`).
- `update_queue` does not look again at the sleepers before one that it lets raise a semaphore, so that a process may
  sleep on although it could go through; the arrays of operations that bring this about are exactly known (`LossIff`).
- `sem_exit` clamps at zero, which breaks conservation by exactly the amount clamped (`ExitBalance`).

## Model

| member | source | states |
|---|---|---|
| `FileLocks.NormalFormUnique` | linux-2.4.18-14custom/fs/locks.c:855-857 | The normal form is unique: what an owner holds on each byte determines its locks in the list, apart from their addresses. |
| `LockWrap.WrapShape` | linux-2.4.18-14custom/fs/locks.c:937 | A request up to OFFSET_MAX that has a lock to merge is granted as if the list ended before that lock; the rest of the list is copied unseen. |
| `LockWrap.ApplyCanonicalIff` | linux-2.4.18-14custom/fs/locks.c:931-959 | For every list in normal form and every request: the normal form survives if and only if the wrap-around of `fl_end + 1` finds nothing to merge. |
| `LockWrap.ApplyFirst` | linux-2.4.18-14custom/fs/locks.c:867-1043 | For every request, wrap-around or not, the first lock covering a byte has the requested type on the range and the old type elsewhere. |
| `LockWrap.WriteLockStays` | linux-2.4.18-14custom/fs/locks.c:937 | A concrete list in normal form and a request for which the condition fails: a write lock is left in a range asked for reading. |
| `LockWrap.ApplyWakes` | linux-2.4.18-14custom/fs/locks.c:983-1031 | For every request on a list in normal form: the sleepers of a lock are woken if and only if the lock has been deleted, shortened or changed in type. |
| `LockAnyList.GrantOnRange` | linux-2.4.18-14custom/fs/locks.c:867-1043 | On any list, in normal form or not, and for any request: the caller holds the type asked for on the whole range, and no other type there if and only if the loop leaves none behind or passed. |
| `LockAnyList.GrantOutside` | linux-2.4.18-14custom/fs/locks.c:867-1043 | On any list a request gains nobody anything outside its range; what it loses the caller there is exactly the other type, on the bytes the request grows to by merging on which no lock of that type is left. |
| `LockAnyList.GrantExactIff` | linux-2.4.18-14custom/fs/locks.c:867-1043 | On any list, for any request: what every owner holds on every byte changes exactly as asked, if and only if the loop leaves no other type in the range and leaves one on every byte outside it that the request grows to and the caller holds so. |
| `LockAnyList.SingleKeepsOutside` | linux-2.4.18-14custom/fs/locks.c:867-1043 | The second condition always holds for unlocks, and for callers whose types do not overlap. |
| `LockAnyList.WalkReach` | linux-2.4.18-14custom/fs/locks.c:928-1005 | What the request has grown to when the loop ends, read off the list; it never shrinks. |
| `LockAnyList.NormalLeavesNone` | linux-2.4.18-14custom/fs/locks.c:867-1043 | On a list in normal form the loop leaves no other type in the range, and by `GrantExactIff` the request is exact, if and only if no lock of another type follows a lock that the wrap-around fails to merge. |
| `LockAnyList.WalkLeaves` | linux-2.4.18-14custom/fs/locks.c:928-1031 | Over the whole loop and the edits after it, for any window in what the request grows to: what stays of another type there is what was passed and grown over or not shortened, or not reached. |
| `LockUnlock.UnlockExactIff` | linux-2.4.18-14custom/fs/locks.c:867-1043 | Unlocking on any list, in normal form or not: exactly the bytes asked for are released, and nothing else changes, if and only if at most one lock of the caller reaches into them from below and none on them lies behind the end of the loop. |
| `LockUnlock.UnlockAfterUnsafeMerge` | linux-2.4.18-14custom/fs/locks.c:937 | A run of two calls in which the wrap-around makes the condition of `UnlockExactIff` fail, and a byte stays locked after it has been unlocked. |
| `LockSafety.ApplySane` | linux-2.4.18-14custom/fs/locks.c:917-1031 | On any lock list, in normal form or not: no byte becomes locked that was neither locked that way before nor asked for, ids stay unique, and every lock whose sleepers are not woken is still there and covers at least what it covered. |
| `LockSafety.GrantKeepsExclusion` | linux-2.4.18-14custom/fs/locks.c:889-908 | A request that no lock conflicts with cannot break exclusion, whatever is merged, split or retyped. |
| `LockTable.NoCycle` | linux-2.4.18-14custom/fs/locks.c:656-669 | Where chains of blockers end, no owner waits for itself through any number of others. |
| `LockTable.SleepKeepsNoDeadlock` | linux-2.4.18-14custom/fs/locks.c:899-906 | Adding one edge to the wait-for graph after a negative test keeps every chain of blockers finite. |
| `LockTable.FewerKeepsNoDeadlock` | linux-2.4.18-14custom/fs/locks.c:446-465 | Waking sleepers and dropping their edges cannot create a deadlock. |
| `LockTable.GrantInv` | linux-2.4.18-14custom/fs/locks.c:992-1031 | A grant strands no sleeper: each one still blocked points at a lock that is still listed and still conflicts. |
| `LockTable.SleepInv` | linux-2.4.18-14custom/fs/locks.c:899-908 | Going to sleep keeps the whole invariant: exclusion, waiters, absence of deadlock. |
| `LockTable.AwakeInv` | linux-2.4.18-14custom/fs/locks.c:399-406 | Leaving the blocked list keeps the whole invariant. |
| `LockTable.CloseInv` | linux-2.4.18-14custom/fs/locks.c:1673-1702 | Closing a file keeps the whole invariant. |
| `LockTable.RunInv` | linux-2.4.18-14custom/fs/locks.c:855-1043 | Every possible sequence of grants, sleeps, wake-ups and closes keeps the invariant. |
| `LockTable.EveryRunIsSafe` | linux-2.4.18-14custom/fs/locks.c:855-1043 | In every reachable state: bytes locked by two owners are read-locked by both, every sleeper waits for a lock that is listed and conflicts with it, and every chain of blockers ends in an owner that is awake. |
| `LockTable.EveryRunIsCanonical` | linux-2.4.18-14custom/fs/locks.c:855-857 | For every run: all lists are in normal form at all times if and only if no request meets the wrap-around with a lock to merge. |
| `LockBlocking.RefusedIff` | linux-2.4.18-14custom/fs/locks.c:548-582 | On any exclusive list: unlocking is never refused, and a lock is refused if and only if with it some byte would be locked against another lock, or a lock that covers no byte lies within it. |
| `LockBlocking.ConflictIff` | linux-2.4.18-14custom/fs/locks.c:548-582 | One lock blocks a request if and only if the owners differ, one of the two writes, and they share a byte or the lock is an empty one within the request. |
| `LockBlocking.EverySleeperWaits` | linux-2.4.18-14custom/fs/locks.c:681-693 | Every sleeper is an edge of the walk along the blocked list: to the owner of the lock it waits for. |
| `LockBlocking.DeadlockIff` | linux-2.4.18-14custom/fs/locks.c:656-696 | The walk meets the caller if and only if there are sleepers that lead from the owner of the blocking lock to the caller, each waiting for a lock of the next. |
| `LockBlocking.NoWaitCycle` | linux-2.4.18-14custom/fs/locks.c:656-696 | No sleepers wait for each other in a circle. |
| `LockBlocking.EveryRunHasNoCycle` | linux-2.4.18-14custom/fs/locks.c:867-1043 | The same in every state that a run from the empty table can reach. |
| `LockBlocking.GrantWakes` | linux-2.4.18-14custom/fs/locks.c:446-465 | On a list in normal form a granted request wakes a sleeper if and only if the lock it waits for is gone, shortened or changed in type. |
| `LockBlocking.CloseWakes` | linux-2.4.18-14custom/fs/locks.c:1673-1702 | Closing a file wakes a sleeper if and only if the lock it waits for is removed. |
| `LockMeaning.WithoutHolds` | linux-2.4.18-14custom/fs/locks.c:1673-1702 | Closing releases every byte held through the files and no other byte. |
| `LockMeaning.GrantExact` | linux-2.4.18-14custom/fs/locks.c:867-1043 | In any state a run can reach, a request is exact if and only if both conditions of `GrantExactIff` hold; the second does while each owner has one type per byte. |
| `LockMeaning.StepExactIff` | linux-2.4.18-14custom/fs/locks.c:867-1043 | While each owner has one type per byte: an event changes what is held as it should, for every file, owner, byte and type, if and only if it is no request that leaves another type in its range; then each owner still has one type per byte. |
| `LockMeaning.EveryRunIsExact` | linux-2.4.18-14custom/fs/locks.c:867-1043 | All events of a run are exact if and only if none of its requests leaves another type in its range. |
| `LockMeaning.EveryRunMeans` | linux-2.4.18-14custom/fs/locks.c:867-1043 | Composes the steps of a run that is assumed exact: the last event that concerns a byte decides. The theorem without that assumption is `EveryRunFromEmpty`. |
| `LockMeaning.EveryRunFromEmpty` | linux-2.4.18-14custom/fs/locks.c:867-1043 | Refinement over runs from the empty table, if no request leaves another type in its range: the lists stand for a map from file, owner and byte to lock type in which each grant or close changes its own bytes and nothing else. |
| `LockMeaning.SafeRunLeavesNone` | linux-2.4.18-14custom/fs/locks.c:867-1043 | No request of a run does so, if none meets the wrap-around with a lock to merge. |
| `LockMeaning.EveryRunBelowMax` | linux-2.4.18-14custom/fs/locks.c:867-1043 | The refinement for every run whose lock requests end below `OFFSET_MAX`, a condition on the requests alone. |
| `LockMeaning.RefusedBelowMax` | linux-2.4.18-14custom/fs/locks.c:867-906 | After such a run a lock is refused if and only if with it some byte would be locked against another lock. |
| `LockMeaning.OverlapLosesBytes` | linux-2.4.18-14custom/fs/locks.c:928-1031 | A run of five requests from the empty table of which the last takes a write-locked byte outside its range. |
| `LockMeaning.EmptyLockRefuses` | linux-2.4.18-14custom/fs/locks.c:1015-1031 | A run of five requests from the empty table after which a reader is refused although nobody holds a write lock on any byte: a lock has been shortened beyond its start. |
| `PosixLocks.LockManager.WakeUpBlocks` | linux-2.4.18-14custom/fs/locks.c:446-465 | Removes exactly the sleepers of one lock and keeps the order of the others. |
| `PosixLocks.LockManager.PosixLocksDeadlock` | linux-2.4.18-14custom/fs/locks.c:656-696 | The goto loop terminates and answers yes if and only if sleepers lead from the owner of the blocking lock back to the caller. |
| `PosixLocks.LockManager.SkipOthers` | linux-2.4.18-14custom/fs/locks.c:917-924 | The first loop stops at the first lock of the caller. |
| `PosixLocks.LockManager.Round` | linux-2.4.18-14custom/fs/locks.c:928-1005 | One round on the list in place, with the sleepers woken so far, agrees with one round of the specification. |
| `PosixLocks.LockManager.WalkLocks` | linux-2.4.18-14custom/fs/locks.c:917-1005 | The two loops on the list in place reach the state of the specification. |
| `PosixLocks.LockManager.FinishList` | linux-2.4.18-14custom/fs/locks.c:1007-1031 | Inserting the new lock and shortening or splitting the locks at its ends gives the list of the specification. |
| `PosixLocks.LockManager.WakeTrimmed` | linux-2.4.18-14custom/fs/locks.c:1015-1031 | The sleepers of the shortened locks are woken, and no others. |
| `PosixLocks.LockManager.EditList` | linux-2.4.18-14custom/fs/locks.c:917-1031 | The whole edit refines the granting event of the run model. |
| `PosixLocks.LockManager.PosixLockFile` | linux-2.4.18-14custom/fs/locks.c:867-1043 | Grants if and only if the new lock would break no exclusion (and meets no empty lock); reports a deadlock only along sleepers that lead back to the caller, and sleeps only if that makes no circle; every error return changes nothing; the invariant of all runs is kept. |
| `PosixLocks.LockManager.LocksDeleteBlock` | linux-2.4.18-14custom/fs/locks.c:399-406 | Refines the wake-up event. |
| `PosixLocks.LockManager.LocksRemovePosix` | linux-2.4.18-14custom/fs/locks.c:1673-1702 | The restarting loop removes all locks of the files, wakes all their sleepers and nobody else. |
| `PosixLocks.LockManager.PosixTestLock` | linux-2.4.18-14custom/fs/locks.c:640-654 | Although it tests with the roles exchanged, it reports the same lock as the conflict scan of `posix_lock_file`, one that clashes with the request, and none if and only if the request would be granted. |
| `QuotaBlocks.PrefixStep` | linux-2.4.18-14custom/fs/dquot.c:311 | The path of an id through the tree: each byte of the id extends the prefix, and can be read back from it. |
| `QuotaBlocks.WithRecGet` | linux-2.4.18-14custom/fs/dquot.c:698-703 | Writing a record is seen in its slot and in no other slot or header word. |
| `QuotaBlocks.OffsetParts` | linux-2.4.18-14custom/fs/dquot.c:611 | The file offset of a slot determines its block and its position. |
| `QuotaBlocks.OffsetIsPosition` | linux-2.4.18-14custom/fs/dquot.c:611 | The offset kept with an id is the byte at which the words of its record begin. |
| `QuotaBlocks.SlotsFillBlock` | linux-2.4.18-14custom/include/linux/quota.h:198 | A block has as many slots as there is room for behind its header. |
| `QuotaBlocks.WithRecWords` | linux-2.4.18-14custom/fs/dquot.c:698-703 | Writing a record changes, of all words of the file, exactly the twelve from its offset on. |
| `QuotaSteps.UnlinkChain` | linux-2.4.18-14custom/fs/dquot.c:492-527 | Unlinking any member of the doubly linked list leaves a well-formed list of the other members. |
| `QuotaSteps.LinkFirstChain` | linux-2.4.18-14custom/fs/dquot.c:530-556 | Linking a block at the head leaves a well-formed doubly linked list. |
| `QuotaSteps.TakeInv` | linux-2.4.18-14custom/fs/dquot.c:448-473 | Taking a block keeps the partition of the file, and the block taken was free or is new. |
| `QuotaSteps.GiveInv` | linux-2.4.18-14custom/fs/dquot.c:476-489 | Freeing a block keeps the partition of the file. |
| `QuotaSteps.LinkInv` | linux-2.4.18-14custom/fs/dquot.c:661-664 | Storing the missing reference restores the tree. |
| `QuotaSteps.NewNodeInv` | linux-2.4.18-14custom/fs/dquot.c:631-664 | A fresh node over an unlinked place moves the missing reference one level up. |
| `QuotaSteps.UnlinkRefInv` | linux-2.4.18-14custom/fs/dquot.c:785-796 | Clearing a dangling reference restores the tree, if the node is not empty then. |
| `QuotaSteps.DropNodeInv` | linux-2.4.18-14custom/fs/dquot.c:785-792 | A node that loses its last reference is dropped; the dangling reference moves one level up. |
| `QuotaSteps.ReserveInv` | linux-2.4.18-14custom/fs/dquot.c:559-617 | Setting a slot aside keeps every other invariant, with one place not yet linked. |
| `QuotaSteps.WriteInv` | linux-2.4.18-14custom/fs/dquot.c:682-711 | Writing a record keeps the file; an all-zero record leaves the slot as if only reserved. |
| `QuotaSteps.ReleaseInv` | linux-2.4.18-14custom/fs/dquot.c:714-760 | Giving up a slot keeps the file, with one dangling reference. |
| `QuotaLookup.FindTreeCorrect` | linux-2.4.18-14custom/fs/dquot.c:854-878 | From any node on its path, the search finds an id exactly if it is present, at its slot. |
| `QuotaLookup.LookupCorrect` | linux-2.4.18-14custom/fs/dquot.c:881-884 | In any file that satisfies the invariant the search refines the map from ids to slots. |
| `QuotaLookup.FindBlockMeans` | linux-2.4.18-14custom/fs/dquot.c:817-851 | The scan of a data block finds the least offset at which the words of the file hold a record of the id, and fails if and only if there is none. |
| `QuotaFile.QuotaFile.GetFreeDqblk` | linux-2.4.18-14custom/fs/dquot.c:448-473 | The block returned belonged to nobody; it is the first free one, and the file grows only if none is free; every id, node and record is kept. |
| `QuotaFile.QuotaFile.PutFreeDqblk` | linux-2.4.18-14custom/fs/dquot.c:476-489 | The block becomes the first of the free chain, with its header cleared; no other block and no word behind the header changes; the invariant is kept. |
| `QuotaFile.QuotaFile.RemoveFreeDqentry` | linux-2.4.18-14custom/fs/dquot.c:492-527 | Refines unlinking, whose effect on the list is `QuotaSteps.UnlinkChain`. |
| `QuotaFile.QuotaFile.InsertFreeDqentry` | linux-2.4.18-14custom/fs/dquot.c:530-556 | Refines linking at the head, whose effect on the list is `QuotaSteps.LinkFirstChain`. |
| `QuotaFile.QuotaFile.FindFreeDqentry` | linux-2.4.18-14custom/fs/dquot.c:559-617 | The id gets a slot that no other id has, of the first block with room if there is one; every other id keeps slot and record; the list of blocks with room is exact. |
| `QuotaFile.QuotaFile.DoInsertTree` | linux-2.4.18-14custom/fs/dquot.c:620-670 | Fails if and only if the id is present, changing nothing; otherwise adds exactly this id, at every depth, and keeps every other id and every node above. |
| `QuotaFile.QuotaFile.FreeDqentry` | linux-2.4.18-14custom/fs/dquot.c:714-760 | Removes exactly this id; the block is freed, linked or left as its number of entries demands. |
| `QuotaFile.QuotaFile.RemoveTree` | linux-2.4.18-14custom/fs/dquot.c:763-800 | Removes exactly this id and every node that becomes empty, and returns 0 if and only if the node itself is gone. |
| `QuotaFile.QuotaFile.FindBlockDqentry` | linux-2.4.18-14custom/fs/dquot.c:817-851 | The scan with its special case for id 0 finds the first record of the id in the words of the block, or reports a broken file exactly if there is none. |
| `QuotaFile.QuotaFile.FindTreeDqentry` | linux-2.4.18-14custom/fs/dquot.c:854-878 | The recursive search computes the search function that `LookupCorrect` speaks of. |
| `QuotaFile.QuotaFile.ReadDquot` | linux-2.4.18-14custom/fs/dquot.c:886-927 | Returns the stored record and its offset, at which the words of the file are that record; zeroes exactly for an id that is absent. |
| `QuotaFile.QuotaFile.WriteRecord` | linux-2.4.18-14custom/fs/dquot.c:698-707 | The words of the file from the offset on become the record, and no other word changes; so the record lands in the slot of its id and in no other. |
| `QuotaFile.QuotaFile.WriteDquot` | linux-2.4.18-14custom/fs/dquot.c:682-711 | The stored map changes at this id only, for every record, whose words stand at the offset returned; every other id keeps its slot; the id is found again if and only if the record is not all zero; the file grows only when no block is free. |
| `QuotaFile.QuotaFile.DeleteDquot` | linux-2.4.18-14custom/fs/dquot.c:803-814 | The stored map loses this id only; the file stays consistent if and only if another id is left, else the root itself becomes a free block and the file is consistent under no reading of it. |
| `QuotaFile.QuotaFile.Run` | linux-2.4.18-14custom/fs/dquot.c:620-927 | Over any run of stores and erases that never empties the root, the file holds what a plain map would hold, and every id that is not erased keeps its slot. |
| `QuotaFile.BlockPartition` | linux-2.4.18-14custom/fs/dquot.c:448-556 | Every block from the root to the end is exactly one of tree node, data block or free block; a block is on the list of blocks with room if and only if it holds 1 to 20 ids. |
| `QuotaFile.RootHasId` | linux-2.4.18-14custom/fs/dquot.c:785-796 | Below a root that is not empty there is an id. |
| `QuotaFile.NoRootNoId` | linux-2.4.18-14custom/fs/dquot.c:788-792 | If the root has been freed, no id is left. |
| `QuotaFile.RootIsNotFree` | linux-2.4.18-14custom/fs/dquot.c:788-792 | No consistent file has its root as the first free block. |
| `Semaphores.EffectSums` | linux-2.4.18-14custom/ipc/sem.c:251-278 | Repeated semaphore numbers add up: each value changes by the sum of its operations, each adjustment by minus the sum of those with SEM_UNDO. |
| `Semaphores.PerformIff` | linux-2.4.18-14custom/ipc/sem.c:243-312 | An operation array goes through if and only if every operation is permitted after those before it; otherwise it stops at the first that is not. |
| `Semaphores.AllowedIff` | linux-2.4.18-14custom/ipc/sem.c:251-278 | The tests on the changed cells mean: a wait for zero finds zero, any other operation leaves a value of 0 to 32767, and an adjustment with SEM_UNDO fits 16 bits, computed from the values before and the sums of the operations alone. |
| `Semaphores.PerformAnswer` | linux-2.4.18-14custom/ipc/sem.c:243-312 | An array goes through if and only if all its operations are allowed in that sense; otherwise it stops at the first that is not, to wait or as out of range. |
| `Semaphores.TryMeans` | linux-2.4.18-14custom/ipc/sem.c:243-312 | The return value and the whole effect of `try_atomic_semop` from the values, the sums and the flags: 0, ERANGE, EAGAIN or sleep, and every value and adjustment. |
| `Semaphores.TryShape` | linux-2.4.18-14custom/ipc/sem.c:280-312 | All or nothing: success applies the whole array, failure and `do_undo` restore every value and adjustment. |
| `Semaphores.UpdateIsFold` | linux-2.4.18-14custom/ipc/sem.c:317-343 | A pass changes the set by exactly the arrays of the waiters it finishes with status 0, in queue order; none of these is a decreasing one; at most one more waiter is told to retry. |
| `Semaphores.UpdateSplits` | linux-2.4.18-14custom/ipc/sem.c:317-343 | A pass splits the queue, in order, into those that stay and those that are done; nobody is lost or duplicated. |
| `Semaphores.UpdateDeserved` | linux-2.4.18-14custom/ipc/sem.c:317-343 | The waiters done get exactly the results they would get, one after the other, if those that stay were not in the queue. |
| `Semaphores.UpdateIdle` | linux-2.4.18-14custom/ipc/sem.c:317-343 | A pass leaves everything as it is if and only if no sleeper could be decided, given the values at its start. |
| `Semaphores.CompleteBalance` | linux-2.4.18-14custom/ipc/sem.c:258-309 | A completed array changes value plus pending adjustments only by its operations without SEM_UNDO. |
| `Semaphores.UpdateBalance` | linux-2.4.18-14custom/ipc/sem.c:317-343 | The same for a whole pass over the queue. |
| `SemRuns.StepOk` | linux-2.4.18-14custom/ipc/sem.c:840-1055 | No event makes a value negative or an adjustment too large, and every sleeper can still be retried. |
| `SemRuns.SemopAnswer` | linux-2.4.18-14custom/ipc/sem.c:840-927 | A call returns 0 if and only if each operation is allowed by the values and sums; the first that is not decides between ERANGE, EAGAIN and sleep; a call that sleeps changes no value. |
| `SemRuns.RetryAnswer` | linux-2.4.18-14custom/ipc/sem.c:928-971 | The same for a sleeper told to retry; if it has to wait again, it keeps its place and can be woken again, and nothing else changes. |
| `SemRuns.RunZeroFirst` | linux-2.4.18-14custom/ipc/sem.c:209-236 | In every run, sleepers that only wait for zero stand in the queue before all that change a value. |
| `SemRuns.ExitBalance` | linux-2.4.18-14custom/ipc/sem.c:992-1055 | The exit of a process keeps value plus pending adjustments, except for what the clamp at zero adds. |
| `SemRuns.StepBalance` | linux-2.4.18-14custom/ipc/sem.c:840-1055 | Conservation for every event but SETVAL and SETALL. |
| `SemRuns.RunOk` | linux-2.4.18-14custom/ipc/sem.c:840-1055 | The state invariant holds along every run. |
| `SemRuns.RunBalance` | linux-2.4.18-14custom/ipc/sem.c:258-309 | Conservation over every run without resets: value plus pending adjustments changes by completed operations without SEM_UNDO and by clamps only. |
| `SemRuns.UndoRestores` | linux-2.4.18-14custom/ipc/sem.c:1037-1047 | If all completed operations on a semaphore carry SEM_UNDO and no clamp fires, it has its old value once no adjustment of it is pending. |
| `SemRuns.UndoneLedger` | linux-2.4.18-14custom/ipc/sem.c:258-309 | Such a run adds nothing to the ledger of the semaphore. |
| `SemWakeups.PassWatched` | linux-2.4.18-14custom/ipc/sem.c:317-343 | After a pass over a queue in which none that will only raise is asleep, nobody is overlooked: no sleeper could be decided, or one that will go through has been told to retry. |
| `SemWakeups.StepWatched` | linux-2.4.18-14custom/ipc/sem.c:840-1055 | If no array is risky, no event loses a wake-up, and every event after which the queue is looked at leaves none lost. Risky is an array that only raises, goes through when all semaphores are zero, and has a wait for zero without IPC_NOWAIT before other waits on that semaphore. |
| `SemWakeups.RunWatched` | linux-2.4.18-14custom/ipc/sem.c:840-1055 | The same along every run. |
| `SemWakeups.RiskyLoses` | linux-2.4.18-14custom/ipc/sem.c:322-342 | With every risky array a wake-up is lost in three calls: the pass does not look again at those before one that it lets raise a semaphore. |
| `SemWakeups.LossIff` | linux-2.4.18-14custom/ipc/sem.c:317-343 | An array is risky if and only if with it, and arrays that are not, some run leaves a process asleep that could go through, with nobody told to look. |
| `SemArray.SemArray.DoOp` | linux-2.4.18-14custom/ipc/sem.c:251-278 | One round: what it has changed so far is exactly what taking the operation back will undo, flag clearing included. |
| `SemArray.SemArray.TakeBack` | linux-2.4.18-14custom/ipc/sem.c:300-311 | The second loop restores values and adjustments exactly. |
| `SemArray.SemArray.TryCells` | linux-2.4.18-14custom/ipc/sem.c:243-312 | The two loops in place refine all-or-nothing application. |
| `SemArray.SemArray.TryAtomicSemop` | linux-2.4.18-14custom/ipc/sem.c:243-312 | In place for one process of the set: the answer and the changes are those that the values, sums and flags call for; the other processes keep their adjustments. |
| `SemArray.SemArray.UpdateQueue` | linux-2.4.18-14custom/ipc/sem.c:317-343 | The loop over the queue in place refines the pass of the specification. |
| `SemArray.SemArray.Classify` | linux-2.4.18-14custom/ipc/sem.c:871-881 | The semaphore numbers are in range exactly if accepted; the three flags mean what they are used for. |
| `SemArray.SemArray.SysSemop` | linux-2.4.18-14custom/ipc/sem.c:840-927 | Refused calls change nothing; every other call returns or sleeps as the values and sums say, and is one event of the run model. |
| `SemArray.SemArray.Resume` | linux-2.4.18-14custom/ipc/sem.c:928-971 | A sleeper that runs again retries if it was told to, with the answer that values and sums call for, and otherwise leaves with its status. |
| `SemArray.SemArray.MakeAdjustments` | linux-2.4.18-14custom/ipc/sem.c:1041-1047 | Every value, in place, becomes the adjusted one or zero, whichever is larger; the amount cut off is what `ExitBalance` accounts for. |
| `SemArray.SemArray.SemExit` | linux-2.4.18-14custom/ipc/sem.c:992-1055 | Refines the exit event: sleeper removed, adjustments made with the clamp, queue looked at. |
| `MessageQueue.FindCorrect` | linux-2.4.18-14custom/ipc/msg.c:754-769 | The narrowing scan returns the earliest match, for a negative type the earliest of the least type; it finds nothing only if nothing matches. |
| `MessageQueue.FindsWanted` | linux-2.4.18-14custom/ipc/msg.c:709-769 | The message found is the first that `msgtyp` asks for, for a negative one the first of the least type; none is found if and only if none is wanted, or `msgtyp` is the least `long`. |
| `MessageQueue.FastIsSlow` | linux-2.4.18-14custom/ipc/msg.c:600-624 | Handing a message past the queue gives every receiver and the queue the same outcome, E2BIG included, as queueing it and letting each receiver search. |
| `MessageQueue.HandOverMeans` | linux-2.4.18-14custom/ipc/msg.c:600-624 | A message goes to the first sleeping call that wants it and takes its length; those before it that want it get E2BIG; everybody else sleeps on. |
| `MessageQueue.QuietSearch` | linux-2.4.18-14custom/ipc/msg.c:728-849 | While no sleeper matches a queued message, searching again changes nothing. |
| `MsgRuns.EarliestOfType` | linux-2.4.18-14custom/ipc/msg.c:754-769 | Whatever its mode, a receiver takes the earliest queued message of the type it gets. |
| `MsgRuns.SendInv` | linux-2.4.18-14custom/ipc/msg.c:626-707 | Sending keeps the invariant: quiet receivers, exact counters, order per type. |
| `MsgRuns.RecvInv` | linux-2.4.18-14custom/ipc/msg.c:728-849 | Receiving keeps the invariant, also when the receiver goes to sleep. |
| `MsgRuns.RunInv` | linux-2.4.18-14custom/ipc/msg.c:626-849 | The invariant holds along every run. |
| `MsgRuns.EveryRun` | linux-2.4.18-14custom/ipc/msg.c:626-849 | In every reachable state no sleeper matches a queued message, the counters are exact, and of each type the messages delivered are the first ones the run sent, in order, and the rest are queued. |
| `MsgQueue.MsgQueue.PipelinedSend` | linux-2.4.18-14custom/ipc/msg.c:600-624 | The loop over the receivers in place refines the hand-over of the specification. |
| `MsgQueue.MsgQueue.MsgSnd` | linux-2.4.18-14custom/ipc/msg.c:626-707 | Accepted if and only if type and length are valid and the queue with the message stays within its limits; accepted is one event of the run model, anything else changes nothing. |
| `MsgQueue.MsgQueue.Search` | linux-2.4.18-14custom/ipc/msg.c:754-769 | The scan in place computes the search that `FindCorrect` speaks of. |
| `MsgQueue.MsgQueue.MsgRcv` | linux-2.4.18-14custom/ipc/msg.c:728-849 | Takes the message that the arguments ask for and as much of its text as there is room for, or E2BIG; ENOMSG or sleep if and only if none is wanted; and is one event of the run model. |
| `SeqFile.FlatPrefix` | linux-2.4.18-14custom/fs/seq_file.c:146-192 | The first records are a prefix of the whole file. |
| `SeqFile.RecordInStream` | linux-2.4.18-14custom/fs/seq_file.c:146-192 | Each record lies where the lengths before it say. |
| `SeqFile.SeqFile.Show` | linux-2.4.18-14custom/fs/seq_file.c:281-297 | A record is appended whole, or the buffer is marked full and what was there is kept. |
| `SeqFile.SeqFile.Flush` | linux-2.4.18-14custom/fs/seq_file.c:65-79 | Hands out the next bytes of the file from what is left in the buffer. |
| `SeqFile.SeqFile.FirstRecord` | linux-2.4.18-14custom/fs/seq_file.c:81-101 | Doubling ends with the record whole in the buffer, at the least size that holds it, or at the end of the records. |
| `SeqFile.SeqFile.AddRecords` | linux-2.4.18-14custom/fs/seq_file.c:104-118 | The buffer holds exactly the next bytes of the file; a record that overflows leaves no trace; it stops short of what is wanted only at the end or before a record that does not fit. |
| `SeqFile.SeqFile.Fill` | linux-2.4.18-14custom/fs/seq_file.c:103-130 | Copies the next bytes of the file and keeps the rest for the next read. |
| `SeqFile.SeqFile.SeqRead` | linux-2.4.18-14custom/fs/seq_file.c:45-144 | Returns exactly the bytes at the file position, and of them what is left in the buffer and the whole records that one buffer holds, up to what was asked for; returns none if and only if the exact condition `Stalls` holds. |
| `SeqFile.SeqFile.Traverse` | linux-2.4.18-14custom/fs/seq_file.c:146-192 | Ends at the first record that starts at the offset or covers it, in the state of a reader there, or asks for a second try with a larger buffer that is no larger than the records passed need. |
| `SeqFile.SeqFile.SeqLseek` | linux-2.4.18-14custom/fs/seq_file.c:200-228 | Succeeds exactly for the offsets the source allows, after any number of retries, lands at the first record that starts there, and keeps the invariant of the reader. |
| `SeqFile.SeqFile.Session` | linux-2.4.18-14custom/fs/seq_file.c:45-228 | Any sequence of reads and seeks sees the plain concatenation of the records; of a smooth file each read for at least one byte returns something if and only if something is left. |
| `SeqFile.SeqFile.ReadAll` | linux-2.4.18-14custom/fs/seq_file.c:45-144 | Reading on until nothing comes delivers all of a smooth file from the position on. |
| `SeqFile.StallsOnlyAtEnd` | linux-2.4.18-14custom/fs/seq_file.c:45-144 | Of a smooth file, one with no empty record before a record that does not fit the least buffer for the records in front of it, a read returns nothing if and only if the position is at the end. |
| `SeqFile.SmoothIff` | linux-2.4.18-14custom/fs/seq_file.c:45-144 | Smoothness is the exact condition: no state that satisfies the invariant of the reader stalls before the end, if and only if the file is smooth. |
| `SeqFile.ReadRough` | linux-2.4.18-14custom/fs/seq_file.c:45-228 | For every file that is not smooth: a new reader that seeks to the empty record and asks for one byte gets none, before the end of the file. |
| `SeqFile.FitIsLarge` | linux-2.4.18-14custom/fs/seq_file.c:81-101 | The buffer of a reader is never smaller than the least doubled page for the records it has passed. |
| `SeqFile.LooksEmpty` | linux-2.4.18-14custom/fs/seq_file.c:103-118 | A concrete file that is not empty but whose first read returns nothing. |
| `Rings.RingSplit` | linux-2.4.18-14custom/include/linux/pipe_fs_i.h:20-39 | Reading from a ring, wrap-around included, takes the first elements and leaves the rest. |
| `Rings.RingAdd` | linux-2.4.18-14custom/include/linux/pipe_fs_i.h:20-39 | Writing after the last element adds to the contents. |
| `Pipe.MovedIsMasked` | linux-2.4.18-14custom/include/linux/pipe_fs_i.h:20-39 | Moving on along the page, as the ring does, is masking with its size, as the code does. |
| `Pipe.Pipe.ReadChunk` | linux-2.4.18-14custom/fs/pipe.c:89-105 | A chunk up to the end of the page is the front of the contents. |
| `Pipe.Pipe.ReadLoop` | linux-2.4.18-14custom/fs/pipe.c:88-110 | Takes the front of the contents, as much as is asked for and there. |
| `Pipe.Pipe.ReadSection` | linux-2.4.18-14custom/fs/pipe.c:86-122 | As `ReadLoop`; the reader waits again only with an empty pipe, so that the BUG is unreachable. |
| `Pipe.Pipe.WriteChunk` | linux-2.4.18-14custom/fs/pipe.c:187-205 | A chunk up to the end of the page goes to the back of the contents. |
| `Pipe.Pipe.WriteLoop` | linux-2.4.18-14custom/fs/pipe.c:186-206 | Adds as much of the data as there is room for. |
| `Pipe.Pipe.WriteSection` | linux-2.4.18-14custom/fs/pipe.c:162-228 | A write of at most PIPE_BUF bytes goes in whole or not at all; a longer one as far as there is room. |
| `PipeRuns.WriteInv` | linux-2.4.18-14custom/fs/pipe.c:162-228 | A section of a write keeps the order of all bytes and the unity of small writes. |
| `PipeRuns.RunInv` | linux-2.4.18-14custom/fs/pipe.c:61-228 | The invariant holds along every interleaving of readers and writers. |
| `PipeRuns.EveryRun` | linux-2.4.18-14custom/fs/pipe.c:61-228 | In every run the bytes delivered are the first ones accepted, what each call has put in are the first bytes of its data, in order, and a small write went in in one piece. |
| `PipeRuns.LargeWriteGoesOn` | linux-2.4.18-14custom/fs/pipe.c:162-206 | A write of more than PIPE_BUF bytes goes on whenever there is room, by as much as there is. |
| `PipeRuns.EmptyPipeTakesMore` | linux-2.4.18-14custom/fs/pipe.c:162-228 | In every run, a writer that has not finished makes progress on an empty pipe. |
| `PipeRuns.Traffic.Write` | linux-2.4.18-14custom/fs/pipe.c:162-228 | A section of a write on the ring performs the event of the run model, blocked or not. |
| `PipeRuns.Traffic.Read` | linux-2.4.18-14custom/fs/pipe.c:86-122 | A section of a read on the ring performs the event of the run model. |
| `PipeRuns.Traffic.Run` | linux-2.4.18-14custom/fs/pipe.c:61-228 | Any interleaving on the ring, with its wrap-around, ends in the state of the run model, so that `EveryRun` holds of the ring. |
| `CompT.EncodeCompT` | linux-2.4.18-14custom/kernel/acct.c:233-262 | The shift loop computes rounding to the nearest unit 8^k with halves up, carry moved to the exponent; a reader who takes the word apart gets a number within half a unit. |
| `CompT.ShiftOnce` | linux-2.4.18-14custom/kernel/acct.c:242-246 | The one rounding bit that the loop keeps decides the rounding of the whole number. |
| `CompT.EncodeClose` | linux-2.4.18-14custom/kernel/acct.c:233-262 | The encoded value is within half a unit of the number, and the carry loses nothing. |
| `CompT.EncodeMonotone` | linux-2.4.18-14custom/kernel/acct.c:233-262 | Larger numbers never get smaller codes. |
| `CompT.EncodeValue` | linux-2.4.18-14custom/kernel/acct.c:233-262 | Round trip: encoding the value of any code the encoder can produce gives that code back. |
| `CompT.EncodeNormal` | linux-2.4.18-14custom/kernel/acct.c:233-262 | Every code produced is normalised. |
| `CompT.EncodeFits` | linux-2.4.18-14custom/kernel/acct.c:233-262 | Every 32-bit number gets an exponent of at most 7 and a code of 16 bits. |
| `PolicyLog.LogArray.constructor` | linux-2.4.18-14custom/kernel/hw1_syscalls.c:28-61 | A new log is a well-formed ring with no records. |
| `PolicyLog.LogArray.Append` | linux-2.4.18-14custom/kernel/exit.c:596-607 | The record is added to those not yet read if and only if the ring is not full; when it is, the ring is overrun and the newest record comes first. |
| `PolicyLog.LogArray.Enough` | linux-2.4.18-14custom/kernel/hw1_syscalls.c:124-138 | The tests on the indexes and the full flag mean: there are that many records. |
| `PolicyLog.LogArray.CopyOut` | linux-2.4.18-14custom/kernel/hw1_syscalls.c:146-154 | The records come out in order across the end of the ring. |
| `PolicyLog.LogArray.GetProcessLog` | linux-2.4.18-14custom/kernel/hw1_syscalls.c:124-168 | Returns the oldest records and leaves exactly the rest, if and only if it is not a read of none from a full ring, which drops everything; every failure leaves the ring as it was. |
| `PolicyLog.LogArray.Handle` | linux-2.4.18-14custom/kernel/hw1_syscalls.c:124-168 | One event: unless it drops records, none is lost, repeated or moved. |
| `PolicyLog.LogArray.Session` | linux-2.4.18-14custom/kernel/hw1_syscalls.c:124-168 | Over any run that does not overrun the ring, what is delivered and what is left is everything logged, in order, if and only if no read of a full ring asked for nothing; and exactly so many records are missing as such reads dropped. |

## Left out

- Leases, `flock` locks, mandatory locks and `/proc/locks`: other owner rules on the same list.
- `f_op->lock`, `fl_notify` and `fl_insert`/`fl_remove`: callbacks of network file systems.
- The conversion of `struct flock` to a range (`fs/locks.c:250-347`): requests arrive as `0 <= start <= end`.
- Running out of memory, and failing copies to and from user memory, in every part but the policy log.
- The order in which several sleepers of one lock run again: each wake-up is an event of its own.
- A sleeper that runs again repeats `posix_lock_file` from its conflict scan: it is a new call in the run model.
- Quota limits, warnings, `quotactl`, the cache of `dquot` structures and `dquot_transfer`.
- The header block of the quota file, the pad words of block headers, and I/O errors; a block is 256 words.
- QuotaFile.QuotaFile.Run: operations that store an all-zero record or erase the last id are outside, as `WriteDquot` and `DeleteDquot` say.
- SemWakeups.RunWatched: a process that exits is taken not to be inside `sys_semop`.
- `sempid`, permissions, time stamps, IPC_RMID and `freeary`; SETVAL and SETALL are events without their range checks.
- The SEM_UNDO flag that `try_atomic_semop` clears in the caller's own array before it fails with ERANGE.
- PolicyLog.LogArray.Append: a log made with size 0 has no place to write to; the source assumes a large enough log.
- PolicyLog.LogArray.Session: runs that overrun the ring are outside, as `Append` says when that happens.
- The reason why a message receiver's sleep ends (`expunge_all`) and the list of sleeping senders.
- `load_msg` and `store_msg`, which split a text into pages.
- Errors from the `start`, `next` and `show` operations of a seq_file; the records do not change while it is read.
- Wait queues, signals, SIGPIPE and the counts of readers and writers of a pipe.
- The writer of accounting records other than its number format.
- `sys_disable_policy`, `sys_set_process_capabilities`, passwords and the search for the process.
- LockBlocking.GrantWakes: on a list that is not in normal form only one direction is stated, that nobody is left waiting for a lock that is gone (`GrantInv`); waking too many there is not excluded.
- Physical aliasing: lists linked by pointers are sequences, addresses are ids, and `before` is an index.
