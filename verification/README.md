# Verified model of the rko kernel library

This project models the parts of rko, a library for writing Linux kernel modules in Rust, whose correctness
depends on more than one function: the asynchronous task runtime, the block mapping of its two sample file
systems, its in-place containers, and the HTTP server with its io_uring bridge. The properties are proved for all
inputs, all interleavings or all histories. Where a counter of the code wraps, what holds up to the wrap and what
holds beyond it are separate statements.

Check it with `dafny verify dfyconfig.toml`.

## How the model is built

**Protocols** (`Revocable`, `Executor`, `NoWaitLock`, `SocketFuture`, `ArcRefs`, `Oneshot`, `UringHandler`) are
state machines. Every atomic load, compare-exchange, fetch_or, fetch_sub, lock section, drop and kernel call is
one step, any number of threads take steps in any order, and atomics are sequentially consistent. `Enabled` says
when a step can be taken, `Apply` what it does, `Exec` (or `Moves`) runs a sequence of steps. The main theorems
speak of every state that a run can reach. Some state fields are history: how often a value was dropped, whether
freed memory was touched.

**Objects and loops** (`Mapper`, `Folio`, `Tarfs`, `TarfsDir`, `Ext2Blocks`, `UnsafeList`, `KVec`, `HttpStream`,
`Routes`, `Serialize`) are classes and methods with loops, as in the source, each proved against a specification
that does not mention pages, shifts, chunks or link fields.

`Wrappers`, `Words`, `Bits` and `LittleEndian` hold options and results, integer widths, binary arithmetic and
byte order.

The environment is modelled by parameters: a device is a byte sequence with a set of unreadable pages; an
allocator is a boolean per call; a peer is a byte sequence with the amounts that arrive; a user buffer is a number
of entries that fit; the header parser is a function of which `HttpStream.Sound` says what is relied on.

### Assumptions about the kernel

- `queue_work_on` returns false exactly when the item is already pending; one item never runs concurrently with
  itself; `cancel_work_sync` clears pending and returns only when no run is in flight.
- A block device's page cache shows whole pages: the partial last page of a device is padded, and reading it
  succeeds. Folios of a block device are one page long, so `kmap_local_folio(folio, 0)` maps all of one.
- `min_blocksize` may refuse block sizes that a superblock announces; all that it announces are covered.
- A socket that becomes ready announces it after the change, with a key that meets the mask, to the entries on
  its wait queue; `remove_wait_queue` returns only when the callbacks of the entry have finished.
- The machine is little-endian with 64-bit `usize` and 4096-byte pages.

### Where the code and its documentation differ

The model follows the code. Each difference has a run or an input that shows it, and a theorem that says exactly
when the promise is kept.

- A second `stop` may return while a task of the executor is being polled (`Executor.SecondStopReturnsEarly`).
  Which tasks can still be polled after it is `Executor.PolledLaterIffOpen`; after the first there are none.
- `flush` ignores the result of `cancel_work_sync`, so a reference enqueued and then cancelled is lost
  (`ArcRefs.FlushLosesReference`) and its task is never freed (`ArcRefs.CancelledIsNeverFreed`).
- The reference count does not saturate. It wraps without harm up to 2^32 references; a drop frees too early if and
  only if it finds one more than a multiple of 2^32 (`ArcRefs.StepKeepsInvIff`, `ArcRefs.WrappedCountFreesEarly`).
- The guard count of `AsyncRevocable` can run into the revoked bit. No value is dropped early or twice even then
  (`Revocable.ValueDroppedExactlyOnce`), but a revoke is lost if and only if 2^31 guards are alive at it
  (`Revocable.RevokeStaysIff`, `Revocable.RevokeIsLost`).
- A failing `try_lock` may be reported to nobody (`NoWaitLock.FailureMayGoUnreported`); `NoWaitLock.FailureMarksIff`
  says when it is reported.
- A poll of a `SocketFuture` that fails its `try_lock` does not store its waker. No wake-up is lost as long as one
  task polls the future (`SocketFuture.NoLostWakeUp`); with two it may be (`SocketFuture.WakeUpIsLost`), and
  `SocketFuture.LostIffDeaf` says exactly when.
- The receiver's state check and waker store are two steps between which the sender may take the waker; no wake is
  lost all the same (`Oneshot.NoLostWake`). Every poll after Ready returns the value again
  (`Oneshot.RepollDeliversTwice`, `Oneshot.DeliveredOnceIff`).
- `offset_to_block` follows a zero pointer like any other; `Ext2Blocks.Follow` does the same. For block sizes above
  the page size it can panic, and only then (`Ext2Blocks.NeverPanicsIff`).
- A tarfs file whose disk offset wraps around is read from the start of the device
  (`Tarfs.WrappedFileReadsTheStart`); `Tarfs.ReadFolio` says when a folio holds the file's own bytes.
- `List::new` returns the list by value, with links to the sentinel's old address: no valid list stays valid when
  its bytes move (`UnsafeList.List.Moved`).
- A request that is already buffered when the previous one has been answered is parsed only after another read, and
  is lost if the peer sends nothing more (`HttpStream.PipelinedRequestsAreLost`, `HttpStream.AtMostOnePerPiece`);
  `HttpStream.HandledRequests` says exactly which requests are lost.
- RECV_REQUEST cuts a request to the user's buffer and reports success; `Serialize.ReceivedIff` says when what it
  hands over is the request.
- A request that no queue takes, whose queue is destroyed, or that cannot be copied out keeps its task waiting for a
  response to a request nobody can receive (`UringHandler.AcceptedRequestIsLost`); `UringHandler.DeliverableIff`
  says exactly which requests can still be received.
- The catch-all route takes the requests of every shorter route, and of every route of its own length that was added
  after it (`Routes.ChosenIffNotShadowed`, `Routes.LengthDecides`, `Routes.AddedBehindItsLength`).

## Model

| member | source | states |
|---|---|---|
| `Revocable.StepKeepsInv` | rko-core/src/revocable.rs:50-106 | every step of any thread, with any number of guards, keeps: the word is the guard count, or that plus a revoked bit set by a revoke; one drop is due exactly when that bit is set and no guard is left |
| `Revocable.StepKeepsPackedIff` | rko-core/src/revocable.rs:50-80 | a step keeps "word = guards + revoked bit" if and only if it is not the compare-exchange that makes the 2^31-th guard |
| `Revocable.RunKeepsInv` | rko-core/src/revocable.rs:50-124 | every run keeps the invariant |
| `Revocable.ValueDroppedExactlyOnce` | rko-core/src/revocable.rs:88-171 | in every run, with any number of guards, the value is dropped at most once, never under a guard and never touched afterwards; if the guards fit 31 bits, exactly once when it is revoked, unguarded and no thread owes the drop |
| `Revocable.NoGuardAfterRevoke` | rko-core/src/revocable.rs:50-106 | once a revoke has set the bit, no guard is ever handed out again, in any continuation |
| `Revocable.RevokeStaysIff` | rko-core/src/revocable.rs:88-106 | a revoke sets a bit that stays in every continuation if and only if fewer than 2^31 guards are alive at its fetch_or |
| `Revocable.RevokeIsLost` | rko-core/src/revocable.rs:88-106 | a run in which the value can be accessed again after a revoke |
| `Revocable.RevokeAnswers` | rko-core/src/revocable.rs:88-106 | in every good state a revoke returns false at once if and only if the value is already revoked or a guard is alive; otherwise it drops the value and returns true |
| `Revocable.OneRevokeWins` | rko-core/src/revocable.rs:88-106 | in every run at most one revoke returns true, and when it has, the value has been dropped; any other revoke returns false |
| `Revocable.TryAccessAnswers` | rko-core/src/revocable.rs:50-80 | in every good state try_access is refused if and only if the value is revoked or 2^31 guards are alive, and otherwise can get its guard |
| `Executor.StepKeepsInv` | rko-core/src/kasync/executor/workqueue.rs:68-292 | each step of spawns, wakes, worker runs, handle revokes and stops keeps the task, debt, agent, list and stop invariants |
| `Executor.RunKeepsInv` | rko-core/src/kasync/executor/workqueue.rs:68-292 | every run keeps them |
| `Executor.RunStepFrame` | rko-core/src/kasync/executor/workqueue.rs:68-99 | a step of `Task::run` keeps the task's own invariant and nobody else's debt, and never reopens a closed task |
| `Executor.StopLockKeepsInv` | rko-core/src/kasync/executor/workqueue.rs:274-284 | taking the task list under the lock hands every registered task to the first stop |
| `Executor.WaitedKeepsInv` | rko-core/src/kasync/executor/workqueue.rs:284-292 | when the cancellation of a revoked task returns, that task can never be polled again |
| `Executor.StopIsFinal` | rko-core/src/kasync/executor/workqueue.rs:208-292 | once the first stop has returned, no poll is running, none starts in any continuation, no task is registered any more, and every registered future has been dropped exactly once, unless a handle holder is in the middle of dropping it |
| `Executor.StopStays` | rko-core/src/kasync/executor/workqueue.rs:208-263 | after the first stop every continuation, also of spawns caught between their checks, registers nothing |
| `Executor.SpawnAnswers` | rko-core/src/kasync/executor/workqueue.rs:208-263 | in every run a spawn that returned a handle has registered its task; one that returned an error has left none registered and dropped the future of any task it made exactly once; it returned EBUSY if the task was refused at the second check, which only a stopped executor does, and ENOMEM if the push failed |
| `Executor.LateSpawnIsRefused` | rko-core/src/kasync/executor/workqueue.rs:208-263 | a spawn caught between its two checks by a stop returns no handle in any continuation |
| `Executor.ReturnedMeansClosed` | rko-core/src/kasync/executor/workqueue.rs:274-292 | when the first stop has returned every task is closed |
| `Executor.PollsOnlyLiveFutures` | rko-core/src/kasync/executor/workqueue.rs:68-99 | in every run a future is dropped at most once and polled only while it is registered, not dropped and owed to nobody |
| `Executor.ReadyIsFinal` | rko-core/src/kasync/executor/workqueue.rs:68-99 | from every reachable state in which a poll has returned Ready, the task is never polled again, and when its run has ended the future is revoked and dropped exactly once, or about to be by one agent |
| `Executor.SecondStopReturnsEarly` | rko-core/src/kasync/executor/workqueue.rs:274-292 | a run in which a second stop returns while a poll is running |
| `Executor.PolledLaterIffOpen` | rko-core/src/kasync/executor/workqueue.rs:68-112 | in every reachable state of a stopped executor, a task is polled in some continuation if and only if it is being polled, or is registered, not revoked nor about to be by its own run, and queued or wakeable or about to be enqueued |
| `Executor.ShutForGood` | rko-core/src/kasync/executor/workqueue.rs:208-292 | once the executor is stopped, a task that cannot be polled never can again |
| `NoWaitLock.StepKeepsInv` | rko-core/src/sync/nowaitlock.rs:49-118 | each compare-exchange and swap keeps "the lock is taken exactly while one thread holds it, contended exactly when marked" |
| `NoWaitLock.RunKeepsInv` | rko-core/src/sync/nowaitlock.rs:49-118 | every run keeps it |
| `NoWaitLock.UnlockReportsMarks` | rko-core/src/sync/nowaitlock.rs:87-118 | at most one thread holds the lock, and its unlock returns true exactly when a failing try_lock marked it |
| `NoWaitLock.TryLockSucceedsIff` | rko-core/src/sync/nowaitlock.rs:49-68 | in every run a try_lock gets the lock if and only if nobody holds it at its first compare-exchange, and fails otherwise |
| `NoWaitLock.FailureMarksIff` | rko-core/src/sync/nowaitlock.rs:49-68 | a failing try_lock marks a holder if and only if the lock is held at its second compare-exchange |
| `NoWaitLock.FailureMayGoUnreported` | rko-core/src/sync/nowaitlock.rs:49-68 | a run in which a try_lock fails and no unlock reports it |
| `SocketFuture.NoLostWakeUp` | rko-core/src/kasync/net/mod.rs:132-275 | in every run, when the last poll returned Pending, its waker is the one stored or only one task polls, and the socket is ready, then that task is queued or a callback in flight will wake it |
| `SocketFuture.LostIffDeaf` | rko-core/src/kasync/net/mod.rs:141-150 | the wake-up of a wait can be lost if and only if the poller's waker is neither stored nor about to be used and the poller is not queued |
| `SocketFuture.WakeUpIsLost` | rko-core/src/kasync/net/mod.rs:141-150 | a run in which two tasks poll and the second is never woken |
| `SocketFuture.CallbacksFindWaker` | rko-core/src/kasync/net/mod.rs:204-275 | poll and callbacks exclude one another on the waker, a callback with the lock finds one, and none is inside after the future is dropped |
| `SocketFuture.MoveKeepsInv` | rko-core/src/kasync/net/mod.rs:132-275 | every step of the poll, the drop, the callbacks and the kernel keeps the invariant |
| `SocketFuture.CallbackKeepsWake` | rko-core/src/kasync/net/mod.rs:243-275 | a callback that fails its try_lock leaves the wake to a holder that will wake or retry |
| `SocketFuture.MissedKeyWakesNobody` | rko-core/src/kasync/net/mod.rs:260-264 | a callback whose key has no event of the mask never takes the lock or wakes anybody, in any continuation |
| `SocketFuture.PollFinishesIffReady` | rko-core/src/kasync/net/mod.rs:187-201 | a poll that comes to its operation finishes the future if and only if the operation does not block, and a finished future is not polled again |
| `SocketFuture.RunKeepsInv` | rko-core/src/kasync/net/mod.rs:132-275 | every run keeps the invariant |
| `ArcRefs.StepKeepsInvIff` | rko-core/src/sync/arc.rs:123-195 | every clone, drop, conversion, enqueue, callback and flush keeps "count = references, freed exactly when none are left", if and only if it is not a drop that finds one more than a positive multiple of 2^32 references |
| `ArcRefs.DropKeepsInvIff` | rko-core/src/sync/refcount.rs:42-60 | the same for the decrement, on the wrapping 32-bit count |
| `ArcRefs.MisfiresMeans` | rko-core/src/sync/refcount.rs:42-60 | the count differs from the number of references by a multiple of 2^32, and a drop misfires exactly at one more than a positive multiple of 2^32 references |
| `ArcRefs.RunKeepsInv` | rko-core/src/kasync/executor/mod.rs:41-84 | every history with at most 2^32 references keeps it, and references lost to a flush stay lost |
| `ArcRefs.CountIsReachability` | rko-core/src/workqueue.rs:502-546 | the count equals owners, raw pointers and enqueues, plus one lent reference, plus one per item cancelled while pending; the object is freed exactly when all of these are gone, once, and not used afterwards |
| `ArcRefs.CancelledIsNeverFreed` | rko-core/src/kasync/executor/workqueue.rs:123-135 | after a flush that cancelled a pending item no continuation frees the task |
| `ArcRefs.FlushLosesReference` | rko-core/src/kasync/executor/workqueue.rs:123-135 | a run in which a flush loses a reference |
| `ArcRefs.WrappedCountFreesEarly` | rko-core/src/sync/refcount.rs:42-60 | a run with 2^32 + 1 references in which one drop frees the object under the others |
| `Oneshot.StepKeepsInv` | rko-core/src/kasync/oneshot.rs:69-142 | every step of either half keeps the channel, waker and reference invariants |
| `Oneshot.RunKeepsInv` | rko-core/src/kasync/oneshot.rs:53-142 | every run keeps them |
| `Oneshot.NoLostWake` | rko-core/src/kasync/oneshot.rs:69-135 | when the last poll returned Pending its waker has been woken or will be taken, and has been woken once the sender is past its take |
| `Oneshot.DeliveredOnceIff` | rko-core/src/kasync/oneshot.rs:94-120 | every value returned is the one sent; after Ready it has been returned exactly once more than the receiver was polled again; between polls at most once if and only if it was not polled after Ready or the sender was dropped |
| `Oneshot.PollAnswers` | rko-core/src/kasync/oneshot.rs:94-120 | in every good state a poll is pending exactly when the channel is empty at its second look; it is ready with the value that was sent, or with none after the sender was dropped |
| `Oneshot.FreedOnceByTheLast` | rko-core/src/kasync/oneshot.rs:123-142 | the block is freed at most once, only when both halves have left, and never touched afterwards |
| `Oneshot.RepollDeliversTwice` | rko-core/src/kasync/oneshot.rs:94-120 | a run in which a poll after Ready returns the value again |
| `Mapper.MappedFolio` | rko-core/src/fs/mapper.rs:92-132 | the bytes from an offset to the end of its page, exactly when the offset is not negative and the page can be read |
| `Mapper.PageCursor.Next` | rko-core/src/fs/mapper.rs:139-164 | one iteration of `for_each_page` hands out the next stretch of the range within one page, or fails only if some page of the range cannot be read |
| `Ext2Blocks.PathLeadsBack` | samples/ext2/ext2.rs:178-213 | every file block below the capacity has a well-formed path that leads back to it |
| `Ext2Blocks.PathOfItsBlock` | samples/ext2/ext2.rs:178-213 | every well-formed path leads to a block below the capacity and is the path of that block, so paths and blocks correspond one to one |
| `Ext2Blocks.PathMeans` | samples/ext2/ext2.rs:178-213 | the path in numbers: 12 direct blocks, then one, two and three digits below entries 12, 13 and 14, and how many blocks these are |
| `Ext2Blocks.Offsets` | samples/ext2/ext2.rs:178-213 | the shift-and-mask form computes the path by division, and returns nothing exactly beyond the capacity |
| `Ext2Blocks.DeepOffsets` | samples/ext2/ext2.rs:195-211 | the same for the doubly and triply indirect blocks |
| `Ext2Blocks.SplitTwo` | samples/ext2/ext2.rs:196-200 | shift and mask by the pointer count are quotient and remainder |
| `Ext2Blocks.SplitThree` | samples/ext2/ext2.rs:203-208 | the three indices of a triply indirect block are the digits of its number |
| `Ext2Blocks.ReadEntry` | samples/ext2/ext2.rs:223-229 | reading a pointer through the mapped slice is reading its four bytes from the disk image, least significant first; it panics exactly when the entry lies behind the mapped page |
| `Ext2Blocks.WalkTables` | samples/ext2/ext2.rs:215-231 | the table loop ends as following the raw pointers on the image does, errors and panics included |
| `Ext2Blocks.WalkIsChain` | samples/ext2/ext2.rs:215-231 | a walk that ends has followed a chain of pointers on the image, each four bytes, least significant first, at four times its index in its block |
| `Ext2Blocks.LE32Bytes` | rko-core/src/types/le.rs:16-75 | a pointer is the sum of its four bytes weighted by 1, 256, 65536 and 16777216 |
| `Ext2Blocks.OffsetToBlock` | samples/ext2/ext2.rs:215-231 | for every block size, the disk block of a file block is the one the pointer tree leads to, one level down the pointer at entry block - 12 of the block in slot 12; EIO exactly outside the capacity or where a table cannot be read; no panic up to the page size |
| `Ext2Blocks.NeverPanicsIff` | samples/ext2/ext2.rs:223-229 | no walk over any device panics if and only if the block size is at most the page size |
| `Ext2Blocks.BlockInPage` | rko-core/src/fs/mapper.rs:92-132 | a block no larger than a page lies within one page |
| `Ext2Blocks.CapacityFits` | samples/ext2/defs.rs:16-20 | the capacity fits a signed 64-bit block number for every accepted block size |
| `LittleEndian.DecodeEncode` | rko-core/src/types/le.rs:16-75 | an integer stored in n bytes and read back is the integer modulo the width |
| `LittleEndian.DecodeSplit` | rko-core/src/types/le.rs:16-75 | later bytes weigh more: of two stretches the second counts 256 to the length of the first |
| `LittleEndian.SliceCount` | rko-core/src/types/le.rs:144-157 | a byte slice is a slice of records exactly when its length is a multiple of their size and its address is aligned, and then of all of it |
| `Folio.LockedFolio.CheckRange` | rko-core/src/fs/folio.rs:169-185 | the range check accepts exactly the ranges within the folio, without overflow |
| `Folio.LockedFolio.StoreNext` | rko-core/src/fs/folio.rs:169-201 | one round of the page loop writes as much as the page takes, in its place |
| `Folio.LockedFolio.Write` | rko-core/src/fs/folio.rs:203-211 | a write split at page boundaries overwrites exactly the range with the data, or nothing on error |
| `Folio.LockedFolio.ZeroOut` | rko-core/src/fs/folio.rs:213-219 | the same with zeros |
| `Folio.OverwrittenMeans` | rko-core/src/fs/folio.rs:203-219 | what a write leaves at each position: the data inside the range, what was there outside |
| `Tarfs.ReadFolio` | samples/tarfs/tarfs.rs:216-251 | on success byte i of the folio is the disk byte at disk offset + position + i (wrapped) while position + i is inside the file, and zero behind; otherwise a prefix of these and zeros; success exactly when every touched device page can be read; the bytes are the file's own if and only if none were copied or the disk offset does not wrap |
| `Tarfs.CopyFromDevice` | samples/tarfs/tarfs.rs:237-248 | the copy loop, whose reads and writes are split at different boundaries, puts a prefix of the disk range in place |
| `Tarfs.WrappedFileReadsTheStart` | samples/tarfs/tarfs.rs:216-251 | on every device, reading the second page of a file at the end of the 64-bit range succeeds with the device's first page |
| `TarfsDir.NameEq` | samples/tarfs/tarfs.rs:122-135 | the comparison page by page answers whether the name is on the disk, whenever the pages can be read |
| `TarfsDir.ReadName` | samples/tarfs/tarfs.rs:366-384 | a name is read, with its bytes on the disk, exactly when it fits the buffer and its pages can be read |
| `TarfsDir.DirentMeans` | samples/tarfs/defs.rs:45-54 | the entry shown for a record: its inode number is bytes 0 to 7, its name the stretch of the disk that bytes 8 to 15 and 16 to 23 give, its kind byte 24 |
| `TarfsDir.ReadableMeans` | samples/tarfs/tarfs.rs:366-384 | a record can be shown if and only if its name has at most 256 bytes and all pages of it can be read |
| `TarfsDir.KindByByte` | samples/tarfs/tarfs.rs:386-397 | which type byte stands for which kind of file |
| `TarfsDir.EmitEntry` | samples/tarfs/tarfs.rs:364-403 | one record is shown with its name, inode number and type exactly when it can be read and there is room |
| `TarfsDir.EmitPage` | samples/tarfs/tarfs.rs:358-407 | a stretch of the table shows its entries in order until one cannot be read or the buffer is full |
| `TarfsDir.EmitTable` | samples/tarfs/tarfs.rs:355-408 | the entries of the table from the given one on are shown in order, across page boundaries |
| `TarfsDir.ReadDir` | samples/tarfs/tarfs.rs:328-411 | one call shows the entries from its position on and advances the position by 32 per entry; ENOENT for a bad position, EIO for a table beyond the data; no error on a whole, readable table |
| `TarfsDir.DirEmitter.Emit` | rko-core/src/fs/dir.rs:138-152 | the position advances exactly when the entry is accepted |
| `TarfsDir.ListDirectory` | samples/tarfs/tarfs.rs:328-411 | over any calls with buffers of any sizes, the i-th entry shown is what bytes 32 i to 32 i + 31 of the table record, each entry once and in order, and nothing is left out that there was room for |
| `UnsafeList.List.PushBack` | rko-core/src/unsafe_list.rs:109-124 | appends an unlinked entry; both rings hold the longer sequence |
| `UnsafeList.List.PopFront` | rko-core/src/unsafe_list.rs:128-148 | takes out the first entry and unlinks it; nothing exactly when empty |
| `UnsafeList.List.Front` | rko-core/src/unsafe_list.rs:153-161 | the first entry, or nothing exactly when empty |
| `UnsafeList.List.Remove` | rko-core/src/unsafe_list.rs:168-183 | takes out an entry at any place and unlinks it; both rings hold the rest in order |
| `UnsafeList.List.IsEmpty` | rko-core/src/unsafe_list.rs:96-99 | the sentinel points at itself exactly when the list is empty |
| `UnsafeList.List.constructor` | rko-core/src/unsafe_list.rs:83-93 | a list that is empty as long as it stays where it is |
| `UnsafeList.List.Moved` | rko-core/src/unsafe_list.rs:83-93 | a list whose bytes have moved is not a valid list any more and does not look empty |
| `KVec.Vec.ReallocTo` | rko-core/src/alloc/kvec.rs:174-191 | reallocation keeps every element in place, or fails and changes nothing |
| `KVec.Vec.Reserve` | rko-core/src/alloc/kvec.rs:156-162 | succeeds exactly when there is room or the allocator grants it, with exactly the capacity needed |
| `KVec.Vec.Grow` | rko-core/src/alloc/kvec.rs:165-171 | doubles the capacity, from zero to one, or changes nothing |
| `KVec.Vec.Push` | rko-core/src/alloc/kvec.rs:70-80 | appends the value, or drops it exactly when the vector is full and cannot grow |
| `KVec.Vec.Pop` | rko-core/src/alloc/kvec.rs:83-90 | moves out the last element |
| `KVec.Vec.Remove` | rko-core/src/alloc/kvec.rs:94-106 | moves out one element and keeps the order of the rest |
| `KVec.Vec.SwapRemove` | rko-core/src/alloc/kvec.rs:111-121 | moves out one element and puts the last in its place |
| `KVec.Vec.Truncate` | rko-core/src/alloc/kvec.rs:141-152 | drops exactly the elements beyond the new length, in order |
| `KVec.Vec.ResizeWith` | rko-core/src/alloc/kvec.rs:197-216 | truncates, or appends the generated values, or fails and changes nothing |
| `KVec.Vec.Drop` | rko-core/src/alloc/kvec.rs:258-270 | drops every element once |
| `KVec.IntoIter.Next` | rko-core/src/alloc/kvec.rs:297-307 | moves out the elements in order |
| `KVec.IntoIter.Drop` | rko-core/src/alloc/kvec.rs:315-325 | drops exactly the elements not consumed and leaves none to the vector |
| `KVec.Iterate` | rko-core/src/alloc/kvec.rs:292-342 | a consuming iteration abandoned after some elements hands out exactly those and drops exactly the rest |
| `KVec.Life` | rko-core/src/alloc/kvec.rs:70-342 | over any operations with any allocation failures and a partly consumed iteration, every element pushed or generated is returned or dropped, exactly once |
| `HttpStream.BufReader.Fill` | rko-util/src/http/buf_reader.rs:31-53 | the buffered bytes grow by exactly what was read; E2BIG exactly when they fill the buffer |
| `HttpStream.BufReader.Consume` | rko-util/src/http/buf_reader.rs:61-63 | drops the first bytes |
| `HttpStream.BufReader.Reset` | rko-util/src/http/buf_reader.rs:66-76 | keeps the bytes not consumed |
| `HttpStream.ReadBody` | rko-util/src/http/parse.rs:130-172 | the body is the next content-length bytes of the input, from buffer and stream together; otherwise the input ended before, or the length is over the limit |
| `HttpStream.ReadHeader` | rko-util/src/http/parse.rs:24-75 | the buffer is found full before a read if and only if the header limit is zero; an oversized header is reported as such |
| `HttpStream.TakeRequest` | rko-util/src/http/parse.rs:34-64 | after a complete header: the request and where it ends, or the error that its method, length or missing body deserves |
| `HttpStream.ParseRequest` | rko-util/src/http/parse.rs:19-75 | the request at the current position of the input, or the error it deserves, whatever pieces the input arrives in |
| `HttpStream.FirstMeans` | rko-util/src/http/parse.rs:19-75 | the first request of an input is its header block, recognised within the limit, and exactly the announced number of bytes behind it; each error if and only if its one cause |
| `HttpStream.KeepsAliveMeans` | rko-util/src/http/server.rs:173-186 | an HTTP/1.1 connection is kept unless the request says close, an HTTP/1.0 connection if and only if it says keep-alive |
| `HttpStream.HandleConnection` | rko-util/src/http/server.rs:157-190 | the requests handled cut the input from its beginning without gaps, in order, each after a read of its own; the connection counts as closed only when nothing more can be read or the header limit is zero, and is not kept only after a 1.1 request with close or a 1.0 request without keep-alive |
| `HttpStream.RequestsOfCut` | rko-util/src/http/server.rs:157-190 | a cut of the input is what a parse of the input in one piece yields |
| `HttpStream.FirstOfPart` | rko-util/src/http/parse.rs:19-75 | a request found in the input is found in every part of the input that contains it |
| `HttpStream.HandledRequests` | rko-util/src/http/server.rs:157-190 | however the bytes arrive, the requests handled are a prefix of those of the input, all of them when the connection is refused or not kept; on close exactly those of the unhandled bytes are lost |
| `HttpStream.AtMostOnePerPiece` | rko-util/src/http/parse.rs:24-28 | for every parser, input and pieces, at most one request is handled for each piece that arrives |
| `HttpStream.PipelinedRequestsAreLost` | rko-util/src/http/parse.rs:24-28 | a pipeline of any length in one piece, of which at most one request is handled |
| `Routes.RouteTable.AddUrl` | rko-util/src/http/uring.rs:340-399 | every error case; otherwise the table stays sorted and distinct and gains the route, behind all that are at least as long |
| `Routes.RouteTable.Sort` | rko-util/src/http/uring.rs:386-396 | the insertion sort puts the appended route in its place |
| `Routes.RouteTable.Sink` | rko-util/src/http/uring.rs:389-395 | the inner loop moves one route down past all shorter ones |
| `Routes.RouteTable.RemoveUrl` | rko-util/src/http/uring.rs:401-418 | removes the route and keeps the rest in order; ENOENT exactly when it is missing |
| `Routes.RouteTable.Lookup` | rko-util/src/http/uring.rs:533-545 | a matching route as long as any that match, and nothing exactly when none match |
| `Routes.MatchesMeans` | rko-util/src/http/uring.rs:533-545 | a route matches its prefix followed by anything; any route but the catch-all matches nothing else, and the catch-all matches everything |
| `Routes.InsertKeeps` | rko-util/src/http/uring.rs:371-396 | inserting behind the longer routes keeps the table sorted and distinct and adds exactly one route |
| `Routes.RemoveKeeps` | rko-util/src/http/uring.rs:408-418 | removing keeps it sorted and distinct and takes exactly one route, and its URL is gone |
| `Routes.LongestIsUnique` | rko-util/src/http/uring.rs:533-545 | only the catch-all can be as long as the route chosen |
| `Routes.ChosenIffNotShadowed` | rko-util/src/http/uring.rs:533-545 | a route is chosen for some path if and only if the catch-all does not stand in front of it |
| `Routes.LengthDecides` | rko-util/src/http/uring.rs:384-396 | the catch-all stands behind every longer route and in front of every shorter one |
| `Routes.AddedBehindItsLength` | rko-util/src/http/uring.rs:384-396 | of two routes of one length the one added first stays in front |
| `Serialize.SerializeRequest` | rko-util/src/http/uring.rs:657-724 | the buffer is allocated once with exactly the size of the layout, and no ignored push fails, even if the allocator grants nothing more |
| `Serialize.PushAll` | rko-core/src/alloc/kvec.rs:70-80 | pushes within the capacity all succeed without reallocation |
| `Serialize.HeadersSize` | rko-util/src/http/uring.rs:662-668 | the precomputed size is that of the header entries written |
| `Serialize.RoundTripIff` | rko-util/src/http/uring.rs:657-724 | the serialised form gives back the request if and only if its counts and lengths fit their fields |
| `Serialize.LayoutMeans` | rko-util/src/http/uring.rs:675-724 | the bytes that userspace reads, by position: id, method 0 to 6, version 10 or 11, counts and lengths, path, header entries, body |
| `Serialize.EntriesMean` | rko-util/src/http/uring.rs:697-716 | the header entries in order, each its two lengths, its name and its value |
| `Serialize.ReceivedIff` | rko-util/src/http/uring.rs:438-454 | what RECV_REQUEST hands over gives back the request if and only if it fits its fields and the user's buffer |
| `Serialize.EntriesBack` | rko-util/src/http/uring.rs:697-716 | header entries that fit are read back, whatever follows them |
| `Serialize.HdrBack` | rko-util/src/http/uring.rs:675-690 | the 24-byte header is read back when its integers fit |
| `Serialize.ReadFits` | rko-util/src/http/uring.rs:86-103 | whatever is read from any bytes fits the fields |
| `UringHandler.StepKeepsInv` | rko-util/src/http/uring.rs:300-336 | every step of tasks and commands keeps the id, sender and queue invariants |
| `UringHandler.SendersAfter` | rko-util/src/http/uring.rs:466-528 | a sender is stored once and from then on either pending or resolved |
| `UringHandler.RunKeepsInv` | rko-util/src/http/uring.rs:423-580 | every run keeps the invariants until the id counter wraps |
| `UringHandler.SendersAreUsedOnce` | rko-util/src/http/uring.rs:466-580 | in every run the next id is unused, no sender is resolved twice, and an id delivered but not answered is found in pending |
| `UringHandler.BacklogIsFifo` | rko-util/src/http/uring.rs:423-465 | in every run a queue hands out what was put in, in order and at most once, and its backlog stays within the limit |
| `UringHandler.RoutedQueueAndLimit` | rko-util/src/http/uring.rs:299-580 | in every run a request is put into the queue its route named and into no other, and a queue has the limit it was created with, 256 if none was given |
| `UringHandler.GoneStaysGone` | rko-util/src/http/uring.rs:548-580 | a request that is in no backlog is never delivered later |
| `UringHandler.DeliverableIff` | rko-util/src/http/uring.rs:423-465 | at any point after it was offered to its queue, a request has been or can be delivered if and only if it is delivered or in a backlog |
| `UringHandler.DeliverableIffAccepted` | rko-util/src/http/uring.rs:553-580 | when it is offered: if and only if the queue exists, is not full and can grow |
| `UringHandler.AcceptedRequestIsLost` | rko-util/src/http/uring.rs:324-336 | runs in which an accepted request is lost because its queue is destroyed or it cannot be copied out |

## Left out

- Memory orderings weaker than sequential consistency, pinning, aliasing and layout rules of Rust.
- `ArcInner` and `Links` layout (`container_of`, adapters): pointers are object references.
- Bindings, C helpers, build scripts, macros, module registration and the file system trampolines: no logic that can be seen.
- Completions, mutexes, spin locks, RCU, the allocators: their kernel contracts are assumed.
- Socket calls: an operation would block, fails or has a result.
- `block_on`, timers and the accept loop: single calls around what is modelled.
- ext2 mounting, inode location, `lookup` and `read_dir`: the scan runs to the end of the page rather than the block, so agreement with the directory holds only in special cases.
- tarfs mounting, `iget` and `lookup`: the entry's name length is not compared there, so it need not agree with `read_dir`.
- `BoundedMapper`: single-branch clipping around `Mapper`.
- The header parser, method, status and version tables, builders, `parse_response`: external, single-branch, or the same loop as `parse_request`.
- Allocation failures inside `parse_request`, which end the connection with an internal error.
- Vectors of zero-sized elements, and freeing a vector's storage.
- KVec.Life: the clones made by `from_slice`, `extend_from_slice` and `resize` are not among its operations, because cloning creates elements.
- KVec.Vec.Remove: an index out of bounds, which panics, is a precondition.
- KVec.Vec.SwapRemove: an index out of bounds, which panics, is a precondition.
- The value of a sent message that is never received, which the oneshot leaks.
- UringHandler.RunKeepsInv: queue ids are unbounded; their 32-bit counter is not modelled.
- SERVER_START and SERVER_STOP, response bodies, and the spin lock around each section of the io_uring handler.
