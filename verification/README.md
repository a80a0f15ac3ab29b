# Proofs about the kernels and the key-value store

This project models the parts of the repository whose correctness depends on the most state, and
proves what they are for. Two xv6 kernels (`p4`, `p5`) and a shared-memory key-value store (`p6`)
are covered; files that the kernels share are cited from `p5`.

`dafny verify dfyconfig.toml` checks everything.

## What is modelled

Code that one process runs under a lock becomes a class whose methods change the fields that the C
code changes, with the C code's loops. What the fields mean is kept in ghost fields and tied to them
by `Valid()`. Code whose point is that many threads or a crash interleave becomes a state machine
whose steps are single memory accesses, semaphore operations, or disk writes, and the theorems
quantify over every schedule of every number of threads.

**Key-value store (`p6`).** `Linearizability.dfy` defines once what a linearizable object is:
invisible effects can be put between each call and its return so that, one after the other, they
give exactly the results seen. The definition itself is backed by two lemmas: the effects of a run
are a legal sequential execution (`EffectsReplay`), and a returned result was given by an effect
between that thread's call and its return (`ReturnFollowsEffect`). `KvStore.dfy` has `put` and the
lock-free `get` access by access, `Ring.dfy` the ring with its semaphores and mutexes; both are
shown to be linearizable by exhibiting the effects. `Window.dfy` has the protocol of clients, servers,
and the board of result slots over an atomic queue and an atomic store. `KvSystem.dfy` is the whole
service, with the steps of the ring and of the table in their place and the board by byte offsets, and
`KvEndToEnd.dfy` shows that every run of it is a run of the protocol, and so what its clients see.
`RingProgress.dfy`, `KvProgress.dfy` and `ServiceProgress.dfy` say who may have to wait and why, and
that the service can always be brought to its end.

**Log, buffer cache, files (`p5`).** `LogDisk.dfy` says which disk writes a commit and a recovery
make, and proves crash atomicity for every prefix of them and every sequence of interrupted
recoveries. `LogProtocol.dfy` is group commit by any number of operations, with a crash possible at
any step. `BufferCache.dfy` is the cache with its linked list and pinning, and `Log.dfy` the
methods of `log.c` on top of it; the two are tied to the disk writes and to the protocol by
`LogCode.CodePlans`, `LogCode.CodeLogs` and `LogCode.CommitSurvives`. `FsDisk.dfy`, `FsState.dfy`
and `Fs.dfy` are the bitmap, the inodes and the file contents: a file is a flat array of bytes,
every block in use has exactly one owner, every block that a call changes is logged, and one chunk of
`filewrite` logs no more blocks than `begin_op` has reserved. `FsFiles.dfy` sees the same disk from
outside, as the contents of its files and operations on them, `FsSurvival.dfy` says what any run of
the log with any crashes leaves of the files, and `FsOperations.dfy` runs the operations of the file
layer through the log: what they promise one by one is all that is needed. `FsImage.dfy` has the
layout in bytes, and that `mkfs` and the kernel mean the same bits of the bitmap.

**Allocator (`p5/xv6-public/umalloc.c`).** `Heap.dfy` has memory as an array of header-sized units
and the free list as pointers in it.

**Shell parser (`p5/xv6-public/sh.c`).** `Shell.dfy` gives the grammar as functions of the text and a
printer, and proves the round trip; `ShellTyped.dfy` describes command lines as they are typed, with
the places of their tokens and their meaning, without the parser, and proves that the parser takes
exactly these lines and makes of them what they mean. `ShellParser.dfy` has the recursive methods
with their cursor, and `nulterminate` in the shared buffer.

**Pipes, mappings, page tables, scheduling.** `Pipe.dfy`, `MapList.dfy` (from `p4`), `Vm.dfy`,
`Sharing.dfy` and `Scheduler.dfy`.

### Where the code falls short of what one would expect

Each of these has an input that shows it and a lemma or contract that says, for all inputs, exactly
when the code does what it should.

- `log_write` refuses a block that the operation has reserved. `mkfs` makes the log area LOGSIZE
  blocks long, header included, and the test at the head of `log_write` comes before absorption
  (`LogAtomicity.GuardStricterThanReservation`). The kernel panics exactly when the log is full
  (`LogAtomicity.GuardRefuses`), and a new block within a reservation can meet that exactly if the
  log area is not larger than LOGSIZE (`LogAtomicity.ReservationSuffices`).
- `malloc` of more than 2^32 - 8 bytes gives a block that is too small (`HeapCode.BigEnough`), and a
  request between 2^31 - 15 and 2^32 - 8 bytes makes `sbrk` see a number that is not positive
  (`HeapCode.RightArgument`); both lemmas say for which requests the size is right.
- A write to a pipe that fails does not wake the readers. A reader is left asleep beside data exactly
  if one was asleep, the writer was killed, and it had more than 512 bytes still to write
  (`PipeCode.Pipe.Write`; `PipeCode.KilledWriter` is a run, `PipeCode.WokenByClose` its end).
- The overlap test of the mapping list is right for all pairs of a list exactly if no region reaches
  2^32 (`MapList.TestIsRight`); the last page shows it (`MapList.Unchecked`).
- `wremap` takes a region far below for an obstacle (`MapList.CrowdedWithoutReason`). Its test is right
  exactly if another region starts inside the grown one, or all others start above its end
  (`MapList.RefusalIsRight`).
- The search for a free place wraps if a region ends high up. It then gives a place above the limit, a
  place at address 0, or it never ends (`MapList.HighPlace`, `MapList.LowPlace`,
  `MapList.EndlessSearch`). `MapList.SearchIsRight` says exactly when it gives the lowest place or
  reports that there is none; it always does if there is a place, or if no region's page end plus the
  length wraps (`MapList.RightWhen`).
- `>>` never appends: for every command and file name it parses to the redirection of `>`
  (`ShellRoundTrip.AppendOverwrites`).
- A commit panics before its first write exactly if the logged blocks and the buffers that other
  processes use are as many as there are buffers (`LogCode.Log.Commit`). While others use r buffers
  that can happen exactly if the log area has room for NBUF - r blocks (`LogBuffers.CommitHasBuffers`):
  with the log that `mkfs` makes never if r is 0, but already with one reader
  (`LogBuffers.ReaderTooMany`).
- `mkfs` rounds the size of the root directory up to one block more than it may have. That leaves a
  hole, where reading allocates a block, exactly if the unrounded size is a multiple of BSIZE
  (`FsState.RootDirectory`).

## Model

| member | source | states |
|---|---|---|
| KvLinearizable.InvStep | p6/kv_store.c:100-138 | every access of every thread keeps keys unique in their chains, each key in the bucket it hashes to, locks held by at most one thread, and each thread at a node its walk can be at |
| KvLinearizable.ContentsAfter | p6/kv_store.c:106-116 | only storing a value and publishing a node change the map, and each does what `put` of that key and value means |
| KvLinearizable.StepRefines | p6/kv_store.c:100-138 | one access is the corresponding acts of an atomic map with default 0: `put` acts when it stores or publishes, `get` when it loads the value, or the head of a chain without its key |
| KvLinearizable.Simulation | p6/kv_store.c:45-138 | from the empty table, every schedule of every number of threads keeps the invariant and a run of the atomic map in step, with the same calls and returns |
| KvLinearizable.KvStoreLinearizable | p6/kv_store.c:100-138 | the history of every schedule, with writers locking their bucket and readers locking nothing, is linearizable to a map in which absent keys read as 0 |
| KvLinearizable.NeverUnlinked | p6/kv_store.c:111-117 | through any later schedule a published node keeps its key and link, and a key once found is found at the same node |
| KvProgress.LockedInside | p6/kv_store.c:103-118 | in every reachable state a bucket is locked by a thread if and only if that thread is inside the locked part of a put into this bucket |
| KvProgress.Nearer | p6/kv_store.c:100-138 | each access brings its thread nearer to its return: walks of a chain end, and only the lock of a put waits |
| KvProgress.ReturnsAlone | p6/kv_store.c:100-138 | in every reachable state a get comes to its return alone whatever the others are doing, and a put unless another one is inside the locked part of a put into the same bucket; each does to the map what it should |
| RingLinearizable.InitInv | p6/ring_buffer.c:8-17 | the initial semaphore values account for an empty ring |
| RingLinearizable.InvStep | p6/ring_buffer.c:19-37 | every step keeps the slots equal to what was submitted and not yet got, both ends in place, each mutex with its holder, and semaphores plus operations in flight summing to the ring |
| RingLinearizable.StepRefines | p6/ring_buffer.c:19-37 | one step is the corresponding acts of a bounded FIFO queue; the effects are the two advances of an end |
| RingLinearizable.Simulation | p6/ring_buffer.c:8-37 | every schedule keeps the invariant, and a run of the atomic queue explains its history |
| RingLinearizable.RingIsQueue | p6/ring_buffer.c:8-37 | for any number of producers and consumers and any schedule the history is linearizable to a bounded FIFO queue |
| RingLinearizable.FirstInFirstOut | p6/ring_buffer.c:23-34 | what was got is a prefix of what was submitted, in slot order |
| RingLinearizable.SlotsAccountedFor | p6/ring_buffer.c:11-36 | the two semaphore values and the operations between their wait and their post add up to RING_SIZE |
| RingLinearizable.NoRace | p6/ring_buffer.c:22-35 | a thread that stores and one that loads never use the same slot, two threads never store at once, and the slot stored into holds nothing unread |
| RingProgress.HoldersReachable | p6/ring_buffer.c:21-35 | in every run the mutexes are held by threads that exist; which those are, `RingLinearizable.InvStep` says |
| RingProgress.OneStep | p6/ring_buffer.c:19-37 | in a state in order, a thread that finds its semaphore positive or its mutex free, or waits for neither, goes on, comes one step nearer to its return, and does not meet another wait |
| RingProgress.SomebodyCan | p6/ring_buffer.c:19-37 | while a thread is past its first semaphore, some such thread can go on |
| RingProgress.AllRest | p6/ring_buffer.c:11-36 | while all threads are outside or before their first semaphore, the semaphores count the queue and its room, and the mutexes are free |
| RingProgress.ReturnsAlone | p6/ring_buffer.c:19-37 | in every reachable state in which no other thread is inside an operation, ring_get with something in the queue, and ring_submit with room in it, comes to its return alone, having done to the queue what it should |
| Window.SlotsDisjoint | p6/client.c:270-270 | result slots of all clients are disjoint byte ranges after the ring and inside the shared file |
| WindowProtocol.SlotIsRemainder | p6/client.c:270-301 | the slot used for request i is i modulo the window size |
| WindowProtocol.InitInv | p6/client.c:313-328 | the invariant of the whole system holds at the start |
| WindowProtocol.ClientInv | p6/client.c:257-328 | every step of a client thread keeps the invariant of the whole system: windows, queue, board, results, log |
| WindowProtocol.ServerInv | p6/kv_store.c:140-159 | every step of a server thread keeps it |
| WindowProtocol.Reachable | p6/client.c:257-328 | it holds in every state of every schedule with any number of clients and servers |
| WindowProtocol.AtMostOnePerSlot | p6/client.c:261-273 | completed <= submitted <= completed + window; no two requests in flight share a result slot, queued, served or answered on the board; each message that is queued or served carries a request in flight and no other message does; each slot that is ready holds the answer to a request in flight whose slot it is |
| WindowProtocol.AnswersDelivered | p6/client.c:285-307 | every completed request holds the answer that the store gave to exactly that request, and the store's answers are those of running the requests one after the other |
| WindowProtocol.RunOnce | p6/kv_store.c:140-159 | in every state of every schedule the store has run each request at most once, and none that was not submitted |
| WindowProtocol.RealTimeOrder | p6/client.c:257-308 | a request that was completed before another one was submitted comes before it in the order in which the store ran them, so with AnswersDelivered that order is a linearization of what the clients see |
| WindowProtocol.SynchronousReplay | p6/README.md:37-37 | with one client thread and window 1 every answer is that of replaying the client's requests in order on a map |
| KvEndToEnd.RingActs | p6/ring_buffer.c:19-37 | in any state in order, a step inside ring_submit or ring_get is no act of an atomic queue, the effect of that thread, or its return with the result it shows |
| KvEndToEnd.TableActs | p6/kv_store.c:100-138 | the same for a step inside put or get and an atomic map |
| KvEndToEnd.ClientSim | p6/client.c:257-308 | every step of a client of the whole service, inside ring_submit or on the board by byte offsets, is one step of the window protocol or none |
| KvEndToEnd.ServerSim | p6/kv_store.c:140-159 | the same for every step of a server, inside ring_get, put, get, or on the board |
| KvEndToEnd.Simulates | p6/kv_store.c:140-159 | every run of the service is a run of the protocol, moment by moment: after each number of choices it is related to the protocol after some number, and the ring, the table and the protocol are in order |
| KvEndToEnd.ServiceLinearizable | p6/client.c:257-328 | for any numbers of clients, servers and buckets, any requests, window and schedule of single accesses there is one order of requests, each at most once and only such as clients have called for, in which a sequential store gives exactly the answers that the clients have at every moment of the run, and in which whatever is completed at a moment comes before whatever is not called yet |
| ServiceProgress.SomebodyUseful | p6/kv_store.c:140-159 | in every state in order with a server, while a client has not finished, some thread has a step that brings the whole service nearer to its end |
| ServiceProgress.AllCanComplete | p6/client.c:257-328 | from every state that any schedule leads to, with at least one server, some continuation completes all requests of all clients and brings every client to its end, with the answers of one sequential execution; no fairness is needed |
| KvEndToEnd.SynchronousService | p6/README.md:37-37 | with one client thread and window 1 the whole service gives the answers of replaying the requests in order on a map |
| LogDisk.HeaderReadBack | p5/xv6-public/log.c:84-113 | a header block written with some block numbers reads back as exactly these numbers |
| LogDisk.AfterHomeWrites | p5/xv6-public/log.c:68-82 | after the first k installs exactly the first k logged blocks have their new contents at home |
| LogDisk.AfterLogWrites | p5/xv6-public/log.c:176-190 | after k log writes exactly the first k log blocks hold the new contents and nothing else has changed |
| LogDisk.Recovered | p5/xv6-public/log.c:115-122 | a recovery that runs to its end leaves an empty log and every home block with what the disk meant |
| LogDisk.Crashed | p5/xv6-public/log.c:115-122 | recoveries cut off at any write, any number of them, leave the meaning of every home block as it was |
| LogDisk.RecoveryPrefix | p5/xv6-public/log.c:115-122 | any prefix of a recovery changes no home block's meaning, and all of it installs every block and empties the log |
| LogDisk.CommittedMeans | p5/xv6-public/log.c:98-113 | once the header is written the disk means the transaction's contents |
| LogDisk.CommitEndsAsRecovery | p5/xv6-public/log.c:192-202 | what a commit writes after its header is exactly what a recovery at that point would write |
| LogDisk.CommitPrefix | p5/xv6-public/log.c:176-202 | a prefix of a commit means the old contents up to the header write and the new contents after it |
| LogDisk.CrashAtomicity | p5/xv6-public/log.c:68-202 | after any prefix of a commit and any interrupted recoveries, one completed recovery leaves all home blocks old or all new, decided by the header write, and the log empty |
| LogAtomicity.ReservedBegin | p5/xv6-public/log.c:125-141 | the test of begin_op keeps blocks logged plus unspent reservations within LOGSIZE |
| LogAtomicity.ReservedLog | p5/xv6-public/log.c:213-233 | logging a block, absorbed or new, keeps that bound |
| LogAtomicity.ReservedEnd | p5/xv6-public/log.c:145-174 | ending an operation keeps it, and a commit starts only when no operation is left |
| LogAtomicity.UnsplitStep | p5/xv6-public/log.c:125-202 | no step splits the writes of an operation between committed, waiting and lost ones |
| LogAtomicity.DataStep | p5/xv6-public/log.c:115-233 | every step keeps disk, cache and log in the relation that makes recovery give the committed writes |
| LogAtomicity.Reachable | p5/xv6-public/log.c:115-233 | all of this holds in every state of every schedule, crashes included |
| LogAtomicity.OperationsAtomic | p5/xv6-public/log.c:125-202 | at any moment, after any interrupted recoveries, the disk recovers to exactly the committed writes, and each operation is in them with all its writes or none |
| LogAtomicity.ReadsSeeAllWrites | p5/xv6-public/log.c:204-233 | operations read every write logged so far, committed or not, through the pinned buffers |
| LogAtomicity.NothingLeaksEarly | p5/xv6-public/log.c:192-202 | no home block on disk changes before the header of the commit is written |
| LogAtomicity.LogNeverOverflows | p5/xv6-public/log.c:125-174 | blocks logged plus unspent reservations stay within LOGSIZE, the log fits its area, and nobody is in an operation during a commit |
| LogAtomicity.CommittedStays | p5/xv6-public/log.c:192-202 | what is committed stays committed, in the same order, through any later schedule |
| LogAtomicity.LoggedStays | p5/xv6-public/log.c:204-233 | as long as the power does not fail, nothing that was logged is lost |
| LogAtomicity.Durability | p5/xv6-public/log.c:192-202 | when a commit has made its last write, everything that was logged at any earlier moment since the last crash is committed |
| LogAtomicity.GuardRefuses | p5/xv6-public/log.c:218-219 | for an operation within its reservation the panic happens exactly when the log is full, and with a larger log area only for a block that is there already |
| LogAtomicity.GuardStricterThanReservation | p5/xv6-public/mkfs.c:25-25 | with the log that mkfs makes, a schedule of three operations within their budgets reaches a state where a new home block within budget makes the kernel panic |
| LogAtomicity.ReservationSuffices | p5/xv6-public/log.c:129-141 | some schedule has a new block within its reservation refused, exactly if the log area, header included, is not larger than LOGSIZE |
| LogAtomicity.LogFills | p5/xv6-public/param.h:11-11 | some schedule logs n blocks, exactly if the log area has room for so many |
| LogCode.Log.constructor | p5/xv6-public/log.c:53-64 | the log starts empty on a given layout |
| LogCode.Log.WriteLog | p5/xv6-public/log.c:176-190 | write_log makes exactly the writes LogWrites of what the cache holds; it panics just when the pinned blocks and the buffers of others are as many as there are buffers, at its first block |
| LogCode.Log.InstallTrans | p5/xv6-public/log.c:68-82 | install_trans makes exactly the writes HomeWrites of what the log holds, unpins those blocks, and never wants for a buffer if write_log did not |
| LogCode.Log.WriteHead | p5/xv6-public/log.c:98-113 | write_head makes one write, the header with the numbers of the transaction |
| LogCode.Log.FillHeader | p5/xv6-public/log.c:105-110 | its loop gives PutHeader, the block that reads back as these numbers |
| LogCode.Log.ReadHead | p5/xv6-public/log.c:84-96 | read_head brings the numbers in the header block into memory and writes nothing |
| LogCode.Log.RecoverFromLog | p5/xv6-public/log.c:115-122 | recover_from_log never panics, makes exactly RecoveryWrites, and leaves an empty log and a clean cache |
| LogCode.Log.Commit | p5/xv6-public/log.c:192-202 | commit makes exactly CommitWrites of what the cache holds; afterwards nothing is pinned, every block outside the log reads as before, and those that nobody else uses are as on the disk; it panics just when the logged blocks and the buffers of others are as many as there are buffers, and then has written nothing |
| LogCode.Log.TryBegin | p5/xv6-public/log.c:129-139 | an operation begins just when no commit runs and its reservation fits |
| LogCode.Log.EndOp | p5/xv6-public/log.c:145-174 | the last operation commits for all; another one touches nothing; it panics just when a commit is in progress, or for want of a buffer as commit does |
| LogCode.Log.LogWrite | p5/xv6-public/log.c:213-233 | the block joins the transaction by absorption and its buffer is pinned; it panics exactly on a full log or outside of an operation |
| LogCode.Log.Absorbs | p5/xv6-public/log.c:224-227 | the loop finds the block's place in the transaction, or the end just when it has none |
| LogCode.CommitIsSilent | p5/xv6-public/log.c:192-202 | all writes of a commit together change no block as the file system reads it |
| LogCode.CodePlans | p5/xv6-public/log.c:176-202 | the writes of the code's commit are those that the protocol plans, and pinned blocks read as the protocol shows them |
| LogCode.CodeLogs | p5/xv6-public/log.c:213-233 | log_write in the code is the protocol's step |
| LogCode.CommitSurvives | p5/xv6-public/log.c:192-202 | when power fails during the code's commit and during any recoveries after it, the home blocks come back as on the disk before or as the file system saw them in the cache |
| LogBuffers.CommitHasBuffers | p5/xv6-public/param.h:11-12 | while others use r buffers, no schedule makes a commit want for one, exactly if the log area has room for fewer than NBUF - r blocks |
| LogBuffers.ReaderTooMany | p5/xv6-public/bio.c:78-92 | with the log that mkfs makes three operations log 29 blocks, fewer than LOGSIZE, and with one buffer used by a reader these are all buffers |
| BufferCache.UnlinkKeepsList | p5/xv6-public/bio.c:132-133 | the two assignments take one buffer out of the circular list and keep both directions of all other links |
| BufferCache.LinkFrontKeepsList | p5/xv6-public/bio.c:134-137 | the four assignments put a buffer right after the head |
| BufferCache.MovedToFront | p5/xv6-public/bio.c:130-138 | a released buffer becomes the most recently used one of the same ring, and no buffer's contents change |
| BufferCache.WriteThrough | p5/xv6-public/memide.c:38-60 | writing a held buffer to its block changes nothing that bread gives and keeps the cache in order |
| BufferCache.GotBuffer | p5/xv6-public/bio.c:60-93 | bget keeps one buffer per block, every clean buffer equal to its block, and what bread gives |
| BufferCache.FirstBuffer | p5/xv6-public/bio.c:78-92 | a process that uses no buffer panics in bget of a block that is neither pinned nor used by others exactly when the pinned blocks and the buffers of others are as many as there are buffers |
| BufferCache.SecondBuffer | p5/xv6-public/bio.c:78-92 | with one buffer in use it panics only for a block that is not pinned and with all other buffers dirty or used by others |
| BufferCache.Cache.constructor | p5/xv6-public/bio.c:38-56 | binit puts all buffers on one ring, the last one first, all empty on device 0 |
| BufferCache.Cache.BGet | p5/xv6-public/bio.c:60-93 | the buffer that holds the block, or the least recently used one that is neither held nor dirty; the panic happens just when there is neither |
| BufferCache.Cache.BRead | p5/xv6-public/bio.c:95-106 | a locked buffer with the block's contents as the file system sees them; no other buffer changes |
| BufferCache.Cache.IdeRead | p5/xv6-public/memide.c:57-59 | an invalid buffer gets the disk's contents, and these are what bread should give |
| BufferCache.Cache.Modify | p5/xv6-public/log.c:77-77 | writing into a held buffer changes what bread gives for that block and for no other |
| BufferCache.Cache.Pin | p5/xv6-public/log.c:231-231 | B_DIRTY pins the block |
| BufferCache.Cache.BWrite | p5/xv6-public/bio.c:108-116 | one block write of the buffer's contents, which unpins the block and changes nothing that bread gives |
| BufferCache.Cache.Relink | p5/xv6-public/bio.c:130-138 | the ring has the same buffers with this one first |
| BufferCache.Cache.BRelse | p5/xv6-public/bio.c:118-141 | the buffer is unlocked and, if nobody else refers to it, becomes the most recently used one |
| HeapList.FreedOk | p5/xv6-public/umalloc.c:24-44 | freeing leaves the list circular, in address order with one wrap, without neighbours that touch, disjoint from all blocks in use, and every other block as it was |
| HeapList.InsertOk | p5/xv6-public/umalloc.c:36-42 | a block put in its place can touch only the free blocks on either side |
| HeapList.JoinOk | p5/xv6-public/umalloc.c:33-42 | joining two touching blocks loses no unit and leaves no new neighbours that touch |
| HeapList.TakeOk | p5/xv6-public/umalloc.c:76-77 | a whole free block becomes a block in use and the list stays in order |
| HeapList.CarveOk | p5/xv6-public/umalloc.c:78-82 | the tail of a free block becomes a block in use and the list stays in order |
| HeapList.GrownOk | p5/xv6-public/umalloc.c:46-61 | a region above everything, taken as a block in use, keeps the heap in order |
| HeapCode.BigEnough | p5/xv6-public/umalloc.c:69-69 | the block is big enough for the request exactly if the request is at most 2^32 - 8 bytes, and beyond that it is one header; it is never larger than its header and the request rounded up |
| HeapCode.RightArgument | p5/xv6-public/umalloc.c:54-54 | sbrk is asked for the right, positive number of bytes exactly if the request is at most 2^31 - 16 bytes, or so large that its size wraps |
| HeapCode.FreeSteps | p5/xv6-public/umalloc.c:33-42 | the two ifs of free write exactly what inserting and joining on both sides give |
| HeapCode.Heap.constructor | p5/xv6-public/umalloc.c:21-22 | nothing is free, in use, or got from sbrk |
| HeapCode.Heap.FindPlace | p5/xv6-public/umalloc.c:30-32 | the walk of free ends, at the free block after which the address belongs, wherever freep was |
| HeapCode.Heap.Free | p5/xv6-public/umalloc.c:24-44 | exactly that block is no longer in use, all others keep header and data, and the list is as `HeapList.FreedOk` says |
| HeapCode.Heap.Sbrk | p5/xv6-public/sysproc.c:119-131 | a region of just that size above all earlier ones, which keep their contents, exactly if there is memory and it stays below the limit; else nothing |
| HeapCode.Heap.Region | p5/xv6-public/umalloc.c:53-60 | the region from sbrk, with its header, is a block in use; without one nothing changes |
| HeapCode.Heap.MoreCore | p5/xv6-public/umalloc.c:46-61 | one region of at least 4096 units joins the free list and then some free block is big enough; it gives nothing exactly if sbrk gives nothing or was asked for a size that is not positive, and then nothing changes |
| HeapCode.Heap.SetUp | p5/xv6-public/umalloc.c:70-73 | the first call makes an empty list and gives nothing out |
| HeapCode.Heap.Grant | p5/xv6-public/umalloc.c:75-85 | exactly the asked units from the block found, none of them in use before, and freep at the block before it |
| HeapCode.Heap.Malloc | p5/xv6-public/umalloc.c:63-90 | a fresh block of the computed size from the first fit after freep, or, if there is no fit, after exactly one call of sbrk; it fails exactly if there is no fit and no memory; all blocks in use keep their contents |
| HeapCode.Heap.Store | p5/xv6-public/umalloc.c:84-84 | writing inside a block in use cannot harm the heap |
| HeapCode.UnitsConserved | p5/xv6-public/umalloc.c:24-90 | in every valid heap free units plus units in use are the units got from sbrk |
| FsDisk.BlockBitAfterPut | p5/xv6-public/fs.c:66-68 | setting or clearing a bit of a bitmap block changes that bit only |
| FsImage.BitIs | p5/xv6-public/fs.c:65-66 | the bit that `1 << k` selects is set exactly if the byte divided by 2^k is odd |
| FsImage.UsedBytes | p5/xv6-public/fs.c:64-66 | which bit of which byte of which block says whether a block is in use |
| FsImage.FirstBitsAre | p5/xv6-public/mkfs.c:245-251 | a bitmap block of n / 8 bytes 255, then 2^(n % 8) - 1, then zeroes marks exactly the blocks below n |
| FsImage.MkfsMap | p5/xv6-public/mkfs.c:238-252 | the loop of mkfs over `1 << (i % 8)` makes such a block |
| FsImage.FirstBalloc | p5/xv6-public/fs.c:55-78 | with it on the disk balloc of the kernel gives the first block that mkfs has not used |
| FsImage.WordBytes | p5/xv6-public/log.c:91-94 | a number on disk is four bytes, the least significant first |
| FsImage.HeaderBytes | p5/xv6-public/log.c:84-96 | the header of the log is its count at byte 0 and block number i at byte 4 + 4 i |
| FsImage.InodeBytes | p5/xv6-public/fs.h:29-41 | inode i is at byte i % 8 * 64 of block inodestart + i / 8: type, major, minor and link count as two bytes each, size at byte 8, the addresses from byte 12 on |
| FsImage.FileBytes | p5/xv6-public/fs.c:372-400 | byte n of a file is byte n % 512 of the block in address n / 512, or in entry n / 512 - 12 of the indirect block |
| FsDisk.UsedAfterMark | p5/xv6-public/fs.c:80-95 | marking a block changes whether that block is in use and no other |
| FsDisk.MarkOk | p5/xv6-public/fs.c:55-95 | marking keeps the bitmap equal to the metadata blocks plus the owned ones |
| FsDisk.InodeAfterPut | p5/xv6-public/fs.c:216-235 | an inode written into its block reads back, and its neighbours stay |
| FsDisk.DiskAfterStore | p5/xv6-public/fs.c:216-235 | iupdate changes that inode on the disk and no other |
| FsDisk.TableStored | p5/xv6-public/fs.c:216-235 | after iupdate all inodes on the disk are the current ones |
| FsDisk.OneSlot | p5/xv6-public/fs.c:364-368 | a block is in at most one slot of one inode, direct, indirect or through the indirect block |
| FsDisk.LinkDirect | p5/xv6-public/fs.c:378-388 | a new block in an empty direct slot, or as indirect block, keeps that |
| FsDisk.LinkEntry | p5/xv6-public/fs.c:391-394 | a new block in an empty entry of the indirect block keeps that |
| FsDisk.Unlinked | p5/xv6-public/fs.c:408-435 | giving up all slots of one inode keeps it for the others |
| FsDisk.OtherFile | p5/xv6-public/fs.c:364-368 | changes in blocks of one inode change no other file's contents |
| FsState.Allocated | p5/xv6-public/fs.c:55-78 | a free block marked and zeroed was owned by nobody and changes no slot, inode or owned block |
| FsState.AddDirect | p5/xv6-public/fs.c:378-388 | a block from balloc in a direct slot keeps every invariant of the file system and every byte of every file |
| FsState.AddEntry | p5/xv6-public/fs.c:389-394 | the same for an entry of the indirect block |
| FsState.DataWritten | p5/xv6-public/fs.c:499-502 | data in a block of a file changes these bytes of that file and no others |
| FsState.WriteTurn | p5/xv6-public/fs.c:498-504 | one turn of the loop of writei writes the next bytes of the source in their place |
| FsState.AllWritten | p5/xv6-public/fs.c:498-509 | after the loop the file is the old one with the source spliced in at the offset, as long as the larger of the two ends |
| FsState.FinishSame | p5/xv6-public/fs.c:506-510 | when the size stays, the disk inode is up to date without iupdate |
| FsState.FinishGrown | p5/xv6-public/fs.c:506-509 | when it grows, iupdate makes the disk inode up to date |
| FsState.Truncated | p5/xv6-public/fs.c:408-435 | freeing all blocks of an inode and writing it back keeps every invariant and all other files |
| FsState.InSlotIs | p5/xv6-public/fs.c:414-427 | each slot of an inode holds exactly the block it owns |
| FsState.NewFileSystem | p5/xv6-public/mkfs.c:94-111 | zeroed inodes and a bitmap with just the metadata marked satisfy every invariant of the file system |
| FsState.RootDirectory | p5/xv6-public/mkfs.c:158-163 | the root directory as mkfs leaves it has a hole exactly if its bytes filled their blocks |
| FsState.SpliceThen | p5/xv6-public/file.c:133-152 | writing two chunks one after the other is writing both at once |
| FsState.LogTotal | p5/xv6-public/fs.c:482-511 | a write logs at most its data blocks, one indirect block, one bitmap block for each block that may be new, and the inode's block |
| FsState.ChunkFits | p5/xv6-public/file.c:133-138 | for a chunk of at most three blocks, at any offset, that is at most 10 blocks |
| FsCode.FileSystem.Balloc | p5/xv6-public/fs.c:55-78 | the lowest free block, marked and zeroed; the panic happens just when all are in use |
| FsCode.FileSystem.Bfree | p5/xv6-public/fs.c:80-95 | the block is marked free; the panic happens just when it was |
| FsCode.FileSystem.Iupdate | p5/xv6-public/fs.c:220-235 | the inode in memory goes to its place on the disk |
| FsCode.FileSystem.Bmap | p5/xv6-public/fs.c:372-400 | the block that holds block bn of the file, got only if it was missing; no byte of any file changes, every block it changed is logged, and it names the blocks it logs; the panic happens only beyond MAXFILE or with a full disk |
| FsCode.FileSystem.Readi | p5/xv6-public/fs.c:452-476 | exactly the file's bytes from off, cut at its end, or the error of an offset beyond the end or a sum that wraps; nothing is allocated |
| FsCode.FileSystem.Writei | p5/xv6-public/fs.c:481-511 | the contents become the old ones with exactly [off, off+n) replaced, the size max(size, off+n), all other files and owners unchanged, the disk inode current, every block that changed logged, and the blocks logged within the budget; errors exactly for a hole, a sum that wraps, or a file too long |
| FsCode.FileSystem.Finish | p5/xv6-public/fs.c:506-510 | with all bytes in place, the file is the spliced one, the disk inode is current, and at most the inode's block is logged |
| FsCode.FileSystem.Itrunc | p5/xv6-public/fs.c:407-435 | the owners are exactly those of the other inodes, bfree never meets a free block, every block that changed is logged, at most the bitmap and the inode's block are, all other files keep their contents, and the files on the disk become those with this one empty; where the bitmap is small enough for the reservation that is what FsOperations takes of an operation |
| FsCode.WriteOperation | p5/xv6-public/file.c:140-151 | one operation of filewrite writes its chunk, logs every block it changes, and logs at most MAXOPBLOCKS distinct blocks, for any offset and any state of the bitmap; the files on the disk become those with the chunk spliced in; that is what FsOperations takes of an operation |
| FsCode.FileWrite | p5/xv6-public/file.c:117-156 | the chunks together are one splice; the offset moves by what was written, and it fails only where the next chunk does not fit |
| FsFiles.FilesAre | p5/xv6-public/fs.c:452-476 | the files of a disk are what its inodes say, whatever owners and table are imagined for it |
| FsFiles.SameFiles | p5/xv6-public/mkfs.c:94-106 | disks that differ in boot, super and log blocks only hold the same files |
| FsFiles.LoggedWrites | p5/xv6-public/log.c:204-233 | what an operation changes can be written in no more block writes than it has logged blocks |
| FsFiles.DoesThen | p5/xv6-public/file.c:133-152 | operations one after the other change the files as their jobs one after the other |
| FsFiles.ItsJobs | p5/xv6-public/file.c:140-144 | what becomes of a file depends only on the operations on that file |
| FsFiles.ChunksWrite | p5/xv6-public/file.c:133-152 | the first n operations of filewrite, and nothing else, write the first n chunks of its bytes |
| FsSurvival.FilesStep | p5/xv6-public/log.c:125-202 | every step of the log keeps the committed writes equal to the files that whole transactions leave; a transaction in commit is kept or lost as a whole |
| FsSurvival.FilesReachable | p5/xv6-public/log.c:125-202 | so in every state of every run, with crashes at any step: one sequence tells for every moment which jobs are committed, it only grows, and they are those committed at the last crash with the first transactions since; the files on the log are those that they leave |
| FsSurvival.FilesSurvive | p5/xv6-public/log.c:115-202 | for any run, with crashes anywhere, one sequence tells for every moment which jobs a crash there keeps: however recoveries are cut off, the disk comes back as a file system in order whose files are those that these jobs leave; they are those kept at the last crash with the first transactions since, each as a whole, and all of them if no commit is in progress; what is once kept stays |
| FsSurvival.WriteSurvives | p5/xv6-public/file.c:117-156 | a filewrite that a crash cuts off has written a prefix of its chunks to the files as the disk of the crash before recovers them, and all that it finished if no commit is in progress, whatever is done to other files |
| FsOperations.OneCall | p5/xv6-public/log.c:204-233 | an operation as the file layer promises it, begun in any transaction with room, can log all its changes, within its reservation, and the files that the log shows become those it leaves |
| FsOperations.OperationsAreTransaction | p5/xv6-public/log.c:125-174 | operations that overlap and log their changes one after the other end as a transaction that does their jobs in that order |
| FsOperations.ReadsMakeTransaction | p5/xv6-public/log.c:145-174 | however their log writes are mixed: if the blocks read at the end are those that the jobs make of the committed ones, the transaction does these jobs |
| FsOperations.WritesEnd | p5/xv6-public/log.c:115-202 | a commit or a recovery always runs to its end, without a change in what the log shows |
| FsOperations.TransactionsRun | p5/xv6-public/log.c:125-202 | from any idle state of any run, also after crashes, any transactions that the file layer makes can be run one after the other |
| FsOperations.TransactionsSurvive | p5/xv6-public/log.c:115-202 | they can be run so that whenever the power fails, and however recoveries are cut off, the files come back as the first k of these transactions leave them, with one k for each moment that does not go down and is all of them in the end; then the blocks read as the file layer left them |
| ShellGrammar.ParseText | p5/xv6-public/sh.c:327-342 | whatever the text, every name in the command that the grammar gives is a token of the text, and no command has ten arguments |
| ShellRoundTrip.BlockBack | p5/xv6-public/sh.c:399-413 | a printed block, in any text, is parsed as its command with the redirections that follow |
| ShellRoundTrip.LineBack | p5/xv6-public/sh.c:344-359 | a printed command up to the end or to a closing parenthesis, anywhere in a text, is parsed as itself |
| ShellRoundTrip.RoundTrip | p5/xv6-public/sh.c:327-446 | parsing the printed form of any well-formed command, with at most nine arguments, gives the command back |
| ShellRoundTrip.ReadWellFormed | p5/xv6-public/sh.c:327-446 | what the parser gives for any text is well formed |
| ShellRoundTrip.ParsePrintParse | p5/xv6-public/sh.c:327-446 | so parsing, printing and parsing again gives the same command |
| ShellRoundTrip.AppendOverwrites | p5/xv6-public/sh.c:388-394 | every command followed by `>>` and a file name is parsed as that command with output to the file, opened as for `>` |
| ShellTyped.TypedLine | p5/xv6-public/sh.c:327-446 | every line as it is typed, with any white space between its tokens, parses to what it means: the arguments of a command in order with all redirections around it, the first innermost, wherever they stand; pipes and lists nest to the right; each & wraps its job once |
| ShellTyped.ParsedLine | p5/xv6-public/sh.c:327-446 | every text that parses is such a line, and the command is what it means |
| ShellTyped.ParsedJustLines | p5/xv6-public/sh.c:327-446 | so the parser panics exactly at the texts that are no line |
| ShellParser.Parser.GetToken | p5/xv6-public/sh.c:265-308 | gettoken gives the kind and place of the next token and moves the cursor past it and the white space after it |
| ShellParser.Parser.Peek | p5/xv6-public/sh.c:310-320 | peek moves over white space only and tells whether the next character is one of those asked for |
| ShellParser.Parser.ParseRedirections | p5/xv6-public/sh.c:374-397 | parseredirs agrees with the grammar in result, cursor and panic |
| ShellParser.Parser.ParseExecCmd | p5/xv6-public/sh.c:415-446 | the same for parseexec, and its recursion ends |
| ShellParser.Parser.ParseArguments | p5/xv6-public/sh.c:429-444 | the argv array holds the grammar's arguments and is never overrun |
| ShellParser.Parser.ParseBlockCmd | p5/xv6-public/sh.c:399-413 | the same for parseblock |
| ShellParser.Parser.ParsePipeCmd | p5/xv6-public/sh.c:361-372 | the same for parsepipe |
| ShellParser.Parser.ParseLineCmd | p5/xv6-public/sh.c:344-359 | the same for parseline |
| ShellParser.NulTerminate | p5/xv6-public/sh.c:448-493 | NULs go right after the names of the command and nowhere else |
| ShellParser.NamesTerminated | p5/xv6-public/sh.c:448-493 | after that every name, read as a C string in the shared buffer, is exactly its token |
| ShellParser.ParseCmd | p5/xv6-public/sh.c:327-342 | parsecmd gives what the grammar gives, panics just when it does, and leaves every name as a C string |
| PipeCode.Pipe.CountersTell | p5/xv6-public/pipe.c:85-114 | nread == nwrite just when the pipe is empty and nwrite == nread + 512 just when it is full, whatever has wrapped |
| PipeCode.Pipe.constructor | p5/xv6-public/pipe.c:33-36 | a new pipe is empty, with both ends open and nobody asleep |
| PipeCode.Pipe.Put | p5/xv6-public/pipe.c:93-93 | one byte more is in the pipe and nothing unread is overwritten |
| PipeCode.Pipe.Take | p5/xv6-public/pipe.c:116-116 | the oldest unread byte comes out |
| PipeCode.Pipe.Write | p5/xv6-public/pipe.c:77-98 | the bytes go in in order as far as there is room; it sleeps exactly if they do not fit while somebody may read and it is not killed, and fails exactly if they do not fit otherwise; if before the call nobody slept without a reason then nobody does after it, except exactly when readers slept, the writer is killed and more than 512 bytes remain |
| PipeCode.Pipe.Read | p5/xv6-public/pipe.c:100-121 | the bytes that come out are those written first, in any state of the sleepers; it sleeps exactly if the pipe is empty, its writer open and the reader not killed, fails exactly if it is killed there, and gives nothing only at the end of the data |
| PipeCode.Pipe.Close | p5/xv6-public/pipe.c:59-75 | everybody who is asleep is woken, and the pipe is given back just when both ends are closed |
| PipeCode.KilledWriter | p5/xv6-public/pipe.c:86-89 | a run in which a writer that was killed before it wrote leaves a reader asleep beside a full pipe |
| PipeCode.WokenByClose | p5/xv6-public/pipe.c:59-75 | in the continuation of that run closing the write end wakes the reader |
| MapList.ClashIsOverlap | p4/xv6-public/sysproc.c:133-133 | for regions that do not wrap the 32-bit test is true just when they have an address in common |
| MapList.TestIsRight | p4/xv6-public/sysproc.c:133-133 | for any list of non-empty regions the test is right about all pairs exactly if no region reaches 2^32 |
| MapList.Unchecked | p4/xv6-public/sysproc.c:152-153 | a page that ends at 2^32 does not clash with itself |
| MapList.Onward | p4/xv6-public/sysproc.c:133-137 | the jump behind a region that clashes goes strictly forward, up to 2^32, and skips no place that would do |
| MapList.ResizeOk | p4/xv6-public/sysproc.c:292-312 | growing in place when nobody else starts at or below the new end keeps the regions disjoint, exactly if the grown one does not wrap |
| MapList.RefusalIsRight | p4/xv6-public/sysproc.c:292-304 | the test that refuses to grow in place agrees with there being an obstacle exactly if another region starts inside the grown one or all others start above its end; it never misses an obstacle |
| MapList.CrowdedWithoutReason | p4/xv6-public/sysproc.c:296-296 | a region far below is taken for an obstacle where there is none |
| MapList.NoCommonAddress | p4/xv6-public/sysproc.c:151-160 | no address is in two regions of a list |
| MapList.SearchIsRight | p4/xv6-public/sysproc.c:127-149 | the search gives the lowest page-aligned place from 0x60000000, or reports none just when there is none, exactly if its sums do not wrap, or wrap to address 0 and come past the limit from there |
| MapList.RightWhen | p4/xv6-public/sysproc.c:127-149 | that is so whenever there is a place, and whenever no region ends where its page end plus the length wraps |
| MapList.HighPlace | p4/xv6-public/sysproc.c:136-137 | a list for which the search gives 0xF0000000 |
| MapList.LowPlace | p4/xv6-public/sysproc.c:136-137 | a list for which it gives 0 |
| MapList.EndlessSearch | p4/xv6-public/sysproc.c:127-149 | a list for which it goes round for ever |
| MapList.MovedOk | p4/xv6-public/sysproc.c:366-432 | a region out and a fitting one in keeps the list disjoint, exactly if the new one does not wrap |
| MapList.Process.FirstClash | p4/xv6-public/sysproc.c:132-138 | the loop finds an entry that clashes, just when there is one |
| MapList.Process.FindPlace | p4/xv6-public/sysproc.c:127-149 | the loop gives what `MapList.SearchIsRight` is about, for every list without wrapped regions; what it gives clashes with nothing, and where it does not end it is back in a state that it has been in |
| MapList.Process.Wmap | p4/xv6-public/sysproc.c:127-195 | a fixed mapping succeeds just when its region is free, another one gets what the search gives; the list stays disjoint exactly if the new region does not wrap |
| MapList.Process.Insert | p4/xv6-public/sysproc.c:190-192 | the new entry is the head and the others follow; the list stays disjoint exactly if it does not wrap |
| MapList.Process.Wunmap | p4/xv6-public/sysproc.c:197-256 | the first entry with that address leaves the list, or there is none, also in a list that is not in order |
| MapList.Process.FindMapping | p4/xv6-public/sysproc.c:280-290 | the entry with that address and length and the one before it, or neither just when there is none |
| MapList.Process.MustMove | p4/xv6-public/sysproc.c:292-304 | whether somebody else starts at or below the new end |
| MapList.Process.Resize | p4/xv6-public/sysproc.c:309-312 | only the length of that region changes; the list stays disjoint exactly if it does not wrap |
| MapList.Process.Unlink | p4/xv6-public/sysproc.c:427-432 | exactly that entry is gone, in any list |
| MapList.Process.Move | p4/xv6-public/sysproc.c:366-432 | head insertion and then the unlinking remove exactly the old entry, also when it was the head; the list stays disjoint exactly if the new region does not wrap |
| MapList.Process.Wremap | p4/xv6-public/sysproc.c:259-439 | in place, moved to what the search gives, or unchanged with the old address, each exactly when the code says, also for a mapping that cannot grow where it is; the list stays disjoint exactly if the new region does not wrap |
| FrameTable.EntryAt | p5/xv6-public/mmu.h:73-80 | the page of a virtual address is mapped by entry (a >> 12) & 1023 of the table in entry a >> 22 of the directory |
| FrameTable.TablePlaced | p5/xv6-public/vm.c:69-76 | a fresh, cleared page table in an empty directory slot keeps every frame with one use and every mapping |
| FrameTable.PagePlaced | p5/xv6-public/vm.c:93-97 | a fresh frame mapped at one page is that page's only frame, and no other mapping changes |
| FrameTable.PageRemoved | p5/xv6-public/vm.c:296-303 | unmapping gives that page's frame, and no other, to the free list |
| FrameTable.KernelMapped | p5/xv6-public/vm.c:153-158 | mappings above KERNBASE own no frame |
| FrameTable.DirPlaced | p5/xv6-public/vm.c:148-150 | a fresh frame becomes an empty directory |
| FrameTable.DirDetached | p5/xv6-public/vm.c:329-336 | a directory without user pages owns itself and its page tables, each in one slot |
| FrameTable.FrameSameDir | p5/xv6-public/vm.c:310-337 | what is done to one directory changes no mapping of another |
| FrameTable.AllReturned | p5/xv6-public/vm.c:310-337 | when a directory is gone, the frames that have become free are exactly those it owned |
| FrameTable.Restored | p5/xv6-public/vm.c:381-383 | when a new directory is thrown away, all is as before, and the same frames are free |
| VmCode.Kernel.constructor | p5/xv6-public/kalloc.c:31-43 | before kinit nothing is mapped and every frame is still to be freed |
| VmCode.Kernel.FreeRange | p5/xv6-public/kalloc.c:46-53 | exactly the whole pages of the range join the free list, the last one first |
| VmCode.Kernel.Kalloc | p5/xv6-public/kalloc.c:79-95 | the first free frame leaves the list, or there is none |
| VmCode.Kernel.Kfree | p5/xv6-public/kalloc.c:59-77 | the frame is the first of the list |
| VmCode.Kernel.Walk | p5/xv6-public/vm.c:56-79 | the page table for the page; making one changes no mapping, and only an empty free list makes that fail |
| VmCode.Kernel.MapUser | p5/xv6-public/vm.c:84-104 | the page is mapped on that frame, or nothing is, and then the frame is still the caller's |
| VmCode.Kernel.MapKernel | p5/xv6-public/vm.c:84-104 | exactly the pages of the range are mapped, one after the other |
| VmCode.Kernel.Setupkvm | p5/xv6-public/vm.c:141-160 | a new directory with exactly the kernel's mappings; or, just when a kalloc found no frame, nothing, and the same frames are free as before |
| VmCode.Kernel.Unmap | p5/xv6-public/vm.c:296-303 | that page is gone and its frame is free |
| VmCode.Kernel.DeallocUvm | p5/xv6-public/vm.c:278-306 | every page between the two sizes is unmapped, also across the skip to the next directory entry, and no other |
| VmCode.Skipped | p5/xv6-public/vm.c:294-295 | where there is no page table the skip misses no mapped page |
| VmCode.Kernel.AllocUvm | p5/xv6-public/vm.c:246-276 | zeroed pages on fresh frames between the two sizes; it fails just when the size is too big or a kalloc found no frame, and then the mappings and pages are as before and every frame taken is free again or one of the page tables |
| VmCode.BackAgain | p5/xv6-public/vm.c:262-273 | growing and shrinking back leaves the mappings as they were |
| VmCode.Kernel.FreeFrames | p5/xv6-public/vm.c:330-336 | each page table and the directory are freed once |
| VmCode.Kernel.FreeVm | p5/xv6-public/vm.c:310-337 | exactly the frames of that directory become free |
| VmCode.Kernel.CopyUvm | p5/xv6-public/vm.c:352-384 | a copy with equal contents and flags on frames of its own and only the kernel's mappings besides; or, just when a kalloc found no frame, nothing, and nothing is lost |
| Sharing.Joined | p5/xv6-public/proc.c:249-255 | clone keeps every entry equal to the number of users of its directory, and a directory without an entry has one user |
| Sharing.Swapped | p5/xv6-public/exec.c:96-103 | leaving a directory for another one leaves a count that is one too high for exactly the directory that freevm gets |
| Sharing.Released | p5/xv6-public/vm.c:313-323 | freevm's decrement makes the counts right again, and it goes on to free the directory just when no user is left |
| Sharing.RoomLeft | p5/xv6-public/vm.c:26-35 | the table is never full when a directory needs its first entry |
| Sharing.Kernel.constructor | p5/xv6-public/proc.c:128-143 | the first process has the only directory |
| Sharing.Kernel.Locate | p5/xv6-public/vm.c:16-24 | the entry in use for that directory, or there is none |
| Sharing.Kernel.Allocate | p5/xv6-public/vm.c:26-35 | an entry that was not in use, unless all are |
| Sharing.Kernel.FreeVm | p5/xv6-public/vm.c:310-323 | the directory is freed exactly when its last user has left, and the check for a bad count never fails |
| Sharing.Kernel.Fork | p5/xv6-public/proc.c:190-232 | a process with a new directory of its own, just when a slot is free; no stale entry counts for it |
| Sharing.Kernel.Clone | p5/xv6-public/proc.c:237-298 | another user of the same directory; the unchecked allocation always finds an entry |
| Sharing.Kernel.Exec | p5/xv6-public/exec.c:96-103 | the old directory is freed exactly when nobody else uses it |
| Sharing.Kernel.Reap | p5/xv6-public/proc.c:363-375 | the same for a process that wait takes out of the table |
| Scheduling.Cpu.Elevate | p5/xv6-public/proc.c:451-459 | the elevated nice value is the least of the process's own and of those asleep on locks it holds |
| Scheduling.Cpu.FindMinNice | p5/xv6-public/proc.c:441-465 | all runnable processes get such a value, the least of them is found, and nothing else changes |
| Scheduling.Cpu.Turn | p5/xv6-public/proc.c:416-435 | one turn of the loop: the process is dispatched, as running, exactly if it is a best one, and then the least value is found again |
| Scheduling.Cpu.Pass | p5/xv6-public/proc.c:411-437 | turn p of a pass dispatches process p if and only if it is runnable with the least effective nice value in the table of that turn; all dispatches are in table order, a turn without one changes nothing, and one after the dispatch of p sees the table that p has left; if processes come back runnable and unchanged all turns see the same table |
| Scheduling.EachOnce | p5/xv6-public/proc.c:415-436 | a pass in which all turns see the same table dispatches each minimal process exactly once and no other |
| Scheduling.BestWhen | p5/xv6-public/proc.c:416-416 | the test of the loop picks the minimal processes and no others |

## Left out

What the theorems assume:

- Memory is sequentially consistent, and what one thread does inside a lock or between two accesses
  to shared memory is one step. In `p6` that also holds for copying a descriptor into or out of a slot.
- The scheduler may starve anybody, so that something happens is shown as what can always still happen: `ServiceProgress.AllCanComplete`, `FsOperations.TransactionsRun`.
- A panic is the end of the run. It appears as a failed result where the code can reach it within
  the model (no buffer, no block, log full, block freed twice), and as a precondition where the
  caller must prevent it (`copyuvm` of a page that is not there, `brelse` of a changed buffer that
  was neither written nor logged).
- History variables (`subs`, `gots`, `log`, `place`, `stable`, `trail`, `lost`, `sent`, `got`, ...)
  are read by no step.

Weaker than the code, on purpose:

- LogCode.Log.EndOp: the wakeups are not modelled, and other processes are as for Commit; group commit by several operations is in `LogProtocol`.
- LogCode.Log.constructor: initlog without reading the super block and without the recovery, which is `LogCode.Log.RecoverFromLog`.
- LogCode.Log.Commit: what other processes use stays the same while it runs, and none of that is a pinned or a log block; for such a block the code would sleep.
- LogCode.Log.WriteLog: the same assumption.
- LogCode.Log.InstallTrans: the same assumption.
- LogCode.Log.WriteHead: the same assumption.
- LogCode.Log.TryBegin: is one pass of the loop of begin_op; sleeping and waking are not modelled.
- BufferCache.Cache.BGet: a process that would have to wait for a locked buffer is not modelled, so a caller must not ask for a block that is locked.
- BufferCache.Cache.BRead: a caller must not ask for a block that somebody holds; uniqueness of buffers is stated for device 1 only, since the buffers that binit makes all carry device 0 and block 0.
- BufferCache.Cache.BRelse: the source also releases a changed buffer that was neither written nor logged; a caller must not, since the change could then be lost.
- HeapCode.Heap.Malloc: ends in the result Overrun when sbrk is asked for a number of bytes that is not positive; what the code then does to memory below the break is not modelled.
- HeapCode.Heap.Sbrk: how much memory there is and how far others have moved the break is given for each call; other callers of sbrk only leave gaps between regions, and addresses are counted in headers of 8 bytes, with base at 0.
- HeapCode.Heap.MoreCore: ends in Overrun as malloc does.
- FsCode.FileSystem.Writei: device inodes are not modelled, and a size up to 2^32 - 4096 blocks is assumed, so that the block counter does not wrap.
- FsCode.FileSystem.Readi: device inodes are not modelled.
- FsCode.FileWrite: pipes and begin_op and end_op themselves are not part of it; each operation starts with an empty set of logged blocks.
- FsState.NewFileSystem: is the image before its first file; the root directory that mkfs makes, and when its rounded size leaves a hole, is `FsState.RootDirectory`.
- FsSurvival.FilesSurvive: takes it that the operations of a transaction change the files as some order of them does. `FsOperations.OperationsAreTransaction` shows that where each logs its changes in one piece; where the inode and buffer locks let them mix it is the condition of `FsOperations.ReadsMakeTransaction`.
- ShellParser.ParseCmd: nodes are values, so the late stores into argv of a command that is already wrapped in redirections are made before the wrapping; allocation failure of a node is not modelled.
- PipeCode.Pipe.Write: whether the process was killed is given for each stay inside the lock, and a process inside a call keeps its end of the pipe open.
- MapList.Process.Wmap: takes lengths that are positive as signed numbers, which the call does not check. After a region that wraps is in the list only wunmap is covered.
- MapList.Process.Wremap: takes signed sizes as the call does; after a region that wraps is in the list it is not covered.
- VmCode.Kernel.MapUser: mappages is split into one user page and a range of kernel pages, the two ways it is called.
- VmCode.Kernel.Setupkvm: the table of kernel mappings is a parameter.
- VmCode.Kernel.FreeVm: is the part after the reference count, which `Sharing` has; the frames of a directory stop being one at its start, not one by one.
- Sharing.Kernel.Clone: clone, the swap of exec, and the release in wait are each one step.
- Sharing.Kernel.Fork: its page directory is given; making it is `VmCode.Kernel.CopyUvm`.
- Scheduling.Cpu.Pass: which locks a process holds is given; one CPU; nice values are at most 19 as sys_nice keeps them.

Not modelled:

- The inode cache (iget, iput, ilock), ialloc, directories and path names: easier than the block layer below them.
- The super block, beyond the layout it gives; the FUSE file system `p7`.
- Loading programs (inituvm, loaduvm, exec before its last lines), clearpteu and copyout; growproc on a directory that threads share.
- Page-fault loading, copy-on-write and file contents of mappings, and fork and exit with mappings in `p4`.
- The user mutexes of `p5`, whose key is derived from a page table entry.
- Running a parsed command in the shell.
- In `p6`: reading the workload, the invalid request type, null arguments, a window or table of size 0, and timing.
- Drivers, interrupts, boot code, the console, and the user programs.
