# SovelmaOS, modelled and verified in Dafny

SovelmaOS is a small capability-based kernel that runs WASM processes. This project models the parts of
it in which correctness depends on more than one function, and proves what holds over every input, every
run and every interleaving.

| files | component |
|---|---|
| `Paths`, `Utf8`, `RamFs`, `RamFsTree`, `RamFsHandles`, `RamFsAnswers`, `RamFsObject` | the RAM file system: path strings, the graph of shared nodes, the table of open handles |
| `Capabilities`, `HostCalls`, `HostAnswers`, `HostFuel`, `CapabilityListing`, `Confinement`, `HostObject` | host calls of WASM processes: answers, capability derivation, fuel, the capability listing |
| `Semaphore`, `AsyncMutex`, `WakeUps`, `HandOff`, `SyncObjects` | the async mutex and the counting semaphore: single accesses, the shared scheme of their wait queues, the objects |
| `Executor`, `RoundRobin`, `ExecutorObject` | the cooperative executor |
| `RingIndex`, `ReceiveRing`, `TransmitRing`, `E1000` | the descriptor rings of the network driver |
| `Vga`, `Frames` | the text screen; the boot frame allocator and the heap mapping loop |

`dafny verify dfyconfig.toml` checks the whole project.

## How to read it

Code that updates objects in place appears twice: as a class whose methods do what the source does
(`RamFsObject`, `HostObject`, `ExecutorObject`, `SyncObjects`, `E1000`, `Vga`, `Frames`), and as functions
on values that say what those methods compute. The methods are proved against the functions, and the
theorems are about the functions. Code that runs concurrently is a state machine with one step per access to
shared memory; the theorems are about all its runs.

- A shared node (`Arc<RwLock<Node>>`) is an index into a sequence of nodes. The field `made` records where
  a node was first inserted. No operation reads it. It gives every node a birth path that never changes.
- Paths are byte strings. Splitting at the byte 0x2F is splitting at '/' in UTF-8 (`Utf8.SplitOfText`).
- Counters of type `AtomicU32` and `AtomicU64` wrap explicitly in the file system and host models.
- Atomic accesses are sequentially consistent, a weak compare-exchange may fail spuriously, and
  `ArrayQueue` is an atomic bounded queue.
- The network card follows Intel's manual for its family: the driver's command bits decide what is a packet,
  what gets a checksum and what is reported as done.
- What futures, page tables, the network card and the code of WASM processes do is an input: a script of
  answers, a choice of actions, or an arbitrary change between two calls.

## Where the code and its comments differ

The model follows the code.

- `src/kernel/src/sync/mutex.rs:160` and `src/kernel/src/sync/semaphore.rs:159` say the second attempt avoids
  lost wakeups. Wakeups are lost in two ways, and `HandOff.RunLosesIff` gives the exact steps for both types.
  First, the `registered` flag is never cleared, so a woken future that finds the permit gone again is not
  queued again (`HandOff.StrandingRun`). Second, the futures have no `Drop`, so a release can spend its wakeup on
  the waker of a dropped future (`HandOff.DeadWakerStalls`), and a woken future that is dropped does not pass its
  wakeup on (`HandOff.WokenDropStalls`); then a future sleeps in the queue beside a free permit. When accesses
  interleave, the second attempt is itself a cause: if it succeeds in a race with a release, the future's own
  waker stays in the queue and swallows a later wakeup (`WakeUps.RaceStalls`), and a weak compare-exchange that
  fails spuriously puts a future to sleep beside a free lock (`WakeUps.SpuriousStalls`).
  `WakeUps.InterleavedLosesIff` is the exact condition over all interleavings of the mutex.
- `src/kernel/src/sync/semaphore.rs:109` says release increments the count. With `initial > max`, which only a
  debug assertion forbids, it lowers it. `Semaphore.ConservesIff` says that permits are conserved if and only if
  `initial <= max`.
- `src/kernel/src/fs/ramfs.rs:135` offsets the second handle counter to tell its handles apart. The
  counters meet after 9999 plain opens. `RamFsHandles.HandlesDistinctIff` is the exact condition, and
  `RamFsHandles.HandleReuse` rebinds an open handle.
- `src/kernel/src/net/e1000.rs:216` tests only DD before it takes a descriptor, so the driver fills all 64.
  Then TDT equals TDH and the device sees an empty ring. `TransmitRing.WedgedForever` shows that nothing is
  sent or accepted after that, and `TransmitRing.BurstWedges` reaches it with 64 calls.
- `src/kernel/src/wasm/host.rs:326` allocates `path_len as usize` bytes. A negative length is a capacity
  overflow, which the model calls `Panic`.
- `src/kernel/src/wasm/host.rs:626` drops the mutex guard at once, so mutex calls of processes never change
  the lock.

## Model

| member | source | states |
|---|---|---|
| Paths.ComponentsOfJoin | src/kernel/src/fs/ramfs.rs:71 | for all strings p and q, the components of p/q are those of p followed by those of q |
| Paths.JoinOfSplit | src/kernel/src/fs/ramfs.rs:71 | splitting loses nothing: joining the parts gives the string back, and no part holds a '/' |
| Paths.ComponentsLegal | src/kernel/src/fs/ramfs.rs:34 | every component is non-empty and holds no '/' |
| Paths.ComponentsRoundTrip | src/kernel/src/fs/ramfs.rs:117 | every list of legal names is the component list of the path that joins them |
| Utf8.WellFormedIff | src/kernel/src/wasm/host.rs:333-336 | the byte-by-byte test for UTF-8 accepts exactly the encodings of sequences of Unicode scalar values |
| Utf8.SplitOfText | src/kernel/src/fs/ramfs.rs:71 | splitting the bytes of any text at 0x2F gives the encodings of the parts of the text split at '/' |
| RamFsTree.WalkBirth | src/kernel/src/fs/ramfs.rs:70-88 | whatever a walk from a node leads to lies below that node, and its birth path is the node's birth path plus the names walked |
| RamFsTree.NoCycles | src/kernel/src/fs/ramfs.rs:11-15 | no walk of at least one step returns to its start |
| RamFsTree.OneParent | src/kernel/src/fs/ramfs.rs:11-15 | a node is an entry of at most one directory, under one name |
| RamFsTree.RunExtends | src/kernel/src/fs/ramfs.rs:33-195 | over any run of file system calls files keep their bytes, directories stay directories and lose no name, and no node is made again elsewhere |
| RamFsTree.RunKeepsForest | src/kernel/src/fs/ramfs.rs:33-195 | after any run, from any node, also below detached directories: birth paths are unchanged, there are no cycles, and a walk ends at the node made at exactly that path |
| RamFsTree.OpenComposes | src/kernel/src/fs/ramfs.rs:98-140 | open(p) and then open_at(h, q) binds the node that open of p/q binds, or fails with the same error |
| RamFsTree.InsertResolves | src/kernel/src/fs/ramfs.rs:61-67 | one insertion changes the resolution of exactly the new path and its extensions |
| RamFsTree.BlockedByPrefix | src/kernel/src/fs/ramfs.rs:42-54 | add_file is blocked if and only if a proper prefix of its path leads to a file |
| RamFsTree.AddFileExact | src/kernel/src/fs/ramfs.rs:33-68 | add_file is all or nothing: if blocked, or without a name, nothing changes; otherwise the path leads to the new content, its prefixes to directories (the old ones where they existed), its extensions to nothing, and every other path where it led before |
| RamFsTree.MkdirAtSucceeds | src/kernel/src/fs/ramfs.rs:146-195 | mkdir_at succeeds if and only if the base is open, the parent is a directory and the name is free; on an error nothing changes |
| RamFsTree.MkdirAtExact | src/kernel/src/fs/ramfs.rs:181-191 | after a successful mkdir_at the path leads to a fresh empty directory and every other path below the base where it led before |
| RamFsHandles.RunKeepsHandle | src/kernel/src/fs/ramfs.rs:98-140 | while the counters stay apart, an issued handle denotes one node as long as it is open, stays open until it is closed, and never comes back |
| RamFsHandles.RoomyByCount | src/kernel/src/fs/ramfs.rs:101-136 | the counters stay apart if and only if open has not passed 10000 and open_at has not wrapped |
| RamFsHandles.HandlesDistinctIff | src/kernel/src/fs/ramfs.rs:101-136 | for every run from the empty file system, wrap-around included: the handles handed out are pairwise distinct if and only if neither counter goes round twice, and either only one of the calls is used, or fewer than 10000 opens succeed and open_at does not come round to 1 |
| RamFsHandles.HandleReuse | src/kernel/src/fs/ramfs.rs:101-104 | with the open counter at 10000, opening a file rebinds handle 10000 |
| RamFsHandles.HandleReuseReachable | src/kernel/src/fs/ramfs.rs:98-140 | it happens: after three calls and 9998 more opens handle 10000 denotes the root directory, and the next open makes it denote a file |
| RamFsHandles.ReadStable | src/kernel/src/fs/ramfs.rs:197-215 | a read gives the same bytes before and after any run that keeps the counters apart and does not close the handle |
| RamFsHandles.ChunksReassemble | src/kernel/src/fs/ramfs.rs:197-215 | reading in chunks of any positive sizes, with any other calls in between that keep the counters apart and the handle open, collects exactly the bytes the file held, and reaches the end |
| RamFsAnswers.ReadExact | src/kernel/src/fs/ramfs.rs:197-215 | a read succeeds exactly on open files and delivers as many bytes as fit and are there, byte i being byte offset + i of the file |
| RamFsAnswers.ReadWhole | src/kernel/src/fs/ramfs.rs:197-228 | one read at offset 0 with a buffer of at least the size answered by size gives the whole file |
| RamFsAnswers.MkdirAtErrors | src/kernel/src/fs/ramfs.rs:146-195 | which error mkdir_at gives for which state of base, parent and name |
| RamFsAnswers.AddOpenReadClose | src/kernel/src/fs/ramfs.rs:33-242 | a file that could be added can be opened, has the size of its content, is read back whole in one read, and cannot be read after its handle is closed |
| RamFsObject.RamFileSystem.constructor | src/kernel/src/fs/ramfs.rs:25-30 | a new file system is an empty root directory with no open handles |
| RamFsObject.RamFileSystem.EntryOrInsert | src/kernel/src/fs/ramfs.rs:43-52 | entering or creating the next directory leaves the outcome of the whole add_file unchanged |
| RamFsObject.RamFileSystem.EnterDirectories | src/kernel/src/fs/ramfs.rs:39-54 | the directory loop leaves only the last part to be added, or stops at a file |
| RamFsObject.RamFileSystem.AddFile | src/kernel/src/fs/ramfs.rs:33-68 | the in-place loop computes the file system that `RamFsTree.AddFileExact` is about |
| RamFsObject.RamFileSystem.Resolve | src/kernel/src/fs/ramfs.rs:70-88 | the traversal loop finds the node the names lead to, or NotFound |
| RamFsObject.RamFileSystem.Open | src/kernel/src/fs/ramfs.rs:98-106 | binds the resolved node to the next handle, or changes nothing |
| RamFsObject.RamFileSystem.OpenAt | src/kernel/src/fs/ramfs.rs:108-140 | the same below an open handle, with its own counter |
| RamFsObject.RamFileSystem.MkdirAt | src/kernel/src/fs/ramfs.rs:146-195 | computes the file system and the error that `RamFsTree.MkdirAtSucceeds` is about; handle 0 stands for the root |
| RamFsObject.RamFileSystem.Read | src/kernel/src/fs/ramfs.rs:197-215 | copies the bytes of the file from the offset on, as many as fit, and leaves the rest of the buffer alone |
| RamFsObject.RamFileSystem.Size | src/kernel/src/fs/ramfs.rs:217-228 | the length of a file, 0 for a directory, an error for a handle that is not open |
| RamFsObject.RamFileSystem.IsDir | src/kernel/src/fs/ramfs.rs:230-238 | whether an open handle denotes a directory |
| RamFsObject.RamFileSystem.Close | src/kernel/src/fs/ramfs.rs:240-242 | removes the handle and nothing else |
| Capabilities.PackingRoundTrip | src/common/src/capability.rs:18-28 | from_u64 and as_u64 are inverse to each other, on all 64-bit values and all identifiers; the index is the lower half and the generation the upper half |
| Capabilities.BitsRoundTrip | src/common/src/capability.rs:47-57 | a set of rights is determined by its bits |
| Capabilities.TableOfLast | src/kernel/src/wasm/host.rs:160-166 | the table of a new process holds exactly the granted identifiers, each with the last capability granted under it |
| Capabilities.AscendingOrder | src/common/src/capability.rs:5-9 | the keys of the table are listed in strictly increasing order of index, then generation |
| Capabilities.RecordRoundTrip | src/kernel/src/wasm/host.rs:274-297 | a 16-byte little-endian record decodes to the identifier, type tag and rights it was written from |
| Capabilities.TableRoundTrip | src/kernel/src/wasm/host.rs:273-298 | so does a sequence of records |
| Capabilities.RecordLayout | src/kernel/src/wasm/host.rs:274-297 | the 16 bytes of a record are four little-endian words: index, generation, type code (0 file, 1 directory, 2 mutex, 3 semaphore, 255 other) and rights (READ 1, WRITE 2, EXECUTE 4, GRANT 8, CALL 16) |
| CapabilityListing.ListingSucceeds | src/kernel/src/wasm/host.rs:253-300 | if and only if memory, buffer and fuel suffice the call writes the table: it returns its size, cut to 32 bits, and changes memory by exactly one store of the records; otherwise it yields or returns an error code; below 2^31 capabilities the sign tells the cases apart |
| CapabilityListing.ListingRoundTrip | src/kernel/src/wasm/host.rs:261-300 | decoding the records gives one entry per capability; the i-th has the i-th smallest identifier, by index and then generation, the type code of its kind and its rights |
| CapabilityListing.ListingDecodes | src/kernel/src/wasm/host.rs:253-300 | after a call that succeeds, decoding the process's own memory from ptr on gives its own capabilities in that order |
| CapabilityListing.ListingBytes | src/kernel/src/wasm/host.rs:272-298 | the same byte by byte: record i lies 16 i bytes behind ptr, in the layout above |
| CapabilityListing.CallKeepsKeyed | src/kernel/src/wasm/host.rs:169-173 | every host call keeps each capability under its own identifier, as the listing needs |
| HostAnswers.FsOpenExact | src/kernel/src/wasm/host.rs:313-387 | exactly when sp_fs_open succeeds; then it answers the number of a new capability, a directory's if the path leads to a directory and a file's otherwise, with exactly the parent's rights that apply to that kind, and a handle bound to that node; otherwise it answers the error code of the first failing test and changes nothing but fuel |
| HostAnswers.FsReadExact | src/kernel/src/wasm/host.rs:394-444 | exactly when sp_fs_read succeeds; then it answers how many bytes there were, memory holds exactly those bytes of the file at the buffer, and no other byte of memory has changed |
| HostAnswers.FsSizeExact | src/kernel/src/wasm/host.rs:451-473 | the length of the file as a 32-bit number, 0 for a directory, and the error codes |
| HostAnswers.FsCloseExact | src/kernel/src/wasm/host.rs:480-504 | the capability is gone, all others are as before, and its handle is closed |
| HostAnswers.FsMkdirExact | src/kernel/src/wasm/host.rs:511-558 | exactly when sp_fs_mkdir succeeds; then the path leads to a new empty directory and every other path below the capability's directory where it led before |
| HostAnswers.MutexExact | src/kernel/src/wasm/host.rs:600-717 | what lock, try_lock and unlock answer for a free and for a held mutex; none of them changes the registry |
| HostAnswers.SemaphoreExact | src/kernel/src/wasm/host.rs:746-848 | acquire and try_acquire take a permit if there is one and otherwise wait or answer -12; release gives one back up to the maximum; nothing else changes |
| HostAnswers.MutexCreateExact | src/kernel/src/wasm/host.rs:584-596 | a free mutex under a new handle, and a capability for it that can only be called |
| HostAnswers.SemCreateExact | src/kernel/src/wasm/host.rs:721-743 | a semaphore with that many permits, all free, and a capability for it that can only be called; a negative number is refused |
| HostAnswers.OpenThenRead | src/kernel/src/wasm/host.rs:313-444 | what sp_fs_open answered for a file can be read at any later time while its handle stays bound, and gives the bytes of the file the path led to |
| HostAnswers.OpenThenOpen | src/kernel/src/wasm/host.rs:313-387 | opening p and then q through the capability answered for p binds the node that p/q leads to |
| HostAnswers.CloseThenUse | src/kernel/src/wasm/host.rs:394-504 | after sp_fs_close the number is refused by later calls and the handle is closed |
| HostFuel.TrapHasNoEffect | src/kernel/src/wasm/host.rs:206-213 | a call that ends in a trap or panic changes nothing but fuel |
| HostFuel.ChargedExactly | src/kernel/src/wasm/host.rs:196-213 | a charged call completes only with at least 500 left and is charged exactly its price; it yields if and only if less is left |
| HostFuel.SliceBound | src/kernel/src/wasm/mod.rs:246-247 | in one slice completed charged calls cost at most 9500 in total and at most 950 complete, whatever others do in between |
| HostFuel.StarvedUntilRefill | src/kernel/src/wasm/host.rs:196-213 | after one yield for lack of fuel every charged call yields until the refill |
| Confinement.HostFsOp | src/kernel/src/wasm/host.rs:308-562 | a host call does at most one file system operation: open_at below a directory it may read, mkdir_at below one it may write, or a close of a handle it holds |
| Confinement.OpenedCapability | src/kernel/src/wasm/host.rs:338-386 | sp_fs_open derives a capability from a readable directory capability, with no more rights, for a node at or below the directory's and of that node's kind |
| Confinement.TableAfter | src/kernel/src/wasm/host.rs:169-173 | no other call adds a file or directory capability |
| Confinement.StepKeepsInv | src/kernel/src/wasm/host.rs:308-562 | every spawn, host call, kernel file operation and local step keeps all capabilities of all processes accounted for |
| Confinement.GrantsAreSpawned | src/kernel/src/wasm/mod.rs:90-112 | the grants of a process are those it was spawned with, in every later state |
| Confinement.Confined | src/kernel/src/wasm/host.rs:338-386 | in every state of every run, with processes spawned at any time, each file or directory capability is a grant its process was spawned with or descends from a readable directory among them; it has no right an ancestor lacks; and while open its handle denotes a node at or below every ancestor's |
| HostObject.HostState.constructor | src/kernel/src/wasm/host.rs:160-166 | the loop builds that table |
| HostObject.HostState.AddCapability | src/kernel/src/wasm/host.rs:169-173 | stores the capability under its own identifier |
| HostObject.HostState.GetCapability | src/kernel/src/wasm/host.rs:179-186 | finds the entry if its generation still matches |
| HostObject.HostState.CheckFuel | src/kernel/src/wasm/host.rs:196-213 | burns fuel down to 0 at most, and says whether 500 are left |
| HostObject.HostState.WriteTable | src/kernel/src/wasm/host.rs:272-298 | the loop writes the records of the table in the order of the identifiers and stops at the first that does not fit |
| HostObject.HostState.SpGetCapabilities | src/kernel/src/wasm/host.rs:253-301 | the in-place call computes the reply that `CapabilityListing.ListingSucceeds` is about |
| HostObject.HostState.ReadPath | src/kernel/src/wasm/host.rs:320-336 | reads the path from memory, or ends the call with the right outcome |
| HostObject.HostState.OpenBelow | src/kernel/src/wasm/host.rs:358-386 | opens the path, derives the capability, and changes nothing on an error |
| HostObject.HostState.SpFsOpen | src/kernel/src/wasm/host.rs:313-387 | the in-place call computes the reply the confinement theorems are about |
| HostObject.HostState.SpFsRead | src/kernel/src/wasm/host.rs:394-444 | the in-place call computes the reply of the model, memory included |
| HostObject.HostState.SpFsMkdir | src/kernel/src/wasm/host.rs:511-558 | the same for sp_fs_mkdir |
| HostObject.HostState.SpFsClose | src/kernel/src/wasm/host.rs:480-504 | the same for sp_fs_close |
| Semaphore.StepKeepsInv | src/kernel/src/sync/semaphore.rs:78-133 | every single load, compare-exchange and queue access keeps the counter equal to the replay of the effects so far |
| Semaphore.RunLinearizable | src/kernel/src/sync/semaphore.rs:52-133 | for every initial count and maximum, every interleaving of any number of threads is linearizable to an atomic counter that release caps; permits stay within the larger of the two, and within the maximum if they start there |
| Semaphore.OneEffect | src/kernel/src/sync/semaphore.rs:78-133 | between an invocation and its return there is exactly one effect, with the result that is returned |
| Semaphore.RunConserves | src/kernel/src/sync/semaphore.rs:107-133 | with initial <= max and clients that release only what they hold, permits plus permits held equal the initial count in every state |
| Semaphore.OverfullLoses | src/kernel/src/sync/semaphore.rs:61-68 | for every initial > max, one acquire and one release leave only max permits |
| Semaphore.ConservesIff | src/kernel/src/sync/semaphore.rs:52-133 | permits are conserved in all runs of such clients if and only if initial <= max |
| Semaphore.CapNeverTaken | src/kernel/src/sync/semaphore.rs:113-118 | with such clients release never finds the counter at its maximum |
| AsyncMutex.MutualExclusion | src/kernel/src/sync/mutex.rs:69-171 | in every interleaving of single accesses at most one guard is live, the flag is set exactly while one is, and no update made under a guard is lost |
| WakeUps.StepStrandsIff | src/kernel/src/sync/mutex.rs:140-171 | a single access forgets a sleeping future if and only if it is a failing second compare-exchange of one whose waker is not in the queue and has not fired |
| WakeUps.StepStallsIff | src/kernel/src/sync/mutex.rs:94-171 | a single access leaves a free lock beside sleepers only, if and only if the last attentive agent finds no waker of a pending future to fire, gives up after a spurious failure, or drops its woken future |
| WakeUps.InterleavedLosesIff | src/kernel/src/sync/mutex.rs:69-171 | in every interleaving of any number of agents, no wakeup is lost in any state if and only if no access is of either kind |
| WakeUps.SpuriousStalls | src/kernel/src/sync/mutex.rs:140-171 | one agent alone, whose compare-exchanges fail spuriously, goes to sleep beside a free lock |
| WakeUps.RaceStalls | src/kernel/src/sync/mutex.rs:122-171 | three agents, with no spurious failure and no dropped future: one sleeps beside a free lock because another one's waker was left in the queue |
| HandOff.UninterruptedPoll | src/kernel/src/sync/mutex.rs:140-171 | the accesses of an uninterrupted poll add up to the poll step of the hand-off model |
| HandOff.StepStrandsIff | src/kernel/src/sync/mutex.rs:153-170 | a step forgets a pending future if and only if it polls a woken one when no permit is left, or a new one while the queue is full |
| HandOff.StepStallsIff | src/kernel/src/sync/mutex.rs:94-129 | a step leaves a permit idle beside a sleeping future if and only if it is a release that pops the waker of a future that is gone, or the drop of a woken future, while another pending future is queued and nobody else is woken for the permit |
| HandOff.RunStrandsIff | src/kernel/src/sync/mutex.rs:140-171 | in every state of a run every pending future is queued or woken, if and only if the run has no stranding step |
| HandOff.RunStallsIff | src/kernel/src/sync/semaphore.rs:111-165 | in every state as many futures are woken as permits are free while a pending one is queued, if and only if the run has no stalling step |
| HandOff.RunLosesIff | src/kernel/src/sync/mutex.rs:94-171 | no wakeup is lost in any state of a run, of the mutex or of a semaphore with any counts, if and only if the run has neither kind of step |
| HandOff.LostForever | src/kernel/src/sync/mutex.rs:94-98 | nothing but a poll or drop of the future itself changes that it is forgotten |
| HandOff.StallLasts | src/kernel/src/sync/mutex.rs:94-98 | a future that sleeps beside a free permit sleeps on until somebody else polls, takes or releases |
| HandOff.StrandingRun | src/kernel/src/sync/mutex.rs:122-171 | a run of six steps that ends with a free lock, nobody queued, nobody woken and a pending future |
| HandOff.DeadWakerStalls | src/kernel/src/sync/mutex.rs:94-129 | a run in which a queued future is dropped and the release wakes nobody while another future is queued |
| HandOff.WokenDropStalls | src/kernel/src/sync/mutex.rs:131-171 | a run in which a woken future is dropped and the next one in the queue is not woken |
| HandOff.CourteousRun | src/kernel/src/sync/semaphore.rs:111-165 | if nobody takes a permit ahead of the woken futures, these are polled in order, none is dropped, the queue has room and only taken permits are released: there is a permit for every woken future, woken and queued futures are exactly the pending ones, no permit is idle while one is queued, and permits are acquired in registration order |
| SyncObjects.AsyncMutexObject.TryLock | src/kernel/src/sync/mutex.rs:69-79 | succeeds exactly when the lock is free, and takes it |
| SyncObjects.AsyncMutexObject.Poll | src/kernel/src/sync/mutex.rs:140-171 | an uninterrupted poll is the poll step of the hand-off model |
| SyncObjects.AsyncMutexObject.DropGuard | src/kernel/src/sync/mutex.rs:122-129 | releases the lock and wakes the oldest waiter |
| SyncObjects.SemaphoreObject.New | src/kernel/src/sync/semaphore.rs:52-58 | starts full, with nobody waiting |
| SyncObjects.SemaphoreObject.WithMax | src/kernel/src/sync/semaphore.rs:61-68 | starts with the initial permits, whatever the maximum, and nobody waiting |
| SyncObjects.SemaphoreObject.TryAcquire | src/kernel/src/sync/semaphore.rs:78-93 | however often the compare-exchange fails spuriously, the loop does one step of the atomic counter and of the hand-off model |
| SyncObjects.SemaphoreObject.Release | src/kernel/src/sync/semaphore.rs:111-133 | the same for release, which wakes the oldest waiter |
| SyncObjects.SemaphoreObject.Poll | src/kernel/src/sync/semaphore.rs:145-165 | an uninterrupted poll is the poll step of the hand-off model |
| Executor.StepKeepsInv | src/kernel/src/task/executor.rs:56-112 | spawning, polling, dropping a stale identifier and firing any waker keep the executor's invariant |
| Executor.RunIsSafe | src/kernel/src/task/executor.rs:56-170 | in every run, with stale wakers firing at any time: no poll after ready, polls only from the queue of the task's priority, cached wakers only for live tasks and for that queue, and a task not yet polled is queued exactly once |
| Executor.SpawnExact | src/kernel/src/task/executor.rs:56-78 | a spawned task is there and last in the queue of its priority, unless that queue holds 100; no other queue or task is touched |
| Executor.SpawnedIsThere | src/kernel/src/task/executor.rs:56-112 | in every run a task that was spawned and never polled is alive and queued exactly once, unless its queue was full when it was spawned |
| Executor.IterateExact | src/kernel/src/task/executor.rs:90-110 | one turn of the loop: stale identifiers are skipped, a ready task is gone with its waker, a pending one stays with its waker, and wakers that fire append their tasks in order as far as they fit |
| Executor.HigherFirst | src/kernel/src/task/executor.rs:84-112 | between a moment at which the scan is at the highest level and a later one at which it is at a lower level, it has found every level above that one empty |
| RoundRobin.TurnRotates | src/kernel/src/task/executor.rs:162-170 | the wake of a yielding task is never dropped: it goes to the end of its queue |
| RoundRobin.ExecutorTurns | src/kernel/src/task/executor.rs:90-110 | a poll of a yielding task by the executor is a turn of the ring and leaves other levels alone |
| RoundRobin.RunFollows | src/kernel/src/task/executor.rs:84-112 | with wakers of other levels firing at any time, the executor's polls are those of a round-robin queue, in order and with the same results, until it leaves the level |
| RoundRobin.ExecutorFair | src/kernel/src/task/executor.rs:90-110 | in such a run, between two consecutive polls of a task every other task then queued at its level is polled exactly once, in queue order, and nobody else |
| RoundRobin.ExecutorDrains | src/kernel/src/task/executor.rs:89-110 | the executor can leave a level whose tasks finish after n_i yields exactly when it has polled the sum of (n_i + 1) times |
| RoundRobin.NoLowerLevel | src/kernel/src/task/executor.rs:84-112 | while a task that yields forever is queued, the scan never leaves its level, whatever wakers of other levels fire |
| ExecutorObject.YieldNow.Poll | src/kernel/src/task/mod.rs:28-36 | pending once after waking itself, then ready |
| ExecutorObject.TaskExecutor.constructor | src/kernel/src/task/executor.rs:37-48 | starts in the initial state of the state machine |
| ExecutorObject.TaskExecutor.Spawn | src/kernel/src/task/executor.rs:56-78 | the task is in the table and last in its queue, or dropped when its queue is full; one spawn step of the state machine |
| ExecutorObject.TaskExecutor.Wake | src/kernel/src/task/executor.rs:167-170 | one firing of a waker |
| ExecutorObject.TaskExecutor.PollNext | src/kernel/src/task/executor.rs:90-110 | the loop body is one enabled iteration of the state machine |
| ExecutorObject.TaskExecutor.DrainLevel | src/kernel/src/task/executor.rs:90-110 | the inner loop polls until its level is empty |
| ExecutorObject.TaskExecutor.RunReadyTasks | src/kernel/src/task/executor.rs:84-112 | the nested loops take a run of the state machine, so `Executor.RunIsSafe` applies; polls get the answers in order; the scan ends only after it found each of the four levels empty |
| ReceiveRing.StepKeepsInv | src/kernel/src/net/e1000.rs:230-254 | every access of driver or device keeps each of the 64 slots either holding its frame with DD set, or free |
| ReceiveRing.RefinesFifo | src/kernel/src/net/e1000.rs:189-254 | in every interleaving RDT is rx_cur - 1 going round; between operations DD is set exactly from rx_cur up to RDH, and the frames returned followed by the frames lying there are the frames the device stored |
| ReceiveRing.ReceivesOldest | src/kernel/src/net/e1000.rs:230-254 | receive_raw answers None if and only if nothing is waiting, and otherwise returns the oldest frame |
| TransmitRing.StepKeepsInv | src/kernel/src/net/e1000.rs:211-228 | every access of driver or device keeps each slot either in flight with its frame, DD clear and EOP, IFCS and RS set, or free |
| TransmitRing.SentInOrder | src/kernel/src/net/e1000.rs:173-228 | in every interleaving the frames sent are a byte-exact prefix of the frames accepted, each in one packet with a checksum, and the rest are exactly the at most 64 slots with DD clear |
| TransmitRing.InFlightUntouched | src/kernel/src/net/e1000.rs:216-219 | no step overwrites a frame in flight |
| TransmitRing.TokenNeverLoses | src/kernel/src/net/e1000.rs:267-297 | a frame of at most 2048 bytes sent with a token from transmit is accepted, however the device is interleaved between the test for the token, its use and the end of the call |
| TransmitRing.DeviceCanAdvanceIff | src/kernel/src/net/e1000.rs:223-224 | the device can go on if and only if 1 to 63 frames are in flight |
| TransmitRing.WedgedForever | src/kernel/src/net/e1000.rs:216-224 | once 64 frames are in flight with the device at rest, nothing is sent or accepted any more |
| TransmitRing.BurstWedges | src/kernel/src/net/e1000.rs:211-228 | 64 calls in a row lead there |
| TransmitRing.TransmitIsSteps | src/kernel/src/net/e1000.rs:211-228 | what an uninterrupted call does is what the driver's steps lead to |
| E1000.Driver.constructor | src/kernel/src/net/e1000.rs:97-112 | zeroed descriptors and cursors |
| E1000.Driver.InitTx | src/kernel/src/net/e1000.rs:173-187 | leads to an initial state of the transmit model |
| E1000.Driver.InitRx | src/kernel/src/net/e1000.rs:189-209 | leads to an initial state of the receive model |
| E1000.Driver.TransmitRaw | src/kernel/src/net/e1000.rs:211-228 | accepts if and only if the frame fits and fewer than 64 are in flight; then one descriptor has the length, the command bits 0, 1 and 3 and a clear status, the others are untouched, and the arrays are those of the transmit model |
| E1000.Driver.ReceiveRaw | src/kernel/src/net/e1000.rs:230-254 | does in the arrays what the driver steps add up to, and returns the oldest waiting frame |
| Vga.FullLineThenNewline | src/kernel/src/arch/x86_64/vga.rs:143-171 | a newline after a line of at most 80 characters, also after the 80th, advances one line |
| Vga.TranscriptIsWrappedText | src/kernel/src/arch/x86_64/vga.rs:124-228 | for all commands to a new writer, the lines are the text written since the last clear or since the start, cut at newlines and wrapped at 80 columns, each character in the color in force when it was written |
| Vga.ShownExact | src/kernel/src/arch/x86_64/vga.rs:217-227 | spaces to tildes and newlines are shown as they are, every other byte as 0xFE |
| Vga.ChunksExact | src/kernel/src/arch/x86_64/vga.rs:143-171 | line i of a piece of text holds its characters from 80 i on, 80 of them unless it is the last |
| Vga.Writer.constructor | src/kernel/src/arch/x86_64/vga.rs:124-133 | starts on any screen, with nothing written |
| Vga.Writer.SetColor | src/kernel/src/arch/x86_64/vga.rs:136-138 | changes the color of later writes, foreground in the low and background in the high four bits, and nothing on the screen |
| Vga.Writer.ScrollUp | src/kernel/src/arch/x86_64/vga.rs:175-185 | the in-place loops move every row up by one |
| Vga.Writer.ClearRow | src/kernel/src/arch/x86_64/vga.rs:191-205 | blanks one row in the current color and no other |
| Vga.Writer.NewLine | src/kernel/src/arch/x86_64/vga.rs:174-188 | the screen shows the last 25 lines of the transcript with one more line |
| Vga.Writer.WriteByte | src/kernel/src/arch/x86_64/vga.rs:143-171 | the screen shows the last 25 lines of the transcript with one more character |
| Vga.Writer.WriteStr | src/kernel/src/arch/x86_64/vga.rs:216-228 | the same for a string, with a placeholder for what cannot be printed |
| Vga.Writer.ClearScreen | src/kernel/src/arch/x86_64/vga.rs:208-213 | the screen shows a blank transcript in the current color |
| Frames.UsableFramesExact | src/kernel/src/memory.rs:67-77 | the flattened list holds exactly the usable frames, each once |
| Frames.FramesInOrder | src/kernel/src/memory.rs:67-77 | the frames of a region come in the order of their addresses, one every 4096 bytes |
| Frames.AllocationsDiffer | src/kernel/src/memory.rs:81-85 | different calls return different frames, all in usable memory |
| Frames.BootInfoFrameAllocator.AllocateFrame | src/kernel/src/memory.rs:81-85 | the n-th call returns the n-th usable frame, and None once they are used up |
| Frames.BootInfoFrameAllocator.FindNth | src/kernel/src/memory.rs:67-82 | walking the regions finds the n-th element of the flattened list |
| Frames.MapPage | src/kernel/src/allocator.rs:38-49 | one page keeps the frames of pages and of page tables apart; it fails only when memory is used up or map_to fails |
| Frames.MapHeap | src/kernel/src/allocator.rs:30-50 | the heap pages get pairwise distinct usable frames, none of them used for a page table, however many table frames are drawn in between; it fails only when memory is used up or map_to fails |
| Frames.HeapPagesCover | src/kernel/src/allocator.rs:30-36 | the heap is 256 pages and every heap address lies in one |

## Left out

- HostCalls.Call: running out of kernel heap while a buffer is allocated is not modelled; the calls on mutexes and semaphores and sp_fs_size exist as functions on values only.
- HostFuel.SliceBound: instruction fuel of the WASM interpreter, which is foreign code, is not modelled.
- Confinement.Confined: assumes that the grants of a new process name open handles, that its identifier is new, and that the handle counters stay apart, which `RamFsHandles.RoomyByCount` puts in numbers.
- Executor.RunIsSafe: task identifiers are unbounded; the wrap of their 64-bit counter is not modelled.
- ExecutorObject.TaskExecutor.RunReadyTasks: stops when its script of poll answers is used up, because the loop of the source need not end.
- HandOff.RunLosesIff: each poll, release and drop is one step and a compare-exchange does not fail spuriously; interleaved accesses are the subject of `WakeUps`, for the mutex only.
- HandOff.CourteousRun: the same granularity.
- SyncObjects.AsyncMutexObject.Poll: one uninterrupted execution; interleavings are in `AsyncMutex`.
- SyncObjects.SemaphoreObject.TryAcquire: one uninterrupted execution; interleavings are in `Semaphore`.
- ReceiveRing.RefinesFifo: frames of more than 2048 bytes, which would need several descriptors, are not modelled.
- E1000.Driver.TransmitRaw: physical addresses, the device reset, the MAC address and the remaining registers are not modelled.
- Semaphore.ConservesIff: `current + 1` wraps and the debug assertion of with_max is absent, as in builds without these checks; with them such calls are panics.
- Frames.BootInfoFrameAllocator.AllocateFrame: the call counter is unbounded.
- RoundRobin.RunFollows: tasks of the scanned level wake only through yield_now.
- Resumption of a WASM task after a yield: the task returns pending without arranging a wake, so there is nothing to prove.
- Weak memory orderings, spin locks and the linked-list heap.
- The network stack, DHCP, DNS, sockets, interrupts, PCI, serial port, keyboard and shell: thin layers or hardware access.
- The kernel's own capability table and the registry of sync objects: plain maps.
