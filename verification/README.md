# NachOS 4.0, modelled and verified

NachOS is a small teaching kernel together with the simulated machine it runs on. This project models its
central parts in Dafny and proves what they are for:

- **The disk file system** (`Bits`, `Bitmap`, `BitmapWords`, `DiskFormat`, `OpenFile`, `Directory`,
  `FileSystemSpec`, `FileSystem`, `FileSystemOps`). The free-sector bitmap and the directory are files on the disk
  they describe. Consistency is stated on the raw bytes of the 1024 sectors, decoded; formatting establishes it and
  every Create, Remove and write keeps it. Create is all or nothing.
- **Threads and synchronisation** (`Kernel`, `KernelCode`, `KernelRuns`, `SynchList`, `SynchListRuns`). Step
  machines for any number of threads in any interleaving: semaphores, the scheduler and thread switching; and locks,
  condition variables and the synchronised list on top, each at the grain at which a context switch could happen.
- **The interrupt clock** (`Interrupt`, `InterruptCode`, `InterruptTicks`), for arbitrary interrupt handlers.
- **The MIPS processor** (`Memory`, `MipsInstructions`, `InstructionMeaning`, `ArithmeticMeaning`, `Mips`,
  `MipsCode`, `Pipeline`, `LoadDelay`, `Unaligned`, `Mult`, `Assembler`): address translation, what every instruction
  gives, delay slots, traps, unaligned access, multiplication.
- **Devices and their drivers** (`DeviceProtocol`, `DeviceRuns`, `Devices`, `DiskTiming`, `DiskCode`, `Post`,
  `PostCode`, `PostRuns`): the synchronous disk, disk latency and track buffer, and the post office.
- **Containers** (`List`, `Hash`, `Sequences`): linked lists on the heap, the self-expanding hash table.

Check everything with `dafny verify dfyconfig.toml`.

## How the model is built

Where the source updates objects in place the model has a class with the same fields, and each method states its new
state by a specification function; the properties are then lemmas about those functions. Protocols between threads
and interrupts are state machines: one step is a stretch of code that runs with interrupts off, a run is any
sequence of enabled steps, and an ASSERT of the source is a condition `Safe` proved of every step of every run. What
the machines keep in their own fields is also counted on the steps of the runs (`SynchListRuns`, `KernelRuns`,
`DeviceRuns`, `PostRuns`): how many Vs were made, which items were put, which requests each call made.

Things the source leaves open are parameters: the memory of uninitialised objects (the `junk` arguments), the
reaction of interrupt handlers, the kernel's handling of a trap, which packets the network loses. Words of the
processor are numbers below 2^32, and masks and shifts by whole bytes are written as division and remainder; C's
truncating division, arithmetic right shift and wrap-around are written out. The load-delay theorems are proved for
any instruction set whose effects depend on the registers it names (`Regular`), and then for this one.

## Where code and documentation differ

- `lib/hash.cc` describes an array of sorted lists; the buckets are plain lists, searched linearly.
- SRL and SRLV are documented as logical shifts but shift a signed int (`machine/mipssim.cc:520-530`);
  `LogicalShift` says exactly when this shows.
- `NetworkOutput::Send` asserts that `sendBusy` is false, but nothing ever sets it. That only one packet is under way
  follows from the lock and the semaphore of the post office, which is what `DeviceProtocol` proves.

## Model

| member | source | states |
|---|---|---|
| `BitmapModel.MarkOnlyOne` | Source/NachOS-4.0/code/lib/bitmap.cc:55-80 | Marking a bit sets it and marking or clearing changes no other bit of the packed words |
| `BitmapModel.BitsDetermine` | Source/NachOS-4.0/code/lib/bitmap.cc:89-99 | Two bitmaps that answer every Test alike have the same words |
| `BitmapModel.FirstClear` | Source/NachOS-4.0/code/lib/bitmap.cc:110-120 | FindAndSet looks at the lowest clear bit: everything below it is set; -1 exactly when no bit is clear |
| `BitmapModel.NumClearMark` | Source/NachOS-4.0/code/lib/bitmap.cc:128-139 | Marking a clear bit lowers the count of clear bits by exactly one |
| `BitmapModel.NumClearPositive` | Source/NachOS-4.0/code/lib/bitmap.cc:110-139 | If the count is positive FindAndSet finds a bit |
| `BitmapModel.GrabTakesClearBits` | Source/NachOS-4.0/code/lib/bitmap.cc:110-120 | k successive calls return k different bits, all clear before; exactly those are set afterwards |
| `BitmapModel.Bitmap.MarkBit` | Source/NachOS-4.0/code/lib/bitmap.cc:55-63 | The class marks bit `which` and no other; the words become those of the specification |
| `BitmapModel.Bitmap.ClearBit` | Source/NachOS-4.0/code/lib/bitmap.cc:72-80 | The class clears bit `which` and no other |
| `BitmapModel.Bitmap.FindAndSet` | Source/NachOS-4.0/code/lib/bitmap.cc:110-120 | Returns the lowest clear bit and marks it, or -1 with the map unchanged |
| `BitmapModel.Bitmap.NumClearBits` | Source/NachOS-4.0/code/lib/bitmap.cc:128-139 | The counting loop returns the number of clear bits |
| `Bytes.IntRoundTrip` | Source/NachOS-4.0/code/lib/bitmap.h:29-56 | A C int stored as four little-endian bytes is read back as itself |
| `DiskFormat.ShiftFindsBit` | Source/NachOS-4.0/code/lib/bitmap.cc:55-99 | A word shifted right by k has bit k as its lowest bit |
| `BitmapWords.MarkIsOr` | Source/NachOS-4.0/code/lib/bitmap.cc:55-63 | On the unsigned words, Mark is map[which / 32] |= 1 << (which % 32) |
| `BitmapWords.ClearIsAndNot` | Source/NachOS-4.0/code/lib/bitmap.cc:72-80 | On the unsigned words, Clear is map[which / 32] &= ~(1 << (which % 32)) |
| `BitmapWords.TestIsAnd` | Source/NachOS-4.0/code/lib/bitmap.cc:89-99 | Test answers whether map[which / 32] & (1 << (which % 32)) is nonzero |
| `DiskFormat.WordsRoundTrip` | Source/NachOS-4.0/code/filesys/pbitmap.cc:62-79 | The bitmap written to its file and fetched again is the same bitmap |
| `DiskFormat.HeaderRoundTrip` | Source/NachOS-4.0/code/filesys/filehdr.cc:83-100 | A file header written to its sector and fetched again is the same header |
| `DiskFormat.EntryRoundTrip` | Source/NachOS-4.0/code/filesys/directory.h:27-39 | A directory entry, padding included, survives encoding and decoding |
| `DiskFormat.TableRoundTrip` | Source/NachOS-4.0/code/filesys/directory.cc:62-79 | The directory table written to its file and fetched again is the same table |
| `FileData.ContentsFrame` | Source/NachOS-4.0/code/filesys/openfile.cc:111-138 | The contents of a file depend on its data sectors only |
| `FileData.Clamp` | Source/NachOS-4.0/code/filesys/openfile.cc:116-121 | The number of bytes transferred: none outside the file, otherwise as many as were asked for, or up to the end of the file if those are fewer |
| `FileData.PiecesCoverFile` | Source/NachOS-4.0/code/filesys/openfile.cc:72-84 | Reading or writing on and on, in whatever pieces, goes through the whole file and stops at its end |
| `FileData.FewestSectors` | Source/NachOS-4.0/code/filesys/filehdr.cc:43-58 | A file gets the fewest sectors that hold its bytes, none if it is empty |
| `FileData.WriteThenRead` | Source/NachOS-4.0/code/filesys/openfile.cc:111-178 | After a write, the bytes written are read back, every other byte of the file is as before, and every file with other sectors reads the same |
| `FileData.SynchDisk.ReadSector` | Source/NachOS-4.0/code/filesys/synchdisk.cc:57-64 | Reads return the sector |
| `FileData.SynchDisk.WriteSector` | Source/NachOS-4.0/code/filesys/synchdisk.cc:75-82 | Writes replace that sector and no other |
| `FileData.FileHeader.FetchFrom` | Source/NachOS-4.0/code/filesys/filehdr.cc:83-87 | The header object becomes what the sector encodes |
| `FileData.FileHeader.WriteBack` | Source/NachOS-4.0/code/filesys/filehdr.cc:96-100 | The sector becomes the encoding of the header, and no other sector changes |
| `FileData.FileHeader.Allocate` | Source/NachOS-4.0/code/filesys/filehdr.cc:43-58 | Succeeds exactly when enough sectors are free; then takes the lowest free sectors, in order; otherwise the bitmap is untouched |
| `FileData.FileHeader.Deallocate` | Source/NachOS-4.0/code/filesys/filehdr.cc:67-74 | Clears exactly the bits of the data sectors; every ASSERT that they were set holds |
| `FileData.FileHeader.ByteToSector` | Source/NachOS-4.0/code/filesys/filehdr.cc:112-116 | The sector that holds the byte at the offset |
| `FileData.OpenFile.constructor` | Source/NachOS-4.0/code/filesys/openfile.cc:28-34 | Opening loads the header in the given sector, at position 0 |
| `FileData.OpenFile.ReadAt` | Source/NachOS-4.0/code/filesys/openfile.cc:111-138 | Transfers all bytes asked for, or all up to the end of the file, exactly that slice of it; nothing else in the caller's buffer changes |
| `FileData.OpenFile.WriteAt` | Source/NachOS-4.0/code/filesys/openfile.cc:140-178 | Splices all bytes given, or all up to the end of the file, into it, through partial first and last sectors; no other byte of any sector of another file changes |
| `FileData.OpenFile.Read` | Source/NachOS-4.0/code/filesys/openfile.cc:72-77 | Reads the next bytes and advances the position by the count |
| `FileData.OpenFile.Write` | Source/NachOS-4.0/code/filesys/openfile.cc:79-84 | Writes at the position and advances it by the count |
| `FileData.StoredIsWrote` | Source/NachOS-4.0/code/filesys/openfile.cc:152-177 | Writing back whole sectors from a buffer that keeps the old edges is the byte-granular write |
| `DirectoryModel.MatchIsKeyEquality` | Source/NachOS-4.0/code/filesys/directory.cc:89-96 | strncmp on the stored name finds an entry exactly when the names agree on their first 9 characters |
| `DirectoryModel.IndexOf` | Source/NachOS-4.0/code/filesys/directory.cc:89-96 | The first entry in use whose name matches, or -1 when there is none; the entries before it do not match |
| `DirectoryModel.FreeSlot` | Source/NachOS-4.0/code/filesys/directory.cc:128-142 | The first entry not in use, or -1 when the table is full |
| `DirectoryModel.AddKeepsDistinct` | Source/NachOS-4.0/code/filesys/directory.cc:128-142 | Adding a name not yet present keeps all names in use distinct, and the new name is found in the slot it went to |
| `DirectoryModel.Directory.FindIndex` | Source/NachOS-4.0/code/filesys/directory.cc:89-96 | The loop returns the index of the specification |
| `DirectoryModel.Directory.Find` | Source/NachOS-4.0/code/filesys/directory.cc:107-115 | The sector of the named file, or -1 |
| `DirectoryModel.Directory.Add` | Source/NachOS-4.0/code/filesys/directory.cc:128-142 | Fails on a present name or a full table without change; otherwise fills the first free slot |
| `DirectoryModel.Directory.Remove` | Source/NachOS-4.0/code/filesys/directory.cc:152-161 | Fails on an absent name without change; otherwise frees that entry only |
| `DirectoryModel.Directory.FetchFrom` | Source/NachOS-4.0/code/filesys/directory.cc:62-66 | The table becomes what the directory file encodes |
| `DirectoryModel.Directory.WriteBack` | Source/NachOS-4.0/code/filesys/directory.cc:75-79 | The directory file becomes the encoding of the table |
| `DirectoryModel.FetchBitmap` | Source/NachOS-4.0/code/filesys/pbitmap.cc:62-66 | The bitmap becomes what the bitmap file encodes |
| `DirectoryModel.WriteBitmap` | Source/NachOS-4.0/code/filesys/pbitmap.cc:75-79 | The bitmap file becomes the encoding of the bitmap |
| `FileSystemSpec.GrabBits` | Source/NachOS-4.0/code/filesys/filesys.cc:232-250 | The header sector and data sectors Create takes were all free and are all different; exactly those bits get set; the free count drops by one plus the data sectors |
| `FileSystemSpec.CreateKeepsSound` | Source/NachOS-4.0/code/filesys/filesys.cc:220-262 | After Create: marked bits are again exactly the owned sectors, no sector has two owners, names are distinct, the free count is lower by 1 + ceil(size/128) |
| `FileSystemSpec.DeleteKeepsSound` | Source/NachOS-4.0/code/filesys/filesys.cc:305-335 | After Remove: the same, and the name is gone |
| `FileSystemModel.ConsistentIsApart` | Source/NachOS-4.0/code/filesys/filesys.cc:94-125 | On a consistent disk the bitmap and directory files own sectors apart from each other and from both header sectors |
| `FileSystemModel.FormattedIsConsistent` | Source/NachOS-4.0/code/filesys/filesys.cc:84-139 | A freshly formatted disk, decoded from its raw bytes, is a consistent empty file system |
| `FileSystemOps.FormattedIsEmpty` | Source/NachOS-4.0/code/filesys/filesys.cc:84-139 | After a format no name is listed and 1019 sectors are free |
| `FileSystemModel.CreateKeepsConsistent` | Source/NachOS-4.0/code/filesys/filesys.cc:220-262 | A successful Create leads from a consistent disk to a consistent disk |
| `FileSystemModel.DeleteKeepsConsistent` | Source/NachOS-4.0/code/filesys/filesys.cc:305-335 | A successful Remove leads from a consistent disk to a consistent disk |
| `FileSystemModel.WriteKeepsConsistent` | Source/NachOS-4.0/code/filesys/openfile.cc:140-178 | Writing into a listed file leaves the file system consistent |
| `FileSystemModel.CreateSemantics` | Source/NachOS-4.0/code/filesys/filesys.cc:220-262 | Looking any name up after Create: the new name has a file of the requested length, every other name has the contents it had |
| `FileSystemModel.RemoveSemantics` | Source/NachOS-4.0/code/filesys/filesys.cc:305-335 | Looking any name up after Remove: that name is absent, every other name has the contents it had |
| `FileSystemModel.WriteSemantics` | Source/NachOS-4.0/code/filesys/openfile.cc:140-178 | Looking any name up after a write: that file is spliced, every other name has the contents it had |
| `FileSystemModel.CreateThenRemove` | Source/NachOS-4.0/code/filesys/filesys.cc:220-335 | Create followed by Remove of the name restores the free map and every lookup |
| `FileSystemModel.EveryRunConsistent` | Source/NachOS-4.0/code/filesys/filesys.cc:84-335 | In every run of Creates, Removes and writes after a format, successful or not, every disk on the way is consistent |
| `FileSystemOps.FileSystem.Format` | Source/NachOS-4.0/code/filesys/filesys.cc:84-139 | Whatever the disk and the uninitialised objects held, the format code produces the formatted disk and opens both files |
| `FileSystemOps.FileSystem.Create` | Source/NachOS-4.0/code/filesys/filesys.cc:220-262 | Succeeds exactly when name, slot and space allow it; on success the disk is the created one, on every failing path it is unchanged in every byte |
| `FileSystemOps.FileSystem.Remove` | Source/NachOS-4.0/code/filesys/filesys.cc:305-335 | Succeeds exactly when the name is listed; on success the disk is the one with it deleted, otherwise unchanged |
| `FileSystemOps.FileSystem.Load` | Source/NachOS-4.0/code/filesys/filesys.cc:228-240 | Each operation reads back exactly the table and bitmap the one before wrote |
| `FileSystemOps.CreateDecision` | Source/NachOS-4.0/code/filesys/filesys.cc:229-258 | The checks in the order the code makes them decide the same as the closed condition |
| `FileSystemOps.FoundIsPresent` | Source/NachOS-4.0/code/filesys/filesys.cc:314-321 | On a consistent disk Find returns -1 only for an absent name |
| `SynchListMachine.InvIsSafe` | Source/NachOS-4.0/code/threads/synchlist.cc:51-81 | In every state of the invariant no ASSERT is about to fire, RemoveFront does not touch an empty list, no deleted waiter semaphore is used |
| `SynchListMachine.NextKeepsInv` | Source/NachOS-4.0/code/threads/synchlist.cc:51-81 | Every step of every thread inside Append, RemoveFront, Wait, Signal, Broadcast, Acquire and Release keeps the invariant of lock, owner, waiters and list; which items are put and taken is `SynchListHistory.ListIsHistory` |
| `SynchListMachine.EveryRun` | Source/NachOS-4.0/code/threads/synchlist.cc:51-81 | In every interleaving of any number of threads no ASSERT fires, and the items recorded as put are those recorded as taken, followed by the list; `SynchListHistory.ListIsHistory` ties the records to the calls |
| `SynchListMachine.AloneInside` | Source/NachOS-4.0/code/threads/synch.cc:181-203 | At most one thread is between P's decrement in Acquire and V's increment in Release |
| `SynchListMachine.HolderIsAloneInside` | Source/NachOS-4.0/code/threads/synch.h:78-79 | lockHolder, when set, is that one thread, so IsHeldByCurrentThread is never wrongly true |
| `SynchListMachine.NoLostSignal` | Source/NachOS-4.0/code/threads/synch.cc:244-283 | With waiters queued, the items on the list are covered by waiters already signalled, an appender about to signal and a remover inside; with the lock free, by signalled waiters alone, none of them asleep |
| `SynchListMachine.StuckOnlyWhenEmpty` | Source/NachOS-4.0/code/threads/synchlist.cc:71-81 | If nobody can move, the lock is free with an empty queue and threads wait for items only because there is none |
| `SynchListMachine.BroadcastDrains` | Source/NachOS-4.0/code/threads/synch.cc:292-297 | Nobody else changes waitQueue during a Broadcast, and each pass takes one waiter off |
| `SynchListMachine.BroadcastEnds` | Source/NachOS-4.0/code/threads/synch.cc:292-297 | In every run, from the loop with n waiters, exactly 2n + 1 of the broadcaster's own steps lead to Release with the queue empty, whatever others do in between |
| `SynchListHistory.ListIsHistory` | Source/NachOS-4.0/code/threads/synchlist.cc:51-81 | In every run the list is the items put on it by the Append steps so far, less as many from the front as RemoveFront steps have taken |
| `SynchListHistory.TakenInOrder` | Source/NachOS-4.0/code/threads/synchlist.cc:71-81 | The n-th removal gets the n-th item put on the list |
| `SynchListHistory.ReturnedCallActedOnce` | Source/NachOS-4.0/code/threads/synchlist.cc:51-81 | A call that has returned has acted exactly once: an Append has put its own item, a RemoveFront has taken the front, a Broadcast has left nobody waiting |
| `SynchListHistory.PutIsCalled` | Source/NachOS-4.0/code/threads/synchlist.cc:51-61 | Whatever is put on the list is the item of the Append call its thread is in |
| `SynchListHistory.WaitersInOrder` | Source/NachOS-4.0/code/threads/synch.cc:244-297 | Who is signalled came to the condition before everybody still waiting |
| `SynchListHistory.LockInOrder` | Source/NachOS-4.0/code/threads/synch.cc:181-203 | The lock's queue is served from the front, and whoever leaves the lock takes its front off |
| `KernelMachine.InvIsSafe` | Source/NachOS-4.0/code/threads/scheduler.cc:56-167 | No ASSERT fires: a thread is never put on a list it is on, toBeDestroyed is NULL at a finishing Run, the destroyed thread is on no list and not current |
| `KernelMachine.NextKeepsInv` | Source/NachOS-4.0/code/threads/thread.cc:91-255 | Every step of V, P, Yield, Fork, Finish, Sleep and the code after SWITCH keeps every thread in one place and every semaphore in balance |
| `KernelMachine.EveryRun` | Source/NachOS-4.0/code/threads/thread.cc:91-255 | In every run, with handlers interleaved, both invariants hold and no ASSERT fires |
| `KernelMachine.SemVSem` | Source/NachOS-4.0/code/threads/synch.cc:102-117 | V keeps the balance of value, recorded Vs and recorded Ps, and the bound on the value while threads are queued; `KernelHistory.ValueCounts` ties the records to the steps |
| `KernelMachine.PassPSem` | Source/NachOS-4.0/code/threads/synch.cc:75-92 | A pass of P's loop, with barging, keeps the same |
| `KernelMachine.AvailableMeansAwake` | Source/NachOS-4.0/code/threads/synch.cc:75-117 | With the value positive and threads queued, a popped thread is on the ready list or just switched to, about to test again |
| `KernelMachine.BuriedIsGone` | Source/NachOS-4.0/code/threads/scheduler.cc:160-167 | After CheckToBeDestroyed nothing refers to the destroyed thread |
| `KernelMachine.ExactlyOnePlace` | Source/NachOS-4.0/code/threads/thread.cc:146-255 | Every live thread is exactly one of running, ready, blocked on one semaphore, finishing; no list has it twice |
| `KernelMachine.NobodyOvertakes` | Source/NachOS-4.0/code/threads/scheduler.cc:56-84 | The ready list is served in order: a scheduling step runs its front, everybody else moves up one place, other steps change no place |
| `KernelMachine.WokenInOrder` | Source/NachOS-4.0/code/threads/synch.cc:102-117 | V wakes the thread that went to sleep first and puts it at the end of the ready list |
| `KernelHistory.ValueCounts` | Source/NachOS-4.0/code/threads/synch.cc:75-117 | In every run a semaphore's value is its initial one plus the number of V steps less the number of steps that completed a P |
| `KernelHistory.PassesExactly` | Source/NachOS-4.0/code/threads/synch.cc:75-92 | A test in P goes on, one lower, exactly when the value is positive; otherwise the thread is asleep at the end of the queue |
| `KernelHistory.BirthAndDeath` | Source/NachOS-4.0/code/threads/thread.cc:91-181 | Threads appear in Fork and disappear only after a switch, exactly those that have finished |
| `KernelHistory.OnlyCurrentMoves` | Source/NachOS-4.0/code/threads/thread.cc:171-255 | Only the current thread gets anywhere, and it gets where its call takes it |
| `KernelHistory.GoesToTheEnd` | Source/NachOS-4.0/code/threads/thread.cc:91-217 | A forked thread, and one that yields, is READY at the end of the ready list |
| `KernelHistory.FinishIsFinal` | Source/NachOS-4.0/code/threads/thread.cc:171-181 | A finishing thread has called Finish and never runs its code again |
| `KernelHistory.DeathFollowsFinish` | Source/NachOS-4.0/code/threads/scheduler.cc:160-167 | No thread is destroyed that has not called Finish |
| `KernelCode.Kernel.constructor` | Source/NachOS-4.0/code/threads/scheduler.cc:32-36 | The first thread runs, nothing is ready, every semaphore has its initial value |
| `KernelCode.Kernel.ReadyToRun` | Source/NachOS-4.0/code/threads/scheduler.cc:56-64 | The thread becomes READY at the end of the ready list |
| `KernelCode.Kernel.FindNextToRun` | Source/NachOS-4.0/code/threads/scheduler.cc:74-84 | Pops the front of the ready list, or answers NULL |
| `KernelCode.Kernel.Run` | Source/NachOS-4.0/code/threads/scheduler.cc:103-133 | Up to SWITCH: records the finishing thread, makes the next thread current and RUNNING |
| `KernelCode.Kernel.CheckToBeDestroyed` | Source/NachOS-4.0/code/threads/scheduler.cc:160-167 | Deletes the recorded thread |
| `KernelCode.Kernel.V` | Source/NachOS-4.0/code/threads/synch.cc:102-117 | Increments the value, and moves the longest waiter, if there is one, to the end of the ready list; the invariant holds before and after |
| `KernelCode.Kernel.P` | Source/NachOS-4.0/code/threads/synch.cc:75-92 | With a positive value decrements it and goes on, otherwise goes to sleep at the end of the queue; the invariant holds before and after |
| `KernelCode.Kernel.Yield` | Source/NachOS-4.0/code/threads/thread.cc:201-217 | Switches to the front of the ready list, going to its end; or does nothing |
| `KernelCode.Kernel.Fork` | Source/NachOS-4.0/code/threads/thread.cc:91-106 | The new thread becomes ready |
| `KernelCode.Kernel.Finish` | Source/NachOS-4.0/code/threads/thread.cc:171-181 | The current thread starts its last Sleep |
| `KernelCode.Kernel.SleepFound` | Source/NachOS-4.0/code/threads/thread.cc:239-255 | The end of the idle loop runs the thread found |
| `KernelCode.Kernel.AfterSwitch` | Source/NachOS-4.0/code/threads/scheduler.cc:133-150 | Buries the finished thread, then starts or resumes the thread, which re-tests in P |
| `Sequences.InsertedMembers` | Source/NachOS-4.0/code/lib/list.cc:232-260 | Sorted insertion adds the item and keeps all others |
| `InterruptClock.InsertedOrdered` | Source/NachOS-4.0/code/lib/list.cc:232-260 | Inserting with PendingCompare keeps pending ordered by time and, for equal times, by order of scheduling |
| `InterruptClock.FireIsProgress` | Source/NachOS-4.0/code/machine/interrupt.cc:328-336 | Each turn of the firing loop leaves one due interrupt less, whatever the handler schedules; the clock does not move |
| `InterruptClock.FireDueKeeps` | Source/NachOS-4.0/code/machine/interrupt.cc:328-336 | The loop ends with everything pending in the future, every handler run in order and on time |
| `InterruptClock.TickKeepsInv` | Source/NachOS-4.0/code/machine/interrupt.cc:157-189 | OneTick keeps the invariant |
| `InterruptClock.IdleKeepsInv` | Source/NachOS-4.0/code/machine/interrupt.cc:219-239 | Idle advances to the next interrupt exactly, keeps the invariant, and halts only with nothing pending |
| `InterruptClock.EveryRun` | Source/NachOS-4.0/code/machine/interrupt.cc:132-337 | In every run, with arbitrary handlers: handlers run in order of (when, scheduling), never early and less than SystemTick late; total = idle + system + user |
| `InterruptClock.DueHasFired` | Source/NachOS-4.0/code/machine/interrupt.cc:267-337 | A scheduled interrupt has fired exactly when its time has come, and only once |
| `InterruptClock.StepExtends` | Source/NachOS-4.0/code/machine/interrupt.cc:132-337 | No operation takes back an interrupt scheduled or fired |
| `InterruptTicks.FireDueReacts` | Source/NachOS-4.0/code/machine/interrupt.cc:328-336 | The loop schedules exactly what the handlers it ran requested, in order, notes a switch exactly if one of them asked for it, and does not move the clock |
| `InterruptTicks.TickTicks` | Source/NachOS-4.0/code/machine/interrupt.cc:157-189 | A tick takes 10 in system mode and 1 otherwise, on that mode's counter and the total; everything due has run, interrupts are on, and a yield is due exactly if a handler asked |
| `InterruptTicks.SetLevelTicks` | Source/NachOS-4.0/code/machine/interrupt.cc:132-147 | The level is the one asked for; only turning interrupts on that were off takes a tick, everything else changes nothing but the level |
| `InterruptTicks.IdleAdvances` | Source/NachOS-4.0/code/machine/interrupt.cc:219-239 | Idle takes the clock to the next interrupt on the idle counter and runs it; with none pending nothing changes |
| `InterruptTicks.ScheduleAsks` | Source/NachOS-4.0/code/machine/interrupt.cc:267-276 | One interrupt more is pending, of the kind and at the distance from now asked for; the clock stays |
| `InterruptCode.Interrupt.constructor` | Source/NachOS-4.0/code/machine/interrupt.cc:81-88 | The clock starts at zero with interrupts off and nothing pending |
| `InterruptCode.Interrupt.Schedule` | Source/NachOS-4.0/code/machine/interrupt.cc:267-276 | Inserts the interrupt at now + fromNow |
| `InterruptCode.Interrupt.CheckIfDue` | Source/NachOS-4.0/code/machine/interrupt.cc:290-337 | The do-while loop over the pending list does what the specification says, for any handlers |
| `InterruptCode.Interrupt.OneTick` | Source/NachOS-4.0/code/machine/interrupt.cc:157-189 | Advances the counter of the mode and the total, fires what is due, and reports whether a handler asked for a yield |
| `InterruptCode.Interrupt.SetLevel` | Source/NachOS-4.0/code/machine/interrupt.cc:132-146 | Sets the level and returns the old one; a tick, with the yield it asks for, exactly when interrupts go from off to on |
| `InterruptCode.Interrupt.Idle` | Source/NachOS-4.0/code/machine/interrupt.cc:219-239 | Fires the next interrupt, or asks to halt exactly when none is pending |
| `MemoryModel.WordReadsBack` | Source/NachOS-4.0/code/machine/translate.cc:86-170 | A word written is read back |
| `MemoryModel.FirstHit` | Source/NachOS-4.0/code/machine/translate.cc:229-241 | The TLB loop finds the first valid entry for the page |
| `MemoryModel.Translate` | Source/NachOS-4.0/code/machine/translate.cc:187-265 | A successful translation stays inside main memory: the ASSERT at its end holds |
| `MemoryModel.TranslateExactly` | Source/NachOS-4.0/code/machine/translate.cc:187-265 | An access gets to its offset in the page's frame exactly when it is aligned, mapped, allowed and inside main memory; otherwise it faults for the first of these that fails |
| `MemoryModel.AccessMarks` | Source/NachOS-4.0/code/machine/translate.cc:86-170 | A successful access sets the use bit of the entry, a write the dirty bit, and changes no other entry |
| `MemoryModel.TouchedTranslate` | Source/NachOS-4.0/code/machine/translate.cc:258-260 | Setting use and dirty bits changes no translation |
| `MemoryModel.PhysInWord` | Source/NachOS-4.0/code/machine/translate.cc:195-212 | The four bytes of an aligned word translate to four consecutive bytes |
| `MipsInstructions.OverflowIsExact` | Source/NachOS-4.0/code/machine/mipssim.cc:157-175 | The tests of sign bits behind ADD, ADDI and SUB notice an overflow exactly when the result is no C int; ArithmeticMeaning.SignedAdditions is about the instructions |
| `MipsInstructions.LogicalShift` | Source/NachOS-4.0/code/machine/mipssim.cc:520-530 | SRL and SRLV are logical shifts exactly for non-negative words and shifts by zero; the code shifts a signed int |
| `MipsInstructions.ComputeUses` | Source/NachOS-4.0/code/machine/mipssim.cc:155-689 | Each instruction's effect depends on just the registers it is documented to use, and writes the one it is documented to write |
| `MipsInstructions.MipsIsRegular` | Source/NachOS-4.0/code/machine/mipssim.cc:155-689 | The whole instruction set has that property |
| `InstructionMeaning.AndBits` | Source/NachOS-4.0/code/machine/mipssim.cc:185-191 | AND sets exactly the bits set in both registers |
| `InstructionMeaning.OrBits` | Source/NachOS-4.0/code/machine/mipssim.cc:450-456 | OR sets exactly the bits set in one of the registers |
| `InstructionMeaning.XorBits` | Source/NachOS-4.0/code/machine/mipssim.cc:674-680 | XOR sets exactly the bits in which the registers differ |
| `InstructionMeaning.NorBits` | Source/NachOS-4.0/code/machine/mipssim.cc:446-448 | NOR sets exactly the bits set in neither register |
| `InstructionMeaning.JumpTarget` | Source/NachOS-4.0/code/machine/mipssim.cc:251-255 | J and JAL go to word `extra` of the 256-megabyte region of the delay slot |
| `InstructionMeaning.ByteLoadsExtend` | Source/NachOS-4.0/code/machine/mipssim.cc:263-275 | LB sign-extends the byte, LBU does not |
| `InstructionMeaning.HalfLoadsExtend` | Source/NachOS-4.0/code/machine/mipssim.cc:277-293 | LH sign-extends the half word, LHU does not |
| `InstructionMeaning.StoreReadsBack` | Source/NachOS-4.0/code/machine/translate.cc:86-170 | What a store of one, two or four bytes wrote is read back by a read of that size |
| `InstructionMeaning.StoreStaysInside` | Source/NachOS-4.0/code/machine/translate.cc:151-167 | A store changes no byte outside its range |
| `InstructionMeaning.QuotientFacts` | Source/NachOS-4.0/code/machine/mipssim.cc:227-235 | The quotient rounds toward zero: the remainder is smaller than the divisor and has the sign of the dividend |
| `InstructionMeaning.DivisionIsExact` | Source/NachOS-4.0/code/machine/mipssim.cc:227-235 | For a divisor not zero, LO times divisor plus HI is the dividend, except exactly for INT_MIN / -1 |
| `ArithmeticMeaning.SignedAdditions` | Source/NachOS-4.0/code/machine/mipssim.cc:157-540 | ADD, ADDI and SUB give the exact sum or difference of C ints, and trap exactly when it is none |
| `ArithmeticMeaning.WrappingAdditions` | Source/NachOS-4.0/code/machine/mipssim.cc:177-544 | ADDU, ADDIU and SUBU give it modulo 2^32 and never trap |
| `ArithmeticMeaning.Comparisons` | Source/NachOS-4.0/code/machine/mipssim.cc:479-509 | SLT and SLTI compare C ints, SLTU and SLTIU unsigned words, rs with rt or the immediate |
| `ArithmeticMeaning.UpperHalf` | Source/NachOS-4.0/code/machine/mipssim.cc:295-298 | LUI moves the bits of the immediate up by 16 |
| `ArithmeticMeaning.LeftShifts` | Source/NachOS-4.0/code/machine/mipssim.cc:470-477 | SLL and SLLV move the bits of rt up, by the shift amount or the low five bits of rs |
| `ArithmeticMeaning.RightShifts` | Source/NachOS-4.0/code/machine/mipssim.cc:511-530 | SRA, SRAV, SRL and SRLV move the bits of rt down and copy its sign in from the top |
| `ArithmeticMeaning.ImmediateBits` | Source/NachOS-4.0/code/machine/mipssim.cc:189-680 | ANDI, ORI and XORI act bit by bit on rs and the low half of the immediate |
| `ArithmeticMeaning.Moves` | Source/NachOS-4.0/code/machine/mipssim.cc:420-426 | MFHI and MFLO give HI and LO |
| `ArithmeticMeaning.MovesTo` | Source/NachOS-4.0/code/machine/mipssim.cc:428-434 | MTHI and MTLO set one of HI and LO and keep the other |
| `ArithmeticMeaning.SignedProduct` | Source/NachOS-4.0/code/machine/mipssim.cc:436-439 | HI and LO after MULT are the signed product as 64-bit two's complement |
| `ArithmeticMeaning.UnsignedProduct` | Source/NachOS-4.0/code/machine/mipssim.cc:441-444 | HI and LO after MULTU are the exact unsigned product |
| `ArithmeticMeaning.UnsignedDivision` | Source/NachOS-4.0/code/machine/mipssim.cc:227-249 | LO times the divisor plus HI is the dividend after DIVU, with HI below the divisor; dividing by zero clears both |
| `ArithmeticMeaning.SignedRemainder` | Source/NachOS-4.0/code/machine/mipssim.cc:227-235 | HI after DIV is smaller than the divisor and has the sign of the dividend |
| `Pipeline.ExtraMeans` | Source/NachOS-4.0/code/machine/mipssim.cc:726-745 | The immediate is the sign-extended low half of the instruction, the shift amount bits 10 to 6, a jump's field bits 25 to 0 |
| `Pipeline.BranchTarget` | Source/NachOS-4.0/code/machine/mipssim.cc:193-261 | Which comparison takes each branch, and where it goes: signed words from the delay slot if taken, behind it if not; JR and JALR to the register |
| `Pipeline.ArithmeticWrites` | Source/NachOS-4.0/code/machine/mipssim.cc:157-183 | An arithmetic instruction writes rt in the immediate format and rd otherwise, and nothing else; with an overflow no register |
| `Pipeline.JumpLinks` | Source/NachOS-4.0/code/machine/mipssim.cc:198-261 | JAL and the linking branches leave the address behind the delay slot in register 31, JALR in rd, other jumps nothing |
| `Pipeline.HiLoWrites` | Source/NachOS-4.0/code/machine/mipssim.cc:227-444 | Multiplications, divisions and moves change HI and LO only |
| `Pipeline.StoreWrites` | Source/NachOS-4.0/code/machine/mipssim.cc:458-550 | SB, SH and SW put 1, 2 or 4 low bytes of rt at the translated address and change no other byte or register; they trap exactly when the translation fails |
| `Pipeline.OneDelaySlot` | Source/NachOS-4.0/code/machine/mipssim.cc:693-701 | The instruction behind a jump is executed before control gets to the target |
| `Pipeline.LoadPends` | Source/NachOS-4.0/code/machine/mipssim.cc:263-418 | A load changes no register yet; what it read is pending for rt |
| `Pipeline.OneLoadDelay` | Source/NachOS-4.0/code/machine/mipssim.cc:711-718 | Behind the next instruction, whatever it is, the register has the loaded value |
| `Pipeline.LoadFaults` | Source/NachOS-4.0/code/machine/mipssim.cc:263-310 | A load traps exactly when its translation fails, with that exception and address |
| `Pipeline.TrapChangesNothing` | Source/NachOS-4.0/code/machine/machine.cc:100-109 | A trap leaves program counters, HI, LO and memory bytes alone and lands the pending load only |
| `Pipeline.TrapsNamed` | Source/NachOS-4.0/code/machine/mipssim.cc:670-685 | SYSCALL and illegal instructions trap as such; jumps, multiplications and divisions never do |
| `Assembler.DecodeInverts` | Source/NachOS-4.0/code/machine/mipssim.cc:725-762 | Decoding loses nothing: every legal instruction assembles to the word it was decoded from |
| `Mips.OneInstruction` | Source/NachOS-4.0/code/machine/mipssim.cc:120-701 | After every instruction, trapping or not, R0 is zero and a trap leaves no load pending |
| `LoadDelay.SettleFirst` | Source/NachOS-4.0/code/machine/mipssim.cc:711-718 | For an instruction that neither reads nor writes the pending register, landing the load first and executing gives the same state and trap |
| `LoadDelay.PendingLoadWins` | Source/NachOS-4.0/code/machine/mipssim.cc:693-718 | For every instruction that writes the pending register at once (arithmetic, or a jump or branch that links into it) the two orders agree exactly if it writes the loaded value |
| `LoadDelay.Run` | Source/NachOS-4.0/code/machine/mipssim.cc:56-72 | Along every run, interrupted anywhere, R0 is zero before each instruction |
| `LoadDelay.InterruptsAreInvisible` | Source/NachOS-4.0/code/machine/interrupt.cc:323-326 | For every hazard-free run and every choice of interrupted points the program ends in the same registers, counters and memory |
| `LoadDelay.MipsInterruptsAreInvisible` | Source/NachOS-4.0/code/machine/interrupt.cc:323-326 | The same for this instruction set |
| `Multiply.MultiplyUnsigned` | Source/NachOS-4.0/code/machine/mipssim.cc:795-814 | The shift-and-add loop with early exit gives the exact 64-bit product |
| `Multiply.Mult` | Source/NachOS-4.0/code/machine/mipssim.cc:771-828 | hi:lo is the exact product modulo 2^64, signed and unsigned, for all operands including INT_MIN |
| `UnalignedAccess.SplitLeftBytes` | Source/NachOS-4.0/code/machine/mipssim.cc:578-599 | SWL replaces bytes 0 to k of the word by the top bytes of the register |
| `UnalignedAccess.SplitRightBytes` | Source/NachOS-4.0/code/machine/mipssim.cc:637-655 | SWR replaces bytes k to 3 of the word by the low bytes of the register |
| `UnalignedAccess.MergeLeftBytes` | Source/NachOS-4.0/code/machine/mipssim.cc:338-361 | LWL takes the top bytes of the register from bytes 0 to k of the word |
| `UnalignedAccess.MergeRightBytes` | Source/NachOS-4.0/code/machine/mipssim.cc:390-416 | LWR takes the low bytes of the register from bytes k to 3 of the word |
| `UnalignedAccess.BothStoredAt` | Source/NachOS-4.0/code/machine/mipssim.cc:552-668 | SWL then SWR change exactly four bytes, to the register in little-endian order |
| `UnalignedAccess.BothMerged` | Source/NachOS-4.0/code/machine/mipssim.cc:312-418 | LWL then LWR collect those four bytes, whatever the register held |
| `UnalignedAccess.StorePair` | Source/NachOS-4.0/code/machine/mipssim.cc:552-668 | The two store instructions on the machine: no trap, that memory, registers only settled |
| `UnalignedAccess.LoadPair` | Source/NachOS-4.0/code/machine/mipssim.cc:312-418 | The two load instructions, with or without an interrupt between them: no trap, memory unchanged, the register gets the four bytes |
| `UnalignedAccess.UnalignedRoundTrip` | Source/NachOS-4.0/code/machine/mipssim.cc:312-668 | For every address with both words mapped and writable, store then load gives the stored register back and changes exactly bytes a to a+3 |
| `MipsCode.Processor.constructor` | Source/NachOS-4.0/code/machine/machine.cc:55-76 | All registers and memory start at zero |
| `MipsCode.Processor.DelayedLoad` | Source/NachOS-4.0/code/machine/mipssim.cc:711-718 | The register array changes as the specification says; LoadReg stays below 32, so no special register is hit |
| `MipsCode.Processor.RaiseException` | Source/NachOS-4.0/code/machine/machine.cc:100-109 | Records the address and settles the pending load |
| `MipsCode.Processor.Translate` | Source/NachOS-4.0/code/machine/translate.cc:187-265 | The code, TLB loop included, returns the specification's answer and sets use and dirty bits on success only |
| `MipsCode.Processor.ReadMem` | Source/NachOS-4.0/code/machine/translate.cc:86-123 | Value, bits and trap as specified |
| `MipsCode.Processor.WriteMem` | Source/NachOS-4.0/code/machine/translate.cc:138-170 | Memory bytes, bits and trap as specified |
| `MipsCode.Processor.Execute` | Source/NachOS-4.0/code/machine/mipssim.cc:155-689 | The switch does to the registers, memory and table what the specification's effect says, traps included |
| `MipsCode.Processor.OneInstruction` | Source/NachOS-4.0/code/machine/mipssim.cc:120-701 | Fetch, execute, land the load and advance the counters: the whole new state and trap are the specification's |
| `DeviceProtocol.InvIsSafe` | Source/NachOS-4.0/code/machine/disk.cc:113-151 | ASSERT(!active) never fires |
| `DeviceProtocol.StepKeepsInv` | Source/NachOS-4.0/code/filesys/synchdisk.cc:57-94 | Every step of any thread and every interrupt keeps: one thread inside, device and semaphore in the state that thread's place says, device equal to the log replayed |
| `DeviceProtocol.EveryRun` | Source/NachOS-4.0/code/filesys/synchdisk.cc:57-94 | For any number of threads and any completion timing at most one request is outstanding |
| `DeviceProtocol.FreeMeansIdle` | Source/NachOS-4.0/code/filesys/synchdisk.cc:57-82 | With the lock free the device is inactive and the semaphore zero |
| `DeviceProtocol.OwnCompletion` | Source/NachOS-4.0/code/filesys/synchdisk.cc:60-63 | P is passed on the completion of the thread's own request, with the result of that request |
| `DeviceProtocol.NobodySleepsForever` | Source/NachOS-4.0/code/filesys/synchdisk.cc:90-94 | A thread asleep on the semaphore has its own request outstanding, so an interrupt is still to come |
| `DeviceProtocol.NeverStuck` | Source/NachOS-4.0/code/filesys/synchdisk.cc:57-94 | If no thread can step and no interrupt is to come, nobody is in a call: a free lock never has sleepers without somebody awake about to test it |
| `DeviceProtocol.RealTimeOrder` | Source/NachOS-4.0/code/filesys/synchdisk.cc:57-82 | The request of a call that has returned comes before the request of every call that begins later |
| `Devices.ReturnsOwnResult` | Source/NachOS-4.0/code/filesys/synchdisk.cc:57-82 | What a thread returns is the result of its own request, taken and completed between its call and its return |
| `Devices.ReadsSeeLastWrite` | Source/NachOS-4.0/code/filesys/synchdisk.cc:57-64 | The value a finished ReadSector returns is what the last write to the sector wrote, at a moment between call and return |
| `Devices.ReadAfterWrite` | Source/NachOS-4.0/code/filesys/synchdisk.cc:57-82 | A ReadSector that begins after a WriteSector of the sector has returned gets that write's data or that of a later write |
| `Devices.PacketsInOrder` | Source/NachOS-4.0/code/network/post.cc:299-344 | Packets go out whole, in the order the network took them, less those lost; a Send that has returned had its own packet taken during the call |
| `Devices.SendsInOrder` | Source/NachOS-4.0/code/network/post.cc:299-344 | Of two delivered packets, that of a Send which began after the other had returned goes out behind it |
| `DeviceHistory.LogIsRequests` | Source/NachOS-4.0/code/filesys/synchdisk.cc:57-94 | In every run the log is the requests the threads made, an interrupt has come for each but the one under way, and the device is what they make of it |
| `DeviceHistory.OneRequestPerCall` | Source/NachOS-4.0/code/filesys/synchdisk.cc:57-82 | In a call the thread has made its request, once, exactly if it is past the place for it |
| `DeviceHistory.ReturnedCallRequestedOnce` | Source/NachOS-4.0/code/filesys/synchdisk.cc:57-82 | A call that returns has made exactly one request, with the operation it was called with |
| `DiskTiming.TransferStartsAtSector` | Source/NachOS-4.0/code/machine/disk.cc:229-250 | Without a buffer hit the transfer starts on a boundary, when the target sector comes under the head, at its first passage |
| `DiskTiming.LatencyBounds` | Source/NachOS-4.0/code/machine/disk.cc:229-250 | Latency is between 500 and 31,999 ticks and never more than without the buffer |
| `DiskTiming.HitIsBuffered` | Source/NachOS-4.0/code/machine/disk.cc:236-244 | A buffer hit is taken exactly for reads on the current track whose sector has passed completely since the buffer began to fill |
| `DiskTiming.BufferStartedBefore` | Source/NachOS-4.0/code/machine/disk.cc:258-268 | In every sequence of requests, one at a time, bufferInit is a boundary in the past |
| `DiskTiming.EveryRequest` | Source/NachOS-4.0/code/machine/disk.cc:176-268 | Bound, position and hit condition for the next request after any sequence |
| `DiskTiming.LatencyExactly` | Source/NachOS-4.0/code/machine/disk.cc:229-250 | Without a hit the transfer begins when the sector first comes under the head after its arrival, 500 ticks for each track; a hit takes 500 |
| `DiskTiming.HitExactly` | Source/NachOS-4.0/code/machine/disk.cc:236-244 | A read hits exactly when the head is on the track and the sector began to pass between the start of the buffer and now |
| `DiskTiming.BufferSinceSeek` | Source/NachOS-4.0/code/machine/disk.cc:258-268 | After any requests the buffer has been filling since the first sector boundary after the last arrival at another track |
| `DiskCode.Disk.UpdateLast` | Source/NachOS-4.0/code/machine/disk.cc:258-268 | Moves the head, and restarts the buffer exactly on a seek |
| `DiskCode.Disk.ReadRequest` | Source/NachOS-4.0/code/machine/disk.cc:113-131 | Transfers the sector at once, becomes active, answers the latency |
| `DiskCode.Disk.WriteRequest` | Source/NachOS-4.0/code/machine/disk.cc:133-151 | Replaces that sector only, becomes active, answers the latency |
| `DiskCode.Disk.CallBack` | Source/NachOS-4.0/code/machine/disk.cc:158-163 | Becomes inactive; nothing else changes |
| `PostOffice.WireRoundTrip` | Source/NachOS-4.0/code/network/post.cc:312-318 | Headers and payload put on the wire by Send are what the worker reads from it |
| `PostOffice.InvIsSafe` | Source/NachOS-4.0/code/network/post.cc:209-211 | With packets long enough for their mail no ASSERT of the driver or the worker fires |
| `PostOffice.NextKeepsInv` | Source/NachOS-4.0/code/network/post.cc:190-216 | Every step keeps: undelivered packets are the worker's, the buffered one and the socket's, in order; per box taken plus queued is the delivered mail |
| `PostOffice.EveryRun` | Source/NachOS-4.0/code/network/post.cc:97-137 | In every run of packets long enough for the mail they announce, each arrived packet is delivered once, to its box, in order, intact |
| `PostOffice.BufferAndSemaphoreAgree` | Source/NachOS-4.0/code/machine/network.cc:60-103 | The one-packet buffer is not overwritten while full, and messageAvailable is up, or the worker on its way, exactly then |
| `PostOffice.AllDelivered` | Source/NachOS-4.0/code/network/post.cc:190-216 | When everything has gone through, the boxes and readers have all the mail that arrived |
| `PostHistory.MailArrives` | Source/NachOS-4.0/code/network/post.cc:190-216 | In every run what readers of a box have got, followed by its contents, is the mail for it among the packets that arrived first, one for each time the worker put mail |
| `PostHistory.NothingStuck` | Source/NachOS-4.0/code/network/post.cc:190-216 | Each packet needs exactly four steps; while any is under way one of them can be taken, and with none all has been delivered |
| `PostOffice.SentIsProper` | Source/NachOS-4.0/code/network/post.cc:299-318 | Packets made by Send are long enough for their mail |
| `PostOffice.IntactExactly` | Source/NachOS-4.0/code/machine/network.cc:60-103 | A packet that passes the checks is delivered intact, whatever the worker's buffer held before, exactly when it is at least as long as a mail header and the mail it announces |
| `PostOffice.EmptyPacketRedelivers` | Source/NachOS-4.0/code/machine/network.cc:93-103 | A run from the start in which an empty packet, which Send cannot make, arrives after a good one and makes the worker deliver that mail again |
| `PostCode.PostOfficeInput.CallBack` | Source/NachOS-4.0/code/machine/network.cc:60-86 | The poll updates header, inbox and semaphore as the step says and keeps the invariant |
| `PostCode.PostOfficeInput.Receive` | Source/NachOS-4.0/code/machine/network.cc:93-103 | Empties the inbox into the worker's buffer |
| `PostCode.PostOfficeInput.Put` | Source/NachOS-4.0/code/network/post.cc:203-215 | Appends the mail to its box |
| `PostCode.PostOfficeInput.Get` | Source/NachOS-4.0/code/network/post.cc:119-137 | Takes the oldest mail of the box |
| `Hashing.MoveKeeps` | Source/NachOS-4.0/code/lib/hash.cc:145-150 | Moving one item keeps every item in exactly one of the two tables, in its proper bucket |
| `Hashing.SharedBucket` | Source/NachOS-4.0/code/lib/hash.cc:87-95 | Keys share a bucket exactly when their hash values differ by a multiple of the size |
| `Hashing.VisitsEachOnce` | Source/NachOS-4.0/code/lib/hash.cc:331-360 | The iterator's order has every item of the map and has it once |
| `Hashing.InsertKeeps` | Source/NachOS-4.0/code/lib/hash.cc:108-124 | Appending an item with a new key to its bucket represents the map with that key added |
| `Hashing.RemoveKeeps` | Source/NachOS-4.0/code/lib/hash.cc:208-223 | Removing from the bucket represents the map without the key |
| `Hashing.HashTable.Find` | Source/NachOS-4.0/code/lib/hash.cc:190-198 | Answers as the map does |
| `Hashing.HashTable.FindInBucket` | Source/NachOS-4.0/code/lib/hash.cc:166-181 | The search of one bucket answers for the whole map |
| `Hashing.HashTable.ReHash` | Source/NachOS-4.0/code/lib/hash.cc:134-153 | The map is unchanged, the table four times larger, and both sanity checks pass |
| `Hashing.TotalIsSize` | Source/NachOS-4.0/code/lib/hash.cc:270-288 | The sizes of the buckets add up to the number of items in the map |
| `Hashing.HashTable.SanityCheck` | Source/NachOS-4.0/code/lib/hash.cc:270-288 | Neither ASSERT fails: every item is in the bucket it hashes to, and numItems is the number found |
| `Hashing.HashTable.Insert` | Source/NachOS-4.0/code/lib/hash.cc:108-124 | The map gains the item; the table grows, four times, exactly when it has three items a bucket |
| `Hashing.HashTable.Remove` | Source/NachOS-4.0/code/lib/hash.cc:208-223 | Returns the item of the key and drops it from the map |
| `Hashing.HashIterator.IsDone` | Source/NachOS-4.0/code/lib/hash.h:108 | Done exactly when every item of the order has been visited |
| `Hashing.HashIterator.Next` | Source/NachOS-4.0/code/lib/hash.cc:347-360 | Moves on by exactly one item |
| `LinkedList.List.IsInList` | Source/NachOS-4.0/code/lib/list.cc:185-197 | The walk along the cells decides membership |
| `LinkedList.List.Append` | Source/NachOS-4.0/code/lib/list.cc:73-89 | The chain of cells gains the item at its end |
| `LinkedList.List.Prepend` | Source/NachOS-4.0/code/lib/list.cc:96-112 | The chain gains the item at its front |
| `LinkedList.List.RemoveFront` | Source/NachOS-4.0/code/lib/list.cc:123-142 | The chain loses its first item, which is returned |
| `LinkedList.List.Remove` | Source/NachOS-4.0/code/lib/list.cc:149-178 | The chain loses that item and keeps the others in order |
| `LinkedList.List.InsertSorted` | Source/NachOS-4.0/code/lib/list.cc:232-260 | The chain becomes the sorted insertion of the item, behind equal ones |
| `LinkedList.InsertAt` | Source/NachOS-4.0/code/lib/list.cc:243-257 | The place the walk stops at is the place of sorted insertion |

## Left out

- `FileSystem::Open` and the table of open files: line 288 of filesys.cc returns a table slot rather than the file built above it, so nothing is claimed about what Open returns. An `OpenFile` is constructed directly on a header sector.
- An `OpenFile` whose header in memory is stale because the file was removed or replaced: the write methods are proved for a header that equals the one on disk.
- Negative sizes, positions and counts: the code relies on callers not to pass them, and sizes above the largest file are excluded as the header documents.
- FILESYS_STUB, sysdep, sockets, UNIX files, consoles, the debugger and all printing: foreign calls and output. PollSocket and ReadFromSocket appear as a sequence of arrived packets.
- System-call handlers, address-space loading and coff2noff: plumbing and file conversion.
- SWITCH, ThreadRoot, stacks and fenceposts: a switch changes the current thread. Saving and restoring user registers across a switch is not modelled.
- Heap deallocation, except where a property names it (waiter semaphores, the destroyed thread).
- Overflow of the tick counters: ticks are unbounded numbers.
- FileData.SynchDisk.ReadSector: one atomic read, without the lock, request and completion; `Devices.ReadsSeeLastWrite` and `Devices.ReadAfterWrite` show that the code behaves so.
- FileData.SynchDisk.WriteSector: one atomic write, for the same reason.
- KernelCode.Kernel.Run: saving the user state and checking the stack for overflow before SWITCH are left out.
- KernelCode.Kernel.Fork: allocating the stack is left out.
- MipsCode.Processor.RaiseException: the change of machine status and the call of the kernel's handler are left out.
- Hashing.HashTable.SanityCheck: buckets are sequences here, so the check of each list on its own links is not part of it; that is `Valid` in `LinkedList`.
- KernelCode.Kernel.P: ends where the thread goes to sleep, and what follows the switch is `AfterSwitch`, because a Dafny method cannot suspend.
- Lock, Condition and SynchList as classes: they are modelled on values, as program counters and shared variables of `SynchListMachine`, because each of their methods can be suspended in the middle. The machine does not capture update in place and aliasing of the list cells, which `LinkedList` does.
- The ASSERT of `List::Append` that an item is not in the list yet: for the synchronised list this is the caller's obligation, as items are arbitrary.
- SynchDisk and the sending post office as classes: modelled on values in `DeviceProtocol` for the same reason; `DiskCode` is the device itself as a class, and the file system uses the atomic disk that `Devices.ReadsSeeLastWrite` justifies.
- InterruptCode.Interrupt.OneTick: the Yield a handler asked for is reported to the caller, which yields and restores the status; thread switching inside a tick is the kernel machine's.
- InterruptCode.Interrupt.CheckIfDue: the DelayedLoad it makes on the processor is modelled in `LoadDelay`.
- Handlers as code: a handler is a function of which interrupt it is and the time, which covers any behaviour that schedules with positive delay and may ask for a yield. Vs by handlers are steps of the kernel machine.
- MipsCode.Processor.OneInstruction: stops where the kernel would be called on a trap; printing of instructions under the debug flag is left out.
- MipsInstructions.HiLoValue: INT_MIN divided by -1, undefined in C, is taken to wrap around.
- UnalignedAccess.UnalignedRoundTrip: stated on decoded instructions executed one after the other; fetching them, which sets use bits only, is left to `Mips.OneInstruction`.
- LoadDelay.InterruptsAreInvisible: goes one way for whole runs; the exact condition for one instruction that writes the pending register at once is `LoadDelay.PendingLoadWins`.
- PostOffice.EveryRun: packets are addressed to this machine and an existing box and are long enough for the mail they announce; `PostOffice.IntactExactly` shows that this length is exactly what delivery needs, and `PostOffice.EmptyPacketRedelivers` is a run with a shorter one. Mailboxes are plain queues here, since `SynchListMachine` shows that they behave so.
- PostCode.PostOfficeInput.Put: the mailbox is a plain queue, without the lock and the signal of the synchronised list.
- PostCode.PostOfficeInput.Get: called on a box that has mail; waiting on an empty one is `SynchListMachine`'s.
- Self tests, demonstration programs and bundled compiler headers.
